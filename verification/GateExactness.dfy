/**
 When the consolidation gate can be relied on: for an exact rule, exactly when the selector keeps its meaning as
 it is stored. Every other selector has rows and a slice for which the gate passes and the slice is lost.
 */
module GateExactness {
  import opened Options
  import opened Locales
  import opened SliceTypes
  import opened Text
  import opened Classification
  import opened RuleInvariance
  import opened RulePreview
  import opened Consolidation

  /** Whatever the rows, the slices and the deletes, a passed gate makes creating the rule harmless. */
  ghost predicate GateSuffices(l: Locale, n: NewRule) {
    forall rows: seq<Rule>, slices: seq<StoredSlice>, deletes: seq<string>, id: string, now: string,
           draftId: nat -> string, stamp: nat -> string, i: nat ::
      (i < |slices| && !slices[i].isUnattributed && GatePasses(l, rows, slices, Manifest([n], deletes), draftId, stamp)
       && Applied(l.text, rows, Manifest([n], deletes), [id], now).Some?)
      ==> KeepsDecision(l, rows, Applied(l.text, rows, Manifest([n], deletes), [id], now).value, slices[i])
  }

  // ---- The verdict of one and of two rules ----

  ghost predicate Fit(r: Rule) {
    r.enabled && !TooLong(r.selectorValue)
  }

  lemma ShortRules(rules: seq<Rule>)
    requires forall r :: r in rules ==> Fit(r)
    ensures !AnyTooLong(rules)
  {
    hide TooLong;
    assert forall i :: 0 <= i < |rules| ==> rules[i] in rules;
  }

  lemma VerdictOfOne(l: Locale, slice: Slice, r: Rule)
    requires Lawful(l) && slice.kind == EntitySlice && Fit(r)
    ensures VerdictOf(Classify(l, slice, [r], None)) ==
            if Applies(l.text, slice, r) then Verdict(r.classification, FromRule) else Verdict(Unclassified, Default)
  {
    ShortRules([r]);
    VerdictFromTop(l, slice, [r]);
    BelowIsStrictOrder();
    hide Applies, KeyOf, Below, Classify, Lawful, AnyTooLong;
    assert forall q :: q in [r] <==> q == r;
    assert Top(l.text, slice, [r]) == if Applies(l.text, slice, r) then {r} else {};
    assert TopClasses(l.text, slice, [r]) == if Applies(l.text, slice, r) then {r.classification} else {};
  }

  lemma TopOfTwo(text: TextOps, slice: Slice, a: Rule, b: Rule)
    requires Applies(text, slice, a) && Applies(text, slice, b)
    ensures TopClasses(text, slice, [a, b]) ==
            if Below(KeyOf(text, a), KeyOf(text, b)) then {b.classification}
            else if Below(KeyOf(text, b), KeyOf(text, a)) then {a.classification}
                else {a.classification, b.classification}
  {
    BelowIsStrictOrder();
    hide Applies, KeyOf, Below;
    assert forall r :: r in [a, b] <==> r == a || r == b;
    var lower, upper := Below(KeyOf(text, a), KeyOf(text, b)), Below(KeyOf(text, b), KeyOf(text, a));
    assert Top(text, slice, [a, b]) == if lower then {b} else if upper then {a} else {a, b};
  }

  /** Two rules that both apply: the greater key decides; equal keys must agree. */
  lemma VerdictOfTwo(l: Locale, slice: Slice, a: Rule, b: Rule)
    requires Lawful(l) && slice.kind == EntitySlice && Fit(a) && Fit(b)
    requires Applies(l.text, slice, a) && Applies(l.text, slice, b)
    ensures VerdictOf(Classify(l, slice, [a, b], None)) ==
            if Below(KeyOf(l.text, a), KeyOf(l.text, b)) then Verdict(b.classification, FromRule)
            else if Below(KeyOf(l.text, b), KeyOf(l.text, a))
                || a.classification == b.classification then Verdict(a.classification, FromRule)
            else Verdict(Unclassified, Ambiguous)
  {
    ShortRules([a, b]);
    TopOfTwo(l.text, slice, a, b);
    hide *;
    VerdictFromTop(l, slice, [a, b]);
  }

  /** A second rule that does not apply changes nothing. */
  lemma VerdictBesideIdle(l: Locale, slice: Slice, a: Rule, b: Rule)
    requires Lawful(l) && slice.kind == EntitySlice && Fit(a) && Fit(b)
    requires Applies(l.text, slice, a) && !Applies(l.text, slice, b)
    ensures VerdictOf(Classify(l, slice, [a, b], None)) == Verdict(a.classification, FromRule)
  {
    ShortRules([a, b]);
    VerdictFromTop(l, slice, [a, b]);
    BelowIsStrictOrder();
    hide Applies, KeyOf, Below, Classify, Lawful, AnyTooLong;
    assert forall r :: r in [a, b] <==> r == a || r == b;
    assert Top(l.text, slice, [a, b]) == {a};
    assert TopClasses(l.text, slice, [a, b]) == {a.classification};
  }

  lemma ListedVerdict(l: Locale, slice: Slice, rules: seq<Rule>)
    requires Lawful(l)
    ensures VerdictOf(Classify(l, slice, Listed(l, rules), None)) == VerdictOf(Classify(l, slice, rules, None))
  {
    ListedMeanings(l, rules);
    hide *;
    OrderAndTimeIrrelevant(l, slice, Listed(l, rules), rules, None);
  }

  // ---- One manifest, one slice ----

  function IdOf(n: NewRule): string { Or(n.id, "n") }

  /** The created rule as the analysis and as the table have it. */
  function DraftOf(n: NewRule): Rule { RuleFrom(IdOf(n), n.body, "") }
  function StoredOf(text: TextOps, n: NewRule): Rule {
    RuleFrom(IdOf(n), n.body.(selectorValue := NormalizeSelector(text, n.body.selectorType, n.body.selectorValue)), "")
  }

  function Recorded(slice: Slice): StoredSlice {
    StoredSlice(0, "", 1.0, false, slice, None)
  }

  /** What the gate forbids, between two verdicts. */
  predicate Forbidden(base: Verdict, proposed: Verdict) {
    exists kind <- {PolarityFlip, LostClass, AmbiguityMove} :: Moves(kind, base, proposed)
  }

  predicate Kept(base: Verdict, applied: Verdict) {
    && base.Verdict? && applied.Verdict?
    && (base.classification != Unclassified ==> applied.classification == base.classification)
    && (base.source == Ambiguous <==> applied.source == Ambiguous)
  }

  /** The rows of the table when the manifest has been applied, for rows and deletes that leave `kept`. */
  lemma AppliedOne(text: TextOps, rows: seq<Rule>, n: NewRule, deletes: seq<string>)
    requires StoredValue(text, n.body.selectorType, n.body.selectorValue).Some? && FindRule(rows, IdOf(n)).None?
    ensures Inserted(text, rows, [n], [IdOf(n)], "") == Some(rows + [StoredOf(text, n)])
    ensures Applied(text, rows, Manifest([n], deletes), [IdOf(n)], "") == Deleted(rows + [StoredOf(text, n)], deletes)
  {
    assert [n][..0] == [] && [IdOf(n)][..0] == [];
    assert Inserted(text, rows, [], [], "") == Some(rows);
    assert StoredRule(text, n, IdOf(n), "") == Some(StoredOf(text, n)) by { hide NormalizeSelector, TooLong, Trim; }
    hide StoredRule, Deleted, FindRule, StoredOf, NormalizeSelector, StoredValue;
  }

  /** The gate passes although applying the manifest does not keep the slice. */
  lemma Escapes(l: Locale, n: NewRule, rows: seq<Rule>, deletes: seq<string>, slice: Slice, applied: seq<Rule>)
    requires Lawful(l) && StoredValue(l.text, n.body.selectorType, n.body.selectorValue).Some?
    requires Targets(rows, Manifest([n], deletes)) && FindRule(rows, IdOf(n)).None?
    requires Deleted(rows + [StoredOf(l.text, n)], deletes) == Some(applied)
    requires var base := VerdictOf(Classify(l, slice, rows, None));
             var proposed := VerdictOf(Classify(l, slice, Retained(rows, deletes) + [DraftOf(n)], None));
             base.Verdict? && proposed.Verdict? && !Forbidden(base, proposed)
                 && !Kept(base, VerdictOf(Classify(l, slice, applied, None)))
    ensures !GateSuffices(l, n)
  {
    hide *;
    var draftId: nat -> string, stamp: nat -> string := i => "n", i => "";
    AppliedOne(l.text, rows, n, deletes);
    ListedVerdict(l, slice, rows);
    ListedVerdict(l, slice, applied);
    AnalysedOne(rows, n, deletes, draftId, stamp);
    PassesOnOne(l, rows, Manifest([n], deletes), slice, draftId, stamp);
    NotKept(l, rows, applied, slice);
    Refutes(l, n, rows, deletes, slice, draftId, stamp, applied);
  }

  lemma NotKept(l: Locale, rows: seq<Rule>, applied: seq<Rule>, slice: Slice)
    requires !Kept(VerdictOf(Classify(l, slice, Listed(l, rows), None)),
             VerdictOf(Classify(l, slice, Listed(l, applied), None)))
    ensures !KeepsDecision(l, rows, applied, Recorded(slice))
  {
    hide Classify, Listed;
  }

  lemma Refutes(l: Locale, n: NewRule, rows: seq<Rule>, deletes: seq<string>, slice: Slice, draftId: nat -> string,
                stamp: nat -> string,
                applied: seq<Rule>)
    requires GatePasses(l, rows, [Recorded(slice)], Manifest([n], deletes), draftId, stamp)
    requires Applied(l.text, rows, Manifest([n], deletes), [IdOf(n)], "") == Some(applied)
             && !KeepsDecision(l, rows, applied, Recorded(slice))
    ensures !GateSuffices(l, n)
  {
    hide GatePasses, Applied, KeepsDecision;
    var slices := [Recorded(slice)];
    assert slices[0] == Recorded(slice) && !slices[0].isUnattributed;
  }

  lemma PassesOnOne(l: Locale, rows: seq<Rule>, m: Manifest, slice: Slice, draftId: nat -> string, stamp: nat -> string)
    requires Targets(rows, m)
    requires var base := VerdictOf(Classify(l, slice, rows, None));
             var proposed := VerdictOf(Classify(l, slice, AnalysedRules(rows, m, draftId, stamp), None));
             base.Verdict? && proposed.Verdict? && !Forbidden(base, proposed)
    ensures GatePasses(l, rows, [Recorded(slice)], m, draftId, stamp)
  {
    var proposed := AnalysedRules(rows, m, draftId, stamp);
    hide Classify, Targets, AnalysedRules, Moves;
    var s := Recorded(slice);
    assert AnalysedDecision(l, rows, s) == Classify(l, slice, rows, None);
    assert AnalysedDecision(l, proposed, s) == Classify(l, slice, proposed, None);
    assert Stays(l, s, rows, proposed);
  }

  lemma AnalysedOne(rows: seq<Rule>, n: NewRule, deletes: seq<string>, draftId: nat -> string, stamp: nat -> string)
    requires draftId(0) == "n" && stamp(0) == ""
    ensures AnalysedRules(rows, Manifest([n], deletes), draftId, stamp) == Retained(rows, deletes) + [DraftOf(n)]
  {
    hide Retained;
  }

  // ---- A slice for every selector, and a bystander that also matches it ----

  function SliceWith(t: SelectorType, x: string): Slice {
    match t
    case Machine => Slice(None, File, "", [x], ["w"], EntitySlice)
    case Editor => Slice(None, File, "", ["w"], [x], EntitySlice)
    case Application => Slice(None, App, x, ["w"], [], EntitySlice)
    case DomainName => Slice(None, Domain, x, ["w"], [], EntitySlice)
    case Project => Slice(Some(x), File, "", ["w"], [], EntitySlice)
    case FolderPrefix => Slice(None, File, x, ["w"], [], EntitySlice)
    case Entity => Slice(None, File, x, ["w"], [], EntitySlice)
  }

  function Bystander(id: string, t: SelectorType, c: RuleClass, priority: int): Rule {
    Rule(id, if t == Machine then Editor else Machine, "w", Exact, priority, "", c, true)
  }

  function Opposite(c: RuleClass): RuleClass {
    if c == Work then Personal else Work
  }

  lemma SliceWithFits(text: TextOps, r: Rule, x: string)
    requires r.enabled
    ensures Applies(text, SliceWith(r.selectorType, x), r)
            <==> PatternMatches(text, r.selectorType, r.selectorValue, r.matchMode, x)
  {
    hide PatternMatches;
    assert forall m :: m in [x] <==> m == x;
  }

  lemma BystanderFits(text: TextOps, id: string, t: SelectorType, c: RuleClass, priority: int, x: string)
    ensures var r := Bystander(id, t, c, priority);
            Fit(r) && Applies(text, SliceWith(t, x), r) && KeyOf(text, r).priority == priority
  {
    hide NormalizeSelector, NormalizePath;
    assert "w" in ["w"];
    assert Utf16Length("w") == 1;
  }

  lemma SliceWithIsEntity(t: SelectorType, x: string)
    ensures SliceWith(t, x).kind == EntitySlice
  {
  }

  // ---- Small tables ----

  lemma NewIds(id: string)
    ensures id + "o" != id && id + "f" != id && id + "o" != id + "f"
  {
    assert (id + "o")[|id|] == 'o' && (id + "f")[|id|] == 'f';
  }

  lemma Head(r: Rule, rest: seq<Rule>, id: string)
    ensures Without([r] + rest, id) == (if r.id == id then [] else [r]) + Without(rest, id)
    ensures FindRule([r] + rest, id) == if r.id == id then Some(r) else FindRule(rest, id)
    ensures Retained([r] + rest, [id]) == (if r.id == id then [] else [r]) + Retained(rest, [id])
  {
    assert ([r] + rest)[1..] == rest;
  }

  lemma DeleteOne(rows: seq<Rule>, id: string)
    ensures Deleted(rows, [id]) == if FindRule(rows, id).None? then None else Some(Without(rows, id))
  {
    assert [id][..0] == [];
    assert Deleted(rows, []) == Some(rows);
  }

  lemma DeleteFirst(prior: Rule, stored: Rule)
    requires prior.id != stored.id
    ensures Retained([prior], [prior.id]) == [] && Deleted([prior] + [stored], [prior.id]) == Some([stored])
    ensures FindRule([prior], prior.id).Some? && FindRule([prior], stored.id).None?
  {
    Head(prior, [stored], prior.id);
    Head(stored, [], prior.id);
    Head(prior, [], prior.id);
    Head(prior, [], stored.id);
    DeleteOne([prior] + [stored], prior.id);
    assert [prior] + [] == [prior] && [stored] + [] == [stored];
    assert Without([stored], prior.id) == [stored];
    assert Without([prior] + [stored], prior.id) == [stored];
    hide Deleted;
  }

  lemma DeleteSecond(kept: Rule, prior: Rule, stored: Rule)
    requires prior.id != stored.id && prior.id != kept.id && kept.id != stored.id
    ensures Retained([kept, prior], [prior.id]) == [kept]
            && Deleted([kept, prior] + [stored], [prior.id]) == Some([kept, stored])
    ensures FindRule([kept, prior], prior.id).Some? && FindRule([kept, prior], stored.id).None?
  {
    DeleteFirst(prior, stored);
    DeleteOne([prior] + [stored], prior.id);
    DeleteOne([kept, prior] + [stored], prior.id);
    Head(kept, [prior], prior.id);
    Head(kept, [prior], stored.id);
    Head(kept, [prior] + [stored], prior.id);
    assert [kept] + ([prior] + [stored]) == [kept, prior] + [stored] && [kept] + [prior] == [kept, prior];
    assert Without([prior] + [stored], prior.id) == [stored];
    assert Without([kept, prior] + [stored], prior.id) == [kept, stored];
    assert FindRule([prior] + [stored], prior.id).Some? && FindRule([kept, prior] + [stored], prior.id).Some?;
    assert [kept] + [] == [kept];
    hide Deleted, Without, FindRule, Retained;
  }

  lemma DeleteNothing(rows: seq<Rule>, stored: Rule)
    ensures Retained(rows, []) == rows && Deleted(rows + [stored], []) == Some(rows + [stored])
  {
    if rows != [] {
      DeleteNothing(rows[1..], stored);
    }
  }

  lemma TargetsOne(rows: seq<Rule>, n: NewRule, deletes: seq<string>)
    requires FindRule(rows, IdOf(n)).None? && forall i :: 0 <= i < |deletes| ==> FindRule(rows, deletes[i]).Some?
    ensures Targets(rows, Manifest([n], deletes))
  {
    hide FindRule;
  }

  ghost predicate Storable(text: TextOps, n: NewRule) {
    n.body.enabled && StoredValue(text, n.body.selectorType, n.body.selectorValue).Some?
  }

  lemma DraftFits(text: TextOps, n: NewRule)
    requires Storable(text, n)
    ensures Fit(DraftOf(n)) && DraftOf(n).id == IdOf(n) == StoredOf(text, n).id && StoredOf(text, n).enabled
    ensures StoredValue(text, n.body.selectorType, n.body.selectorValue).Some?
    ensures StoredOf(text, n).selectorValue == NormalizeSelector(text, n.body.selectorType, n.body.selectorValue)
    ensures !TooLong(StoredOf(text, n).selectorValue) ==> Fit(StoredOf(text, n))
  {
    hide NormalizeSelector, TooLong;
  }

  // ---- The ways a selector can fail ----

  /** The draft matches a slice that the stored rule does not: replacing an prior rule loses the slice. */
  lemma LosesSlice(l: Locale, n: NewRule, x: string)
    requires Lawful(l) && Storable(l.text, n) && Fit(StoredOf(l.text, n))
    requires Applies(l.text, SliceWith(n.body.selectorType, x), DraftOf(n))
             && !Applies(l.text, SliceWith(n.body.selectorType, x), StoredOf(l.text, n))
    ensures !GateSuffices(l, n)
  {
    hide *;
    var slice, stored, t := SliceWith(n.body.selectorType, x), StoredOf(l.text, n), n.body.selectorType;
    var prior := Bystander(IdOf(n) + "o", t, n.body.classification, 0);
    DraftFits(l.text, n);
    NewIds(IdOf(n));
    SliceWithIsEntity(t, x);
    BystanderFits(l.text, IdOf(n) + "o", t, n.body.classification, 0, x);
    BystanderIs(IdOf(n) + "o", t, n.body.classification, 0);
    DeleteFirst(prior, stored);
    TargetsOne([prior], n, [prior.id]);
    VerdictOfOne(l, slice, prior);
    VerdictOfOne(l, slice, DraftOf(n));
    VerdictOfOne(l, slice, stored);
    RuleClasses(l.text, n);
    VerdictCases(n.body.classification);
    assert [] + [DraftOf(n)] == [DraftOf(n)];
    Escapes(l, n, [prior], [prior.id], slice, [stored]);
  }

  lemma BystanderIs(id: string, t: SelectorType, c: RuleClass, priority: int)
    ensures Bystander(id, t, c, priority).id == id && Bystander(id, t, c, priority).classification == c
  {
  }

  lemma RuleClasses(text: TextOps, n: NewRule)
    ensures DraftOf(n).classification == StoredOf(text, n).classification == n.body.classification
  {
  }

  lemma VerdictCases(c: RuleClass)
    ensures Opposite(c) != c && Opposite(Opposite(c)) == c
    ensures !Forbidden(Verdict(c, FromRule), Verdict(c, FromRule))
    ensures !Forbidden(Verdict(Unclassified, Default), Verdict(c, FromRule))
            && !Forbidden(Verdict(Unclassified, Default), Verdict(Unclassified, Default))
    ensures !Kept(Verdict(c, FromRule), Verdict(Unclassified, Default))
            && !Kept(Verdict(c, FromRule), Verdict(Unclassified, Ambiguous))
    ensures !Kept(Verdict(c, FromRule), Verdict(Opposite(c), FromRule))
            && !Kept(Verdict(Unclassified, Default), NoVerdict)
  {
  }

  /** The stored rule matches a slice that the draft does not: it takes the slice over. */
  lemma TakesSlice(l: Locale, n: NewRule, x: string)
    requires Lawful(l) && Storable(l.text, n) && Fit(StoredOf(l.text, n))
    requires !Applies(l.text, SliceWith(n.body.selectorType, x), DraftOf(n))
             && Applies(l.text, SliceWith(n.body.selectorType, x), StoredOf(l.text, n))
    ensures !GateSuffices(l, n)
  {
    hide *;
    var slice, stored, t, other := SliceWith(n.body.selectorType, x), StoredOf(l.text, n), n.body.selectorType,
        Opposite(n.body.classification);
    var id, low := IdOf(n) + "o", n.body.priority - 1;
    var prior := Bystander(id, t, other, low);
    DraftFits(l.text, n);
    NewIds(IdOf(n));
    SliceWithIsEntity(t, x);
    BystanderFits(l.text, id, t, other, low, x);
    BystanderIs(id, t, other, low);
    DeleteNothing([prior], stored);
    AbsentId(prior, IdOf(n));
    TargetsOne([prior], n, []);
    VerdictOfOne(l, slice, prior);
    VerdictBesideIdle(l, slice, prior, DraftOf(n));
    VerdictOfTwo(l, slice, prior, stored);
    StoredPriority(l.text, n);
    HigherPriority(l.text, prior, stored);
    RuleClasses(l.text, n);
    VerdictCases(other);
    VerdictCases(n.body.classification);
    assert [prior] + [DraftOf(n)] == [prior, DraftOf(n)] && [prior] + [stored] == [prior, stored];
    Escapes(l, n, [prior], [], slice, [prior, stored]);
  }

  lemma AbsentId(r: Rule, id: string)
    requires r.id != id
    ensures FindRule([r], id).None?
  {
  }

  lemma HigherPriority(text: TextOps, a: Rule, b: Rule)
    requires KeyOf(text, a).priority < KeyOf(text, b).priority
    ensures Below(KeyOf(text, a), KeyOf(text, b))
  {
    hide KeyOf;
  }

  lemma StoredPriority(text: TextOps, n: NewRule)
    ensures KeyOf(text, StoredOf(text, n)).priority == KeyOf(text, DraftOf(n)).priority == n.body.priority
  {
    hide NormalizeSelector, NormalizePath;
  }

  // ---- Exact folder selectors whose key changes when they are stored ----

  /** Same folder, other length: against a rule for the stored folder the draft wins or loses, the stored rule ties. */
  lemma TiesOnceStored(l: Locale, n: NewRule, x: string)
    requires Lawful(l) && Storable(l.text, n) && Fit(StoredOf(l.text, n)) && n.body.selectorType == FolderPrefix
             && n.body.matchMode == Exact
    requires Applies(l.text, SliceWith(FolderPrefix, x), DraftOf(n))
             && Applies(l.text, SliceWith(FolderPrefix, x), StoredOf(l.text, n))
    requires FolderMeasure(l.text, n.body.selectorValue) != FolderMeasure(l.text, StoredOf(l.text, n).selectorValue)
    ensures !GateSuffices(l, n)
  {
    hide *;
    var slice, stored, draft, c := SliceWith(FolderPrefix, x), StoredOf(l.text, n), DraftOf(n), n.body.classification;
    var rival := stored.(id := IdOf(n) + "f", classification := Opposite(c));
    var prior := Bystander(IdOf(n) + "o", FolderPrefix, c, n.body.priority + 1);
    DraftFits(l.text, n);
    NewIds(IdOf(n));
    SliceWithIsEntity(FolderPrefix, x);
    BystanderFits(l.text, IdOf(n) + "o", FolderPrefix, c, n.body.priority + 1, x);
    BystanderIs(IdOf(n) + "o", FolderPrefix, c, n.body.priority + 1);
    RuleClasses(l.text, n);
    StoredPriority(l.text, n);
    RivalIs(l.text, slice, stored, rival);
    MeasuresDecide(l.text, n);
    VerdictCases(c);
    VerdictCases(Opposite(c));
    VerdictOfTwo(l, slice, rival, draft);
    VerdictOfTwo(l, slice, rival, stored);
    assert [rival] + [draft] == [rival, draft] && [rival] + [stored] == [rival, stored];
    if Below(KeyOf(l.text, rival), KeyOf(l.text, draft)) {
      HigherPriority(l.text, rival, prior);
      VerdictOfTwo(l, slice, rival, prior);
      DeleteSecond(rival, prior, stored);
      TargetsOne([rival, prior], n, [prior.id]);
      Escapes(l, n, [rival, prior], [prior.id], slice, [rival, stored]);
    } else {
      VerdictOfOne(l, slice, rival);
      DeleteNothing([rival], stored);
      AbsentId(rival, IdOf(n));
      TargetsOne([rival], n, []);
      Escapes(l, n, [rival], [], slice, [rival, stored]);
    }
  }

  /** A rule that differs from another in id and class only. */
  lemma RivalIs(text: TextOps, slice: Slice, stored: Rule, rival: Rule)
    requires rival == stored.(id := rival.id, classification := rival.classification)
    ensures KeyOf(text, rival) == KeyOf(text, stored)
            && (Applies(text, slice, rival) <==> Applies(text, slice, stored)) && (Fit(stored) ==> Fit(rival))
    ensures !Below(KeyOf(text, rival), KeyOf(text, stored)) && !Below(KeyOf(text, stored), KeyOf(text, rival))
  {
    assert MeaningOf(text, rival).key == KeyOf(text, stored) by { hide NormalizeSelector, NormalizePath; }
    hide NormalizeSelector, NormalizePath, TooLong, PatternMatches;
  }

  lemma MeasuresDecide(text: TextOps, n: NewRule)
    requires n.body.selectorType == FolderPrefix && n.body.matchMode == Exact
    ensures var d, s := KeyOf(text, DraftOf(n)), KeyOf(text, StoredOf(text, n));
            var v, w := FolderMeasure(text, n.body.selectorValue), FolderMeasure(text, StoredOf(text, n).selectorValue);
            (Below(s, d) <==> w < v) && (Below(d, s) <==> v < w)
  {
    hide NormalizeSelector, NormalizePath;
  }

  // ---- A selector that is too long once stored ----

  lemma TooLongOnceStored(l: Locale, n: NewRule)
    requires Lawful(l) && Storable(l.text, n) && TooLong(StoredOf(l.text, n).selectorValue)
    ensures !GateSuffices(l, n)
  {
    hide *;
    var slice, stored := SliceWith(n.body.selectorType, ""), StoredOf(l.text, n);
    DraftFits(l.text, n);
    SliceWithIsEntity(n.body.selectorType, "");
    DeleteNothing([], stored);
    NoRules(IdOf(n));
    TargetsOne([], n, []);
    VerdictOfNone(l, slice);
    VerdictOfOne(l, slice, DraftOf(n));
    NoVerdictWhenTooLong(l, slice, stored);
    RuleClasses(l.text, n);
    VerdictCases(n.body.classification);
    assert [] + [DraftOf(n)] == [DraftOf(n)] && [] + [stored] == [stored];
    Escapes(l, n, [], [], slice, [stored]);
  }

  lemma NoRules(id: string)
    ensures FindRule([], id).None?
  {
  }

  lemma VerdictOfNone(l: Locale, slice: Slice)
    requires slice.kind == EntitySlice
    ensures VerdictOf(Classify(l, slice, [], None)) == Verdict(Unclassified, Default)
  {
  }

  lemma NoVerdictWhenTooLong(l: Locale, slice: Slice, r: Rule)
    requires slice.kind == EntitySlice && r.enabled && TooLong(r.selectorValue)
    ensures VerdictOf(Classify(l, slice, [r], None)) == NoVerdict
  {
    hide TooLong;
    assert [r][0] == r;
  }

  // ---- The exact condition ----

  lemma FolderApplies(text: TextOps, r: Rule, x: string)
    requires r.enabled && r.selectorType == FolderPrefix && r.matchMode == Exact
    ensures Applies(text, SliceWith(FolderPrefix, x), r) <==>
            NormalizePath(text, x) == FolderOf(text, r.selectorValue)
                || FolderOf(text, r.selectorValue) + "/" <= NormalizePath(text, x)
  {
    SliceWithFits(text, r, x);
    hide NormalizePath, NormalizeSelector;
  }

  lemma SelfMatch(text: TextOps, r: Rule, x: string)
    requires r.enabled && r.selectorType != FolderPrefix && r.matchMode == Exact
    ensures Applies(text, SliceWith(r.selectorType, x), r) <==>
            NormalizeSelector(text, r.selectorType, x) == NormalizeSelector(text, r.selectorType, r.selectorValue)
  {
    SliceWithFits(text, r, x);
    hide NormalizePath, NormalizeSelector;
  }

  /** An unstable exact selector escapes the gate. */
  lemma UnstableEscapes(l: Locale, n: NewRule)
    requires Lawful(l) && Storable(l.text, n) && n.body.matchMode == Exact
    requires !StableSelector(l.text, n.body.selectorType, Exact, n.body.selectorValue)
    ensures !GateSuffices(l, n)
  {
    var t, v, stored, draft := n.body.selectorType, n.body.selectorValue, StoredOf(l.text, n), DraftOf(n);
    DraftFits(l.text, n);
    Instability(l.text, n);
    DraftIs(l.text, n);
    hide *;
    if TooLong(stored.selectorValue) {
      TooLongOnceStored(l, n);
    } else if t != FolderPrefix {
      SelfMatch(l.text, draft, v);
      SelfMatch(l.text, stored, v);
      LosesSlice(l, n, v);
    } else {
      var near, far := stored.selectorValue, NormalizeSelector(l.text, FolderPrefix, stored.selectorValue);
      FolderApplies(l.text, draft, near);
      FolderApplies(l.text, stored, near);
      FolderApplies(l.text, draft, far);
      FolderApplies(l.text, stored, far);
      FolderIs(l.text, v);
      FolderIs(l.text, near);
      if !Applies(l.text, SliceWith(FolderPrefix, near), stored) {
        LosesSlice(l, n, near);
      } else if FolderOf(l.text, v) != FolderOf(l.text, near) {
        NotBothPrefixes(FolderOf(l.text, v), FolderOf(l.text, near));
        TakesSlice(l, n, far);
      } else {
        TiesOnceStored(l, n, near);
      }
    }
  }

  lemma Instability(text: TextOps, n: NewRule)
    requires Storable(text, n) && !StableSelector(text, n.body.selectorType, Exact, n.body.selectorValue)
    ensures var t, v, w := n.body.selectorType, n.body.selectorValue, StoredOf(text, n).selectorValue;
            || TooLong(w)
            || (t != FolderPrefix && NormalizeSelector(text, t, w) != NormalizeSelector(text, t, v))
            || (t == FolderPrefix && (FolderOf(text, w) != FolderOf(text, v)
               || FolderMeasure(text, w) != FolderMeasure(text, v)))
  {
    hide NormalizeSelector, NormalizePath, TooLong;
  }

  lemma DraftIs(text: TextOps, n: NewRule)
    ensures DraftOf(n).selectorType == StoredOf(text, n).selectorType == n.body.selectorType
            && DraftOf(n).selectorValue == n.body.selectorValue
    ensures DraftOf(n).matchMode == StoredOf(text, n).matchMode == n.body.matchMode
    ensures StoredOf(text, n).selectorValue == NormalizeSelector(text, n.body.selectorType, n.body.selectorValue)
  {
    hide NormalizeSelector;
  }

  lemma FolderIs(text: TextOps, value: string)
    ensures FolderOf(text, value) == NormalizePath(text, NormalizeSelector(text, FolderPrefix, value))
  {
  }

  lemma NotBothPrefixes(a: string, b: string)
    ensures !(a + "/" <= b && (a == b || b + "/" <= a))
  {
  }

  /**
   Creating an exact rule behind a passed gate is harmless whatever the rows and slices, if and only if its selector
   is stable.
   */
  lemma GateSufficesIff(l: Locale, n: NewRule)
    requires Lawful(l) && Storable(l.text, n) && n.body.matchMode == Exact
    ensures GateSuffices(l, n) <==> StableSelector(l.text, n.body.selectorType, Exact, n.body.selectorValue)
  {
    if StableSelector(l.text, n.body.selectorType, Exact, n.body.selectorValue) {
      StableSuffices(l, n);
    } else {
      UnstableEscapes(l, n);
    }
  }

  /** For any match mode a stable selector is enough; disabled and refused rules are harmless anyway. */
  lemma StableSuffices(l: Locale, n: NewRule)
    requires Lawful(l) && (Storable(l.text, n) ==>
             StableSelector(l.text, n.body.selectorType, n.body.matchMode, n.body.selectorValue))
    ensures GateSuffices(l, n)
  {
    forall rows: seq<Rule>, slices: seq<StoredSlice>, deletes: seq<string>, id: string, now: string,
        draftId: nat -> string, stamp: nat -> string, i: nat |
      (i < |slices| && !slices[i].isUnattributed && GatePasses(l, rows, slices, Manifest([n], deletes), draftId, stamp)
       && Applied(l.text, rows, Manifest([n], deletes), [id], now).Some?)
      ensures KeepsDecision(l, rows, Applied(l.text, rows, Manifest([n], deletes), [id], now).value, slices[i])
    {
      var m := Manifest([n], deletes);
      assert StableManifest(l.text, m) by { OnlyStorable(l.text, rows, n, deletes, id, now); }
      hide *;
      GateIsEnough(l, rows, slices, m, [id], now, draftId, stamp, i);
    }
  }

  lemma OnlyStorable(text: TextOps, rows: seq<Rule>, n: NewRule, deletes: seq<string>, id: string, now: string)
    requires Applied(text, rows, Manifest([n], deletes), [id], now).Some?
    ensures n.body.enabled ==> Storable(text, n)
  {
    hide StoredValue, FindRule, Deleted;
  }

  // ---- A concrete manifest ----

  const FOLDER_ROW := FolderRule("/w", Work)
  const FILE_ROW := Rule("e", SelectorType.Entity, "/w/x", Exact, 0, "", Personal, true)
  const WIDENED := NewRule(Some("n"), Body(Personal, FolderPrefix, "/w//", Exact, 0, true))
  const REPLACEMENT := Manifest([WIDENED], ["e"])
  const FILE_SLICE := Slice(None, File, "/w/x", [], [], EntitySlice)
  const STORED_ROW := RuleFrom("n", WIDENED.body.(selectorValue := "/w/"), "")

  lemma PathsOfExample()
    ensures NormalizePath(PLAIN, "/w") == "/w" && NormalizePath(PLAIN, "/w/x") == "/w/x"
    ensures NormalizePath(PLAIN, "/w//") == "/w/" && NormalizePath(PLAIN, "/w/") == "/w"
    ensures Trim("/w") == "/w" && Trim("/w/x") == "/w/x" && Trim("/w//") == "/w//" && Trim("/w/") == "/w/"
  {
    NormalizePlain("/w");
    NormalizePlain("/w/x");
    NormalizePlain("/w//");
    NormalizePlain("/w/");
  }

  lemma RulesOfExample(at: string)
    ensures Applies(PLAIN, FILE_SLICE, FOLDER_ROW) && KeyOf(PLAIN, FOLDER_ROW) == Key(0, 50, 1, 2)
    ensures Applies(PLAIN, FILE_SLICE, FILE_ROW) && KeyOf(PLAIN, FILE_ROW) == Key(0, 60, 1, 0)
    ensures var draft := RuleFrom("n", WIDENED.body, at);
            Applies(PLAIN, FILE_SLICE, draft) && KeyOf(PLAIN, draft) == Key(0, 50, 1, 3)
    ensures Applies(PLAIN, FILE_SLICE, STORED_ROW) && KeyOf(PLAIN, STORED_ROW) == Key(0, 50, 1, 2)
  {
    PathsOfExample();
    hide NormalizePath, Trim;
    assert "/w" + "/" <= "/w/x";
    assert Utf16Length("/w") == 2 && Utf16Length("/w/") == 3;
  }

  lemma TextsOfExample(at: string)
    ensures Fit(FOLDER_ROW) && Fit(FILE_ROW) && Fit(RuleFrom("n", WIDENED.body, at)) && Fit(STORED_ROW)
    ensures StoredValue(PLAIN, FolderPrefix, "/w//") == Some("/w/") && StoredOf(PLAIN, WIDENED) == STORED_ROW
    ensures !StableSelector(PLAIN, FolderPrefix, Exact, "/w//")
  {
    PathsOfExample();
    hide NormalizePath, Trim;
    assert Utf16Length("/w") == 2 && Utf16Length("/w/") == 3 && Utf16Length("/w//") == 4 && Utf16Length("/w/x") == 4;
  }

  lemma TablesOfExample(draftId: nat -> string, stamp: nat -> string)
    ensures Targets([FOLDER_ROW, FILE_ROW], REPLACEMENT)
    ensures AnalysedRules([FOLDER_ROW, FILE_ROW], REPLACEMENT, draftId, stamp)
            == [FOLDER_ROW, RuleFrom("n", WIDENED.body, stamp(0))]
    ensures Applied(PLAIN, [FOLDER_ROW, FILE_ROW], REPLACEMENT, ["n"], "") == Some([FOLDER_ROW, STORED_ROW])
  {
    TextsOfExample("");
    DeleteSecond(FOLDER_ROW, FILE_ROW, STORED_ROW);
    AppliedOne(PLAIN, [FOLDER_ROW, FILE_ROW], WIDENED, ["e"]);
    TargetsOne([FOLDER_ROW, FILE_ROW], WIDENED, ["e"]);
    var drafts := DraftRules(REPLACEMENT, draftId, stamp);
    hide Retained, Applied, Deleted, Targets, StoredOf, StoredValue, StableSelector, FindRule;
    assert drafts == [RuleFrom("n", WIDENED.body, stamp(0))];
    assert [FOLDER_ROW] + drafts == [FOLDER_ROW, RuleFrom("n", WIDENED.body, stamp(0))];
  }

  /**
   The folder selector "/w//" counts three characters in the analysis but two once stored. Replacing the exact file
   rule by it passes the gate, and the table that the manifest leaves makes the slice ambiguous.
   */
  lemma UnstableSelectorEscapesTheGate(l: Locale, draftId: nat -> string, stamp: nat -> string)
    requires Lawful(l) && l.text == PLAIN
    ensures var rows, applied := [FOLDER_ROW, FILE_ROW], [FOLDER_ROW, STORED_ROW];
            && !StableSelector(PLAIN, FolderPrefix, Exact, "/w//")
            && GatePasses(l, rows, [Recorded(FILE_SLICE)], REPLACEMENT, draftId, stamp)
            && Applied(PLAIN, rows, REPLACEMENT, ["n"], "") == Some(applied)
            && VerdictOf(Classify(l, FILE_SLICE, Listed(l, rows), None)) == Verdict(Personal, FromRule)
            && VerdictOf(Classify(l, FILE_SLICE, Listed(l, applied), None)) == Verdict(Unclassified, Ambiguous)
  {
    var rows, applied, draft := [FOLDER_ROW, FILE_ROW], [FOLDER_ROW, STORED_ROW], RuleFrom("n", WIDENED.body, stamp(0));
    RulesOfExample(stamp(0));
    TextsOfExample(stamp(0));
    TablesOfExample(draftId, stamp);
    hide NormalizePath, NormalizeSelector, KeyOf, Applies, Classify, Lawful, Fit, AnalysedRules, Applied, Targets,
         Listed, StoredValue;
    VerdictOfTwo(l, FILE_SLICE, FOLDER_ROW, FILE_ROW);
    VerdictOfTwo(l, FILE_SLICE, FOLDER_ROW, draft);
    VerdictOfTwo(l, FILE_SLICE, FOLDER_ROW, STORED_ROW);
    ListedVerdict(l, FILE_SLICE, rows);
    ListedVerdict(l, FILE_SLICE, applied);
    hide Below;
    VerdictCases(Personal);
    PassesOnOne(l, rows, REPLACEMENT, FILE_SLICE, draftId, stamp);
  }
}
