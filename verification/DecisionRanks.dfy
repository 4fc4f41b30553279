/**
 The decision of `classifySlice` by a second reading that knows no keys: which texts of a slice a selector looks at,
 when it claims the slice, and which of two rules outranks the other.
 */
module DecisionRanks {
  import opened Options
  import opened SliceTypes
  import opened Text
  import opened Orders
  import opened Glob
  import opened GlobCompiler
  import opened Locales
  import opened Classification
  import opened RuleInvariance

  // ---- Which slices a rule claims ----

  /** The text looked at by a selector of the kind. */
  ghost predicate LooksAt(t: SelectorType, slice: Slice, x: string) {
    || (t == Machine && x in slice.machineIds)
    || (t == Editor && x in slice.editors)
    || (t == Application && slice.entityType == App && x == slice.entity)
    || (t == DomainName && slice.entityType == Domain && x == slice.entity)
    || (t == SelectorType.Project && slice.project == Some(x))
    || (t == FolderPrefix && slice.entityType == File && x == slice.entity)
    || (t == SelectorType.Entity && x == slice.entity)
  }

  predicate IsPathKind(t: SelectorType) {
    t == FolderPrefix || t == SelectorType.Entity
  }

  /** Names other than those of projects are compared in lower case, paths with forward slashes and no trailing one. */
  function Compared(text: TextOps, t: SelectorType, x: string): string {
    var trimmed := text.nfc(Trim(x));
    if IsPathKind(t) then NormalizePath(text, trimmed)
    else if t == SelectorType.Project then trimmed
    else text.lower(trimmed)
  }

  /** The selector fits the text: the same name, the folder or a path below it, or a text of the pattern. */
  ghost predicate SelectorFits(text: TextOps, t: SelectorType, mode: MatchMode, value: string, x: string) {
    var v, y := Compared(text, t, value), Compared(text, t, x);
    if mode == Exact then
      if t == FolderPrefix then
        var folder, path := NormalizePath(text, v), NormalizePath(text, x);
        path == folder || exists rest :: path == folder + "/" + rest
      else y == v
    else if IsPathKind(t) && IsDrivePath(y) then Accepts(LowerTokens(text, Compiled(v)), y)
    else PatternAccepts(v, y)
  }

  /** An enabled rule claims a slice of entity detail if its selector fits a text it looks at. */
  ghost predicate Claims(text: TextOps, slice: Slice, r: Rule) {
    && r.enabled && slice.kind == EntitySlice
    && exists x ::
       LooksAt(r.selectorType, slice, x) && SelectorFits(text, r.selectorType, r.matchMode, r.selectorValue, x)
  }

  lemma SelectorFitsIs(text: TextOps, t: SelectorType, mode: MatchMode, value: string, x: string)
    ensures SelectorFits(text, t, mode, value, x) <==> PatternMatches(text, t, value, mode, x)
  {
    ComparedIs(text, t, value);
    ComparedIs(text, t, x);
    var v := Compared(text, t, value);
    CompiledMeansPattern(v, Compared(text, t, x));
    var folder, path := NormalizePath(text, v), NormalizePath(text, x);
    if folder + "/" <= path {
      assert path == folder + "/" + path[|folder| + 1..];
    }
    hide NormalizePath, NormalizeSelector, Compared, Compiled, Accepts, PatternAccepts, LowerTokens, IsDrivePath;
  }

  lemma ComparedIs(text: TextOps, t: SelectorType, x: string)
    ensures Compared(text, t, x) == NormalizeSelector(text, t, x)
  {
    hide NormalizePath, Trim;
  }

  /** The pattern of the rule matches a text it looks at. */
  ghost predicate SomeMatch(text: TextOps, slice: Slice, r: Rule) {
    exists x ::
      LooksAt(r.selectorType, slice, x) && PatternMatches(text, r.selectorType, r.selectorValue, r.matchMode, x)
  }

  lemma ClaimsIs(text: TextOps, slice: Slice, r: Rule)
    ensures Claims(text, slice, r) <==> Applies(text, slice, r)
  {
    forall x ensures SelectorFits(text, r.selectorType, r.matchMode, r.selectorValue, x)
                <==> PatternMatches(text, r.selectorType, r.selectorValue, r.matchMode, x) {
      SelectorFitsIs(text, r.selectorType, r.matchMode, r.selectorValue, x);
    }
    SomeMatchIs(text, slice, r);
    hide SelectorFits, PatternMatches, LooksAt, Applies;
  }

  lemma SomeMatchIs(text: TextOps, slice: Slice, r: Rule)
    ensures Applies(text, slice, r) <==> r.enabled && slice.kind == EntitySlice && SomeMatch(text, slice, r)
  {
    hide PatternMatches;
    match r.selectorType
    case Machine => assert forall x :: x in slice.machineIds <==> LooksAt(Machine, slice, x);
    case Editor => assert forall x :: x in slice.editors <==> LooksAt(Editor, slice, x);
    case Application => assert slice.entityType == App <==> LooksAt(Application, slice, slice.entity);
    case DomainName => assert slice.entityType == Domain <==> LooksAt(DomainName, slice, slice.entity);
    case Project =>
      if slice.project.Some? { assert LooksAt(SelectorType.Project, slice, slice.project.value); }
    case FolderPrefix => assert slice.entityType == File <==> LooksAt(FolderPrefix, slice, slice.entity);
    case Entity => assert LooksAt(SelectorType.Entity, slice, slice.entity);
  }

  // ---- Which rule outranks which ----

  /** Entities are narrower than folders, folders than projects, projects than all else; the rest is on one level. */
  predicate NarrowerKind(a: SelectorType, b: SelectorType) {
    || (a == SelectorType.Entity && b != SelectorType.Entity)
    || (a == FolderPrefix && b != SelectorType.Entity && b != FolderPrefix)
    || (a == SelectorType.Project && b in {Machine, Editor, Application, DomainName})
  }

  predicate SameLevel(a: SelectorType, b: SelectorType) {
    !NarrowerKind(a, b) && !NarrowerKind(b, a)
  }

  /** Of two rules of one level and mode: the longer folder, or the pattern with more literal characters. */
  predicate LongerSelector(text: TextOps, a: Rule, b: Rule) {
    if a.matchMode == Exact then
      a.selectorType == FolderPrefix && b.selectorType == FolderPrefix
      && Utf16Length(NormalizePath(text, a.selectorValue)) > Utf16Length(NormalizePath(text, b.selectorValue))
    else
      LiteralChars(Compiled(Compared(text, a.selectorType, a.selectorValue)))
      > LiteralChars(Compiled(Compared(text, b.selectorType, b.selectorValue)))
  }

  /** Priority first, then the narrower kind, then exact before glob, then the longer selector. */
  predicate Outranks(text: TextOps, a: Rule, b: Rule) {
    || a.priority > b.priority
    || (a.priority == b.priority
        && (|| NarrowerKind(a.selectorType, b.selectorType)
            || (SameLevel(a.selectorType, b.selectorType)
                && ((a.matchMode == Exact && b.matchMode == GlobMode)
                    || (a.matchMode == b.matchMode && LongerSelector(text, a, b))))))
  }

  lemma OutranksIs(text: TextOps, a: Rule, b: Rule)
    ensures Outranks(text, a, b) <==> Below(KeyOf(text, b), KeyOf(text, a))
  {
    ComparedIs(text, a.selectorType, a.selectorValue);
    ComparedIs(text, b.selectorType, b.selectorValue);
    hide NormalizePath, NormalizeSelector, Compared, Compiled, LiteralChars, Utf16Length;
  }

  /** The rules that claim the slice and are outranked by no other claimant. */
  ghost predicate Leads(text: TextOps, slice: Slice, rules: seq<Rule>, r: Rule) {
    r in rules && Claims(text, slice, r) && forall q :: q in rules && Claims(text, slice, q) ==> !Outranks(text, q, r)
  }

  lemma LeadsIs(text: TextOps, slice: Slice, rules: seq<Rule>, r: Rule)
    ensures Leads(text, slice, rules, r) <==> r in Top(text, slice, rules)
  {
    ClaimsIs(text, slice, r);
    forall q ensures Claims(text, slice, q) <==> Applies(text, slice, q) { ClaimsIs(text, slice, q); }
    forall q ensures Outranks(text, q, r) <==> Below(KeyOf(text, r), KeyOf(text, q)) { OutranksIs(text, q, r); }
    hide Claims, Applies, Outranks, Below, KeyOf;
  }

  /**
   The class and source of a slice without an allocation: what the leading rules say if they agree, unclassified if they
   do not or if there are none.
   */
  lemma LeadersDecide(l: Locale, slice: Slice, rules: seq<Rule>)
    requires Lawful(l) && slice.kind == EntitySlice
    requires forall r :: r in rules && r.enabled ==> Utf16Length(r.selectorValue) <= 500
    ensures var v := VerdictOf(Classify(l, slice, rules, None));
            && v.Verdict?
            && (v == Verdict(Unclassified, Default) <==> forall r :: !Leads(l.text, slice, rules, r))
            && (v == Verdict(Unclassified, Ambiguous) <==>
                exists a, b :: Leads(l.text, slice, rules, a) && Leads(l.text, slice, rules, b)
                               && a.classification != b.classification)
            && (v.source == FromRule <==>
                (exists r :: Leads(l.text, slice, rules, r))
                && forall a, b :: Leads(l.text, slice, rules, a) && Leads(l.text, slice, rules, b) ==>
                     a.classification == b.classification)
            && (v.source == FromRule ==>
                  forall r :: Leads(l.text, slice, rules, r) ==> r.classification == v.classification)
  {
    hide *;
    NoneTooLong(rules);
    ShortDecides(l, slice, rules);
    ClassifyIsDeclarative(l, slice, rules);
    forall r ensures Leads(l.text, slice, rules, r) <==> r in Top(l.text, slice, rules) {
      LeadsIs(l.text, slice, rules, r);
    }
    TopClassesAre(l.text, slice, rules);
    ClassesFollow(Top(l.text, slice, rules), TopClasses(l.text, slice, rules),
        Classify(l, slice, rules, None).decision);
    VerdictIs(Classify(l, slice, rules, None));
  }

  lemma NoneTooLong(rules: seq<Rule>)
    requires forall r :: r in rules && r.enabled ==> Utf16Length(r.selectorValue) <= 500
    ensures !AnyTooLong(rules)
  {
    hide Utf16Length;
  }

  lemma ShortDecides(l: Locale, slice: Slice, rules: seq<Rule>)
    requires !AnyTooLong(rules)
    ensures Classify(l, slice, rules, None).Decided?
  {
    hide AnyTooLong, Decide;
  }

  lemma VerdictIs(outcome: Outcome)
    requires outcome.Decided?
    ensures VerdictOf(outcome) == Verdict(outcome.decision.classification, outcome.decision.source)
  {
  }

  lemma TopClassesAre(text: TextOps, slice: Slice, rules: seq<Rule>)
    ensures forall c ::
            c in TopClasses(text, slice, rules) <==> exists r :: r in Top(text, slice, rules) && r.classification == c
  {
    hide Top;
  }

  /** The three cases of the decision, said of the leading rules. */
  lemma ClassesFollow(top: set<Rule>, classes: set<Class>, d: Decision)
    requires forall c :: c in classes <==> exists r :: r in top && r.classification == c
    requires d.source == Default <==> top == {}
    requires d.source == FromRule <==> exists c :: classes == {c}
    requires d.source == Ambiguous <==> classes == {Work, Personal}
    requires d.source == FromRule ==> classes == {d.classification}
    requires d.source != FromRule ==> d.classification == Unclassified
    ensures (d.classification == Unclassified && d.source == Default) <==> forall r :: r !in top
    ensures (d.classification == Unclassified && d.source == Ambiguous) <==>
            exists a, b :: a in top && b in top && a.classification != b.classification
    ensures d.source == FromRule <==>
            (exists r :: r in top) && forall a, b :: a in top && b in top ==> a.classification == b.classification
    ensures d.source == FromRule ==> forall r :: r in top ==> r.classification == d.classification
  {
    if r :| r in top {
      assert r.classification in classes;
      if forall q :: q in top ==> q.classification == r.classification {
        assert classes == {r.classification};
      } else {
        var q :| q in top && q.classification != r.classification;
        assert q.classification in classes;
        assert classes == {Work, Personal};
        assert {Work, Personal} != {Work} && {Work, Personal} != {Personal} && Work in {Work, Personal};
      }
    } else {
      assert classes == {};
    }
  }

  // ---- Laws for lists of rules ----

  /** A claimant that outranks every claimant of another class decides. */
  lemma OutrankingDecides(l: Locale, slice: Slice, rules: seq<Rule>, a: Rule)
    requires Lawful(l) && slice.kind == EntitySlice
    requires forall r :: r in rules && r.enabled ==> Utf16Length(r.selectorValue) <= 500
    requires a in rules && Claims(l.text, slice, a)
    requires forall q :: q in rules && Claims(l.text, slice, q) && q.classification != a.classification ==>
             Outranks(l.text, a, q)
    ensures VerdictOf(Classify(l, slice, rules, None)) == Verdict(a.classification, FromRule)
  {
    hide *;
    LeadersDecide(l, slice, rules);
    forall r | Leads(l.text, slice, rules, r) ensures r.classification == a.classification {
      LeadsMeans(l.text, slice, rules, r);
    }
    SomeLeader(l, slice, rules, a);
  }

  lemma LeadsMeans(text: TextOps, slice: Slice, rules: seq<Rule>, r: Rule)
    requires Leads(text, slice, rules, r)
    ensures r in rules && Claims(text, slice, r)
    ensures forall q :: q in rules && Claims(text, slice, q) ==> !Outranks(text, q, r)
  {
    hide Claims, Outranks;
  }

  lemma SomeLeader(l: Locale, slice: Slice, rules: seq<Rule>, a: Rule)
    requires Lawful(l) && a in rules && Claims(l.text, slice, a)
    ensures exists r :: Leads(l.text, slice, rules, r)
  {
    hide *;
    ClaimsIs(l.text, slice, a);
    FirstPrecedesAll(l, slice, rules);
    FirstIsTop(l, slice, rules);
    var r :| r in Top(l.text, slice, rules);
    LeadsIs(l.text, slice, rules, r);
  }

  predicate IsMinor(t: SelectorType) {
    t == Machine || t == Editor || t == Application || t == DomainName
  }

  /**
   A greater priority decides against every kind of selector; at one priority entity rules decide against all others,
   folder rules against project rules and the rest, project rules against the rest, and exact rules against globs of
   their kind.
   */
  lemma PrecedenceDecides(l: Locale, slice: Slice, rules: seq<Rule>, a: Rule)
    requires Lawful(l) && slice.kind == EntitySlice
    requires forall r :: r in rules && r.enabled ==> Utf16Length(r.selectorValue) <= 500
    requires a in rules && Claims(l.text, slice, a)
    requires forall q :: q in rules && Claims(l.text, slice, q) && q.classification != a.classification ==>
               || q.priority < a.priority
               || (q.priority == a.priority
                   && match a.selectorType
                      case Entity =>
                          q.selectorType != SelectorType.Entity || (a.matchMode == Exact && q.matchMode == GlobMode)
                      case FolderPrefix =>
                        q.selectorType == SelectorType.Project || IsMinor(q.selectorType)
                        || (q.selectorType == FolderPrefix && a.matchMode == Exact && q.matchMode == GlobMode)
                      case Project =>
                        IsMinor(q.selectorType)
                        || (q.selectorType == SelectorType.Project && a.matchMode == Exact && q.matchMode == GlobMode)
                      case _ => IsMinor(q.selectorType) && a.matchMode == Exact && q.matchMode == GlobMode)
    ensures VerdictOf(Classify(l, slice, rules, None)) == Verdict(a.classification, FromRule)
  {
    hide Claims, Lawful, Classify, VerdictOf, LongerSelector;
    OutrankingDecides(l, slice, rules, a);
  }

  /**
   Exact machine, editor, application and domain rules of one priority tie, so they do not decide against each
   other.
   */
  lemma MinorKindsTie(l: Locale, slice: Slice, rules: seq<Rule>, a: Rule, b: Rule)
    requires Lawful(l) && slice.kind == EntitySlice
    requires forall r :: r in rules && r.enabled ==> Utf16Length(r.selectorValue) <= 500
    requires a in rules && b in rules && Claims(l.text, slice, a) && Claims(l.text, slice, b)
    requires IsMinor(a.selectorType) && IsMinor(b.selectorType) && a.matchMode == Exact && b.matchMode == Exact
    requires a.priority == b.priority && a.classification != b.classification
    requires forall q :: q in rules && Claims(l.text, slice, q) ==>
               q.priority < a.priority || (q.priority == a.priority && IsMinor(q.selectorType))
    ensures VerdictOf(Classify(l, slice, rules, None)) == Verdict(Unclassified, Ambiguous)
  {
    hide *;
    LeadersDecide(l, slice, rules);
    forall q | q in rules && Claims(l.text, slice, q) ensures !Outranks(l.text, q, a) && !Outranks(l.text, q, b) {
      MinorsTie(l.text, q, a);
      MinorsTie(l.text, q, b);
    }
    LeadsIf(l.text, slice, rules, a);
    LeadsIf(l.text, slice, rules, b);
  }

  lemma MinorsTie(text: TextOps, q: Rule, a: Rule)
    requires q.priority < a.priority || (q.priority == a.priority && IsMinor(q.selectorType))
    requires IsMinor(a.selectorType) && a.matchMode == Exact
    ensures !Outranks(text, q, a)
  {
    hide NormalizePath, Utf16Length, Compared, Compiled, LiteralChars;
  }

  lemma LeadsIf(text: TextOps, slice: Slice, rules: seq<Rule>, r: Rule)
    requires r in rules && Claims(text, slice, r)
    requires forall q :: q in rules && Claims(text, slice, q) ==> !Outranks(text, q, r)
    ensures Leads(text, slice, rules, r)
  {
    hide Claims, Outranks;
  }

  /** An allocation decides alone, and slices without entity detail are left to nobody. */
  lemma WithoutRules(l: Locale, slice: Slice, rules: seq<Rule>, override: Option<Class>)
    ensures override.Some? ==> VerdictOf(Classify(l, slice, rules, override)) == Verdict(override.value, FromOverride)
    ensures override.None? && slice.kind != EntitySlice ==>
            VerdictOf(Classify(l, slice, rules, override)) == Verdict(Unclassified, Default)
    ensures override.None? && slice.kind == EntitySlice ==>
            (VerdictOf(Classify(l, slice, rules, override)) == NoVerdict <==>
             exists r :: r in rules && r.enabled && Utf16Length(r.selectorValue) > 500)
  {
    if r :| r in rules && r.enabled && Utf16Length(r.selectorValue) > 500 {
      var i :| 0 <= i < |rules| && rules[i] == r;
    }
    hide Utf16Length, Decide;
  }

  // ---- Who is named ----

  /**
   Of two tying rules the one that was created first is named; the smaller id, then the smaller selector, breaks the
   tie.
   */
  ghost predicate NamedBefore(l: Locale, a: Rule, b: Rule) {
    || (a.createdAt != b.createdAt && l.collate(a.createdAt, b.createdAt))
    || (a.createdAt == b.createdAt && a.id != b.id && l.collate(a.id, b.id))
    || (a.createdAt == b.createdAt && a.id == b.id
       && (a.selectorValue == b.selectorValue || l.collate(a.selectorValue, b.selectorValue)))
  }

  /**
   The named winner is the first of the leading rules; the competing rules of an ambiguous slice are all of them, by
   id.
   */
  lemma NamesMean(l: Locale, slice: Slice, rules: seq<Rule>, d: Decision)
    requires Lawful(l) && slice.kind == EntitySlice && Classify(l, slice, rules, None) == Decided(d)
    ensures d.source == FromRule ==>
            exists w :: Leads(l.text, slice, rules, w) && d.winner == Some(w.id)
                        && forall r :: Leads(l.text, slice, rules, r) ==> NamedBefore(l, w, r)
    ensures d.source != FromRule ==> d.winner.None?
    ensures d.source == Ambiguous ==>
            && (forall id :: id in d.competing <==> exists r :: Leads(l.text, slice, rules, r) && r.id == id)
            && forall i, j :: 0 <= i < j < |d.competing| ==> l.ordinal(d.competing[i], d.competing[j])
    ensures d.source != Ambiguous ==> d.competing == []
  {
    hide *;
    forall r ensures Leads(l.text, slice, rules, r) <==> r in Top(l.text, slice, rules) {
      LeadsIs(l.text, slice, rules, r);
    }
    FirstIsTop(l, slice, rules);
    var sorted := Sort(Matching(l.text, slice, rules), RuleOrder(l));
    DecidedBy(l, slice, rules, d);
    if sorted != [] {
      DecideIs(l, sorted, Top(l.text, slice, rules));
      DecideNames(l, sorted);
      forall r | r in Top(l.text, slice, rules) ensures NamedBefore(l, sorted[0], r) { NamedIs(l, sorted[0], r); }
    }
  }

  lemma DecidedBy(l: Locale, slice: Slice, rules: seq<Rule>, d: Decision)
    requires slice.kind == EntitySlice && Classify(l, slice, rules, None) == Decided(d)
    ensures var sorted := Sort(Matching(l.text, slice, rules), RuleOrder(l));
            d == Decide(l, sorted) && (sorted == [] ==> d == Decision(Unclassified, Default, None, []))
  {
    hide AnyTooLong;
  }

  lemma DecideNames(l: Locale, sorted: seq<Rule>)
    requires Lawful(l) && sorted != []
    ensures var d := Decide(l, sorted);
            && (d.source == FromRule ==> d.winner == Some(sorted[0].id) && d.competing == [])
            && (d.source == Ambiguous ==>
                  d.winner.None?
                  && forall i, j :: 0 <= i < j < |d.competing| ==> l.ordinal(d.competing[i], d.competing[j]))
  {
    var tied := WithKey(l.text, sorted, KeyOf(l.text, sorted[0]));
    SortSorted(Ids(tied), l.ordinal);
    hide Sort, WithKey, KeyOf;
  }

  lemma NamedIs(l: Locale, a: Rule, b: Rule)
    ensures NamedBefore(l, a, b) <==> TieBefore(l, a, b)
  {
  }
}
