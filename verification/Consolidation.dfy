/**
 Bulk replacement of rules: the analysis that decides whether a manifest is safe,
 the transaction that applies it, and why a passed gate is enough for stable selectors.
 */
module Consolidation {
  import opened Options
  import opened Locales
  import opened Text
  import opened Orders
  import opened Classification
  import opened RuleInvariance
  import opened RulePreview

  datatype NewRule = NewRule(id: Option<string>, body: Body)
  datatype Manifest = Manifest(creates: seq<NewRule>, deletes: seq<string>)

  // ---- The analysis ----

  /** The created rules as the analysis builds them: selector values as written in the manifest. */
  function DraftRules(m: Manifest, draftId: nat -> string, stamp: nat -> string): seq<Rule> {
    seq(|m.creates|, i requires 0 <= i < |m.creates| =>
        RuleFrom(Or(m.creates[i].id, draftId(i)), m.creates[i].body, stamp(i)))
  }

  function Retained(rules: seq<Rule>, deletes: seq<string>): seq<Rule> {
    if rules == [] then [] else (if rules[0].id in deletes then [] else [rules[0]]) + Retained(rules[1..], deletes)
  }

  function AnalysedRules(rules: seq<Rule>, m: Manifest, draftId: nat -> string, stamp: nat -> string): seq<Rule> {
    Retained(rules, m.deletes) + DraftRules(m, draftId, stamp)
  }

  predicate Targets(rules: seq<Rule>, m: Manifest) {
    && (forall i | 0 <= i < |m.deletes| :: FindRule(rules, m.deletes[i]).Some?)
    && (forall i | 0 <= i < |m.creates| :: m.creates[i].id.Some? ==> FindRule(rules, m.creates[i].id.value).None?)
  }

  /** The decision of a slice; a slice of the unattributed project takes part only through its allocation. */
  function AnalysedDecision(l: Locale, rules: seq<Rule>, s: StoredSlice): Outcome {
    if s.isUnattributed then
      Decided(if s.allocation.Some? then Decision(s.allocation.value, FromOverride, None, []) else NO_DECISION)
    else Classify(l, s.slice, rules, OverrideOf(s))
  }

  datatype Movement = PolarityFlip | LostClass | AmbiguityMove

  /** The three movements that the safety gate forbids. */
  predicate Moves(kind: Movement, base: Verdict, proposed: Verdict) {
    base.Verdict? && proposed.Verdict?
    && match kind
       case PolarityFlip => (base.classification == Work && proposed.classification == Personal)
                            || (base.classification == Personal && proposed.classification == Work)
       case LostClass => base.classification != Unclassified && proposed.classification == Unclassified
       case AmbiguityMove => (base.source == Ambiguous) != (proposed.source == Ambiguous)
  }

  predicate SliceMoves(l: Locale, kind: Movement, s: StoredSlice, base: seq<Rule>, proposed: seq<Rule>) {
    Moves(kind, VerdictOf(AnalysedDecision(l, base, s)), VerdictOf(AnalysedDecision(l, proposed, s)))
  }

  ghost function CountMoves(l: Locale, kind: Movement, slices: seq<StoredSlice>, base: seq<Rule>,
                            proposed: seq<Rule>): nat {
    if slices == [] then 0
    else CountMoves(l, kind, slices[..|slices| - 1], base, proposed)
         + if SliceMoves(l, kind, slices[|slices| - 1], base, proposed) then 1 else 0
  }

  lemma {:induction false} NoneCounted(l: Locale, kind: Movement, slices: seq<StoredSlice>, base: seq<Rule>,
                                       proposed: seq<Rule>)
    ensures CountMoves(l, kind, slices, base, proposed) == 0 <==>
            forall i :: 0 <= i < |slices| ==> !SliceMoves(l, kind, slices[i], base, proposed)
  {
    hide SliceMoves;
    if slices != [] {
      var last := |slices| - 1;
      var init := slices[..last];
      NoneCounted(l, kind, init, base, proposed);
      if forall i :: 0 <= i < |init| ==> !SliceMoves(l, kind, init[i], base, proposed) {
        forall i | 0 <= i < last ensures !SliceMoves(l, kind, slices[i], base, proposed) {
          assert init[i] == slices[i];
        }
      } else {
        var i :| 0 <= i < |init| && SliceMoves(l, kind, init[i], base, proposed);
        assert slices[i] == init[i];
      }
    }
  }

  /** The slice makes none of the forbidden movements. */
  predicate Stays(l: Locale, s: StoredSlice, base: seq<Rule>, proposed: seq<Rule>) {
    && !SliceMoves(l, PolarityFlip, s, base, proposed)
    && !SliceMoves(l, LostClass, s, base, proposed)
    && !SliceMoves(l, AmbiguityMove, s, base, proposed)
  }

  datatype Report = Report(polarityFlips: nat, unclassifiedRegressions: nat, ambiguityTransitions: nat,
                           safetyGatePassed: bool)

  predicate Fails(l: Locale, slices: seq<StoredSlice>, base: seq<Rule>, proposed: seq<Rule>) {
    exists i | 0 <= i < |slices| ::
      AnalysedDecision(l, base, slices[i]) == PatternTooLong
          || AnalysedDecision(l, proposed, slices[i]) == PatternTooLong
  }

  /** The analysis runs through and finds none of the forbidden movements. */
  ghost predicate GatePasses(l: Locale, rules: seq<Rule>, slices: seq<StoredSlice>, m: Manifest,
                             draftId: nat -> string, stamp: nat -> string) {
    var proposed := AnalysedRules(rules, m, draftId, stamp);
    Targets(rules, m) && !Fails(l, slices, rules, proposed) && forall i :: 0 <= i < |slices| ==>
        Stays(l, slices[i], rules, proposed)
  }

  /** The loop of the analysis over all slices. */
  method CountMovements(l: Locale, slices: seq<StoredSlice>, base: seq<Rule>, proposed: seq<Rule>)
    returns (r: Option<Report>)
    ensures r.None? <==> Fails(l, slices, base, proposed)
    ensures r.Some? ==>
              && r.value.polarityFlips == CountMoves(l, PolarityFlip, slices, base, proposed)
              && r.value.unclassifiedRegressions == CountMoves(l, LostClass, slices, base, proposed)
              && r.value.ambiguityTransitions == CountMoves(l, AmbiguityMove, slices, base, proposed)
              && (r.value.safetyGatePassed <==> forall i :: 0 <= i < |slices| ==> Stays(l, slices[i], base, proposed))
  {
    hide AnalysedDecision, VerdictOf;
    var flips, lost, ambiguous := 0, 0, 0;
    assert slices[..0] == [];
    for i := 0 to |slices|
      invariant flips == CountMoves(l, PolarityFlip, slices[..i], base, proposed)
      invariant lost == CountMoves(l, LostClass, slices[..i], base, proposed)
      invariant ambiguous == CountMoves(l, AmbiguityMove, slices[..i], base, proposed)
      invariant forall j :: 0 <= j < i ==>
                AnalysedDecision(l, base, slices[j]) != PatternTooLong
                && AnalysedDecision(l, proposed, slices[j]) != PatternTooLong
    {
      assert slices[..i + 1][..i] == slices[..i];
      var b, p := AnalysedDecision(l, base, slices[i]), AnalysedDecision(l, proposed, slices[i]);
      if b.PatternTooLong? || p.PatternTooLong? { return None; }
      DecidedVerdicts(b, p);
      var bd, pd := b.decision, p.decision;
      if bd.classification != pd.classification {
        if (bd.classification == Work && pd.classification == Personal)
            || (bd.classification == Personal && pd.classification == Work) {
          flips := flips + 1;
        }
        if bd.classification != Unclassified && pd.classification == Unclassified {
          lost := lost + 1;
        }
      }
      if (bd.source == Ambiguous && pd.source != Ambiguous) || (bd.source != Ambiguous && pd.source == Ambiguous) {
        ambiguous := ambiguous + 1;
      }
    }
    assert slices[..|slices|] == slices;
    NoneCounted(l, PolarityFlip, slices, base, proposed);
    NoneCounted(l, LostClass, slices, base, proposed);
    NoneCounted(l, AmbiguityMove, slices, base, proposed);
    hide SliceMoves, CountMoves;
    r := Some(Report(flips, lost, ambiguous, flips == 0 && lost == 0 && ambiguous == 0));
  }

  lemma DecidedVerdicts(b: Outcome, p: Outcome)
    requires b.Decided? && p.Decided?
    ensures VerdictOf(b) == Verdict(b.decision.classification, b.decision.source)
    ensures VerdictOf(p) == Verdict(p.decision.classification, p.decision.source)
  {
  }

  /** runRuleConsolidationAnalysis: None stands for a thrown error. */
  method Analyse(l: Locale, rules: seq<Rule>, slices: seq<StoredSlice>, m: Manifest, draftId: nat -> string,
                 stamp: nat -> string)
    returns (r: Option<Report>)
    ensures r.None? <==> !Targets(rules, m) || Fails(l, slices, rules, AnalysedRules(rules, m, draftId, stamp))
    ensures var proposed := AnalysedRules(rules, m, draftId, stamp);
            r.Some? ==>
              && r.value.polarityFlips == CountMoves(l, PolarityFlip, slices, rules, proposed)
              && r.value.unclassifiedRegressions == CountMoves(l, LostClass, slices, rules, proposed)
              && r.value.ambiguityTransitions == CountMoves(l, AmbiguityMove, slices, rules, proposed)
    ensures r.Some? && r.value.safetyGatePassed <==> GatePasses(l, rules, slices, m, draftId, stamp)
  {
    hide AnalysedRules, Fails, Stays, CountMoves;
    if !Targets(rules, m) { return None; }
    r := CountMovements(l, slices, rules, AnalysedRules(rules, m, draftId, stamp));
  }

  // ---- The transaction ----

  function StoredRule(text: TextOps, n: NewRule, id: string, now: string): Option<Rule> {
    var value := StoredValue(text, n.body.selectorType, n.body.selectorValue);
    if value.None? then None else Some(RuleFrom(id, n.body.(selectorValue := value.value), now))
  }

  /** Inserts the created rules one by one; None where validation or the primary key refuses one. */
  function Inserted(text: TextOps, rows: seq<Rule>, creates: seq<NewRule>, ids: seq<string>,
                    now: string): Option<seq<Rule>>
    requires |ids| == |creates|
  {
    if creates == [] then Some(rows)
    else
      var last := |creates| - 1;
      var before := Inserted(text, rows, creates[..last], ids[..last], now);
      var rule := StoredRule(text, creates[last], ids[last], now);
      if before.None? || rule.None? || FindRule(before.value, ids[last]).Some? then None
      else Some(before.value + [rule.value])
  }

  function Deleted(rows: seq<Rule>, deletes: seq<string>): Option<seq<Rule>> {
    if deletes == [] then Some(rows)
    else
      var last := |deletes| - 1;
      var before := Deleted(rows, deletes[..last]);
      if before.None? || FindRule(before.value, deletes[last]).None? then None
          else Some(Without(before.value, deletes[last]))
  }

  function AssignedIds(m: Manifest, newId: nat -> string): seq<string> {
    seq(|m.creates|, i requires 0 <= i < |m.creates| => Or(m.creates[i].id, newId(i)))
  }

  function Applied(text: TextOps, rows: seq<Rule>, m: Manifest, ids: seq<string>, now: string): Option<seq<Rule>>
    requires |ids| == |m.creates|
  {
    var inserted := Inserted(text, rows, m.creates, ids, now);
    if inserted.None? then None else Deleted(inserted.value, m.deletes)
  }

  lemma {:induction false} InsertedFailsOnward(text: TextOps, rows: seq<Rule>, creates: seq<NewRule>,
                                               ids: seq<string>, now: string, i: nat)
    requires |ids| == |creates| && i <= |creates| && Inserted(text, rows, creates[..i], ids[..i], now).None?
    ensures Inserted(text, rows, creates, ids, now).None?
    decreases |creates|
  {
    hide StoredRule, FindRule;
    if i == |creates| {
      assert creates[..i] == creates && ids[..i] == ids;
    } else {
      var last := |creates| - 1;
      assert creates[..last][..i] == creates[..i] && ids[..last][..i] == ids[..i];
      InsertedFailsOnward(text, rows, creates[..last], ids[..last], now, i);
    }
  }

  lemma {:induction false} DeletedFailsOnward(rows: seq<Rule>, deletes: seq<string>, i: nat)
    requires i <= |deletes| && Deleted(rows, deletes[..i]).None?
    ensures Deleted(rows, deletes).None?
    decreases |deletes|
  {
    if i == |deletes| {
      assert deletes[..i] == deletes;
    } else {
      var last := |deletes| - 1;
      assert deletes[..last][..i] == deletes[..i];
      DeletedFailsOnward(rows, deletes[..last], i);
    }
  }

  /** consolidateRules: all rows change in one transaction or none does. */
  method ConsolidateRules(store: RuleStore, m: Manifest, newId: nat -> string, now: string) returns (committed: bool)
    modifies store
    ensures store.slices == old(store.slices)
    ensures committed <==> Applied(store.l.text, old(store.rules), m, AssignedIds(m, newId), now).Some?
    ensures committed ==> store.rules == Applied(store.l.text, old(store.rules), m, AssignedIds(m, newId), now).value
                          && store.revision == old(store.revision) + |m.creates| + |m.deletes|
    ensures !committed ==> store.rules == old(store.rules) && store.revision == old(store.revision)
  {
    hide *;
    var before, revision := store.rules, store.revision;
    var ids := AssignedIds(m, newId);
    AssignedLength(m, newId);
    AppliedIs(store.l.text, before, m, ids, now);
    committed := InsertAll(store, m.creates, ids, now);
    if committed {
      committed := DeleteAll(store, m.deletes);
    }
    if !committed {
      store.rules, store.revision := before, revision;
    }
  }

  lemma AssignedLength(m: Manifest, newId: nat -> string)
    ensures |AssignedIds(m, newId)| == |m.creates|
  {
  }

  lemma AppliedIs(text: TextOps, rows: seq<Rule>, m: Manifest, ids: seq<string>, now: string)
    requires |ids| == |m.creates|
    ensures var inserted := Inserted(text, rows, m.creates, ids, now);
            Applied(text, rows, m, ids, now) == if inserted.None? then None else Deleted(inserted.value, m.deletes)
  {
    hide Inserted, Deleted;
  }

  /** The creates of the transaction, in order; false when one is refused. */
  method InsertAll(store: RuleStore, creates: seq<NewRule>, ids: seq<string>, now: string) returns (ok: bool)
    requires |ids| == |creates|
    modifies store
    ensures store.slices == old(store.slices)
    ensures ok <==> Inserted(store.l.text, old(store.rules), creates, ids, now).Some?
    ensures ok ==> Inserted(store.l.text, old(store.rules), creates, ids, now) == Some(store.rules)
                   && store.revision == old(store.revision) + |creates|
  {
    hide StoredRule, FindRule;
    ghost var before := store.rules;
    assert creates[..0] == [] && ids[..0] == [];
    for i := 0 to |creates|
      invariant store.slices == old(store.slices) && store.revision == old(store.revision) + i
      invariant Inserted(store.l.text, before, creates[..i], ids[..i], now) == Some(store.rules)
    {
      var rule := StoredRule(store.l.text, creates[i], ids[i], now);
      assert creates[..i + 1][..i] == creates[..i] && ids[..i + 1][..i] == ids[..i];
      if rule.None? || FindRule(store.rules, ids[i]).Some? {
        InsertedFailsOnward(store.l.text, before, creates, ids, now, i + 1);
        return false;
      }
      store.rules := store.rules + [rule.value];
      store.revision := store.revision + 1;
    }
    assert creates[..|creates|] == creates && ids[..|ids|] == ids;
    ok := true;
  }

  /** The deletes of the transaction, in order; false when one finds no rule. */
  method DeleteAll(store: RuleStore, deletes: seq<string>) returns (ok: bool)
    modifies store
    ensures store.slices == old(store.slices)
    ensures ok <==> Deleted(old(store.rules), deletes).Some?
    ensures ok ==>
            Deleted(old(store.rules), deletes) == Some(store.rules) && store.revision == old(store.revision) + |deletes|
  {
    hide Without, FindRule;
    ghost var before := store.rules;
    assert deletes[..0] == [];
    for i := 0 to |deletes|
      invariant store.slices == old(store.slices) && store.revision == old(store.revision) + i
      invariant Deleted(before, deletes[..i]) == Some(store.rules)
    {
      assert deletes[..i + 1][..i] == deletes[..i];
      if FindRule(store.rules, deletes[i]).None? {
        DeletedFailsOnward(before, deletes, i + 1);
        return false;
      }
      store.rules := Without(store.rules, deletes[i]);
      store.revision := store.revision + 1;
    }
    assert deletes[..|deletes|] == deletes;
    ok := true;
  }

  // ---- Why the gate is enough ----

  /**
   The stored form of a selector means what the manifest's text means: it matches with the same pattern, the folder
   length that enters the key is the same, and neither is too long alone.
   */
  predicate StableSelector(text: TextOps, t: SelectorType, mode: MatchMode, value: string) {
    var stored := NormalizeSelector(text, t, value);
    && PatternOf(text, t, mode, stored) == PatternOf(text, t, mode, value)
    && (t == FolderPrefix && mode == Exact ==> FolderMeasure(text, stored) == FolderMeasure(text, value))
    && TooLong(stored) == TooLong(value)
  }

  /** Exactly the stable selectors keep their meaning when they are stored. */
  lemma StoredMeaning(text: TextOps, body: Body, id: string, id': string, now: string, now': string)
    ensures var stored := body.(selectorValue := NormalizeSelector(text, body.selectorType, body.selectorValue));
            MeaningOf(text, RuleFrom(id, body, now)) == MeaningOf(text, RuleFrom(id', stored, now')) <==>
            StableSelector(text, body.selectorType, body.matchMode, body.selectorValue)
  {
    hide NormalizeSelector, NormalizePath, TooLong;
  }

  /** Every enabled rule of the manifest has a stable selector. */
  predicate StableManifest(text: TextOps, m: Manifest) {
    forall i | 0 <= i < |m.creates| :: m.creates[i].body.enabled ==>
      StableSelector(text, m.creates[i].body.selectorType, m.creates[i].body.matchMode, m.creates[i].body.selectorValue)
  }

  lemma {:induction false} InsertedRows(text: TextOps, rows: seq<Rule>, creates: seq<NewRule>,
                                        ids: seq<string>, now: string)
    requires |ids| == |creates| && Inserted(text, rows, creates, ids, now).Some?
    ensures var all := Inserted(text, rows, creates, ids, now).value;
            |all| == |rows| + |creates| && all[..|rows|] == rows
            && forall i :: 0 <= i < |creates| ==> StoredRule(text, creates[i], ids[i], now) == Some(all[|rows| + i])
  {
    hide StoredRule, FindRule;
    if creates != [] {
      var last := |creates| - 1;
      var inits, initIds := creates[..last], ids[..last];
      InsertedRows(text, rows, inits, initIds, now);
      var before := Inserted(text, rows, inits, initIds, now).value;
      var all := Inserted(text, rows, creates, ids, now).value;
      var rule := StoredRule(text, creates[last], ids[last], now).value;
      assert all == before + [rule];
      hide Inserted;
      assert all[..|rows|] == before[..|rows|];
      forall i | 0 <= i < |creates| ensures StoredRule(text, creates[i], ids[i], now) == Some(all[|rows| + i]) {
        if i < last {
          assert inits[i] == creates[i] && initIds[i] == ids[i];
        }
      }
    }
  }

  lemma {:induction false} DeletedRows(rows: seq<Rule>, deletes: seq<string>)
    requires Deleted(rows, deletes).Some?
    ensures forall r :: r in Deleted(rows, deletes).value <==> r in rows && r.id !in deletes
  {
    if deletes != [] {
      var last := |deletes| - 1;
      DeletedRows(rows, deletes[..last]);
      WithoutMembers(Deleted(rows, deletes[..last]).value, deletes[last]);
      assert forall id :: id in deletes <==> id in deletes[..last] || id == deletes[last];
    }
  }

  lemma {:induction false} RetainedMembers(rules: seq<Rule>, deletes: seq<string>)
    ensures forall r :: r in Retained(rules, deletes) <==> r in rules && r.id !in deletes
  {
    if rules != [] { RetainedMembers(rules[1..], deletes); }
  }

  lemma {:induction false} FindRuleFinds(rules: seq<Rule>, id: string)
    ensures FindRule(rules, id).Some? <==> exists r :: r in rules && r.id == id
  {
    if rules != [] { FindRuleFinds(rules[1..], id); }
  }

  lemma InsertedLast(text: TextOps, rows: seq<Rule>, creates: seq<NewRule>, ids: seq<string>, now: string)
    requires |ids| == |creates| && Inserted(text, rows, creates, ids, now).Some? && creates != []
    ensures var last := |creates| - 1;
            var before := Inserted(text, rows, creates[..last], ids[..last], now);
            before.Some? && FindRule(before.value, ids[last]).None?
  {
    hide StoredRule, FindRule;
  }

  lemma PrefixMembers(rows: seq<Rule>, more: seq<Rule>, id: string)
    requires |rows| <= |more| && more[..|rows|] == rows && FindRule(more, id).None?
    ensures FindRule(rows, id).None?
  {
    FindRuleFinds(more, id);
    FindRuleFinds(rows, id);
    hide FindRule;
    forall r | r in rows ensures r in more {
      var k :| 0 <= k < |rows| && rows[k] == r;
      assert more[..|rows|][k] == r;
    }
  }

  /** No created row is among the deleted ids: those exist beforehand, and the primary key refuses existing ids. */
  lemma {:induction false} NewIdsAreNew(text: TextOps, rows: seq<Rule>, creates: seq<NewRule>, ids: seq<string>,
                                        now: string, i: nat)
    requires |ids| == |creates| && Inserted(text, rows, creates, ids, now).Some? && i < |creates|
    ensures FindRule(rows, ids[i]).None?
  {
    hide *;
    var last := |creates| - 1;
    InsertedLast(text, rows, creates, ids, now);
    if i < last {
      assert ids[..last][i] == ids[i];
      NewIdsAreNew(text, rows, creates[..last], ids[..last], now, i);
    } else {
      InsertedRows(text, rows, creates[..last], ids[..last], now);
      PrefixMembers(rows, Inserted(text, rows, creates[..last], ids[..last], now).value, ids[last]);
    }
  }

  /** The rows after the transaction, described without its steps. */
  lemma AppliedRows(text: TextOps, rows: seq<Rule>, m: Manifest, ids: seq<string>, now: string)
    requires |ids| == |m.creates| && Applied(text, rows, m, ids, now).Some? && Targets(rows, m)
    ensures forall r :: r in Applied(text, rows, m, ids, now).value <==>
                        (r in rows && r.id !in m.deletes) || exists i ::
                            0 <= i < |m.creates| && StoredRule(text, m.creates[i], ids[i], now) == Some(r)
  {
    var inserted := Inserted(text, rows, m.creates, ids, now).value;
    InsertedRows(text, rows, m.creates, ids, now);
    DeletedRows(inserted, m.deletes);
    forall i | 0 <= i < |m.creates| ensures ids[i] !in m.deletes {
      NewIdsAreNew(text, rows, m.creates, ids, now, i);
    }
    hide Inserted, Deleted, FindRule;
    assert forall i :: 0 <= i < |m.creates| ==> inserted[|rows| + i].id == ids[i];
    hide StoredRule;
    forall r ensures r in inserted <==> r in rows || exists i ::
        0 <= i < |m.creates| && StoredRule(text, m.creates[i], ids[i], now) == Some(r) {
      if r in rows {
        var k :| 0 <= k < |rows| && rows[k] == r;
        assert inserted[..|rows|][k] == r;
      }
      if r in inserted {
        var k :| 0 <= k < |inserted| && inserted[k] == r;
        if k < |rows| {
          assert inserted[..|rows|][k] == r;
        } else {
          assert StoredRule(text, m.creates[k - |rows|], ids[k - |rows|], now) == Some(r);
        }
      }
    }
  }

  /** Each created rule means the same in the analysis and in the table. */
  lemma DraftMeaning(text: TextOps, rows: seq<Rule>, m: Manifest, ids: seq<string>, now: string,
                     draftId: nat -> string, stamp: nat -> string, i: nat)
    requires |ids| == |m.creates| && Applied(text, rows, m, ids, now).Some? && StableManifest(text, m)
             && i < |m.creates|
    requires m.creates[i].body.enabled
    ensures StoredRule(text, m.creates[i], ids[i], now).Some?
    ensures MeaningOf(text, DraftRules(m, draftId, stamp)[i])
            == MeaningOf(text, StoredRule(text, m.creates[i], ids[i], now).value)
  {
    InsertedRows(text, rows, m.creates, ids, now);
    StoredMeaning(text, m.creates[i].body, Or(m.creates[i].id, draftId(i)), ids[i], stamp(i), now);
    hide Inserted, Deleted, MeaningOf, StableSelector, NormalizeSelector, TooLong, Trim;
  }

  lemma SameMeanings(text: TextOps, rows: seq<Rule>, m: Manifest, ids: seq<string>, now: string,
                     draftId: nat -> string, stamp: nat -> string)
    requires |ids| == |m.creates| && Applied(text, rows, m, ids, now).Some? && Targets(rows, m)
             && StableManifest(text, m)
    ensures Meanings(text, AnalysedRules(rows, m, draftId, stamp))
            == Meanings(text, Applied(text, rows, m, ids, now).value)
  {
    var analysed, applied := AnalysedRules(rows, m, draftId, stamp), Applied(text, rows, m, ids, now).value;
    var drafts := DraftRules(m, draftId, stamp);
    assert |drafts| == |m.creates|;
    assert forall r :: r in analysed <==> r in Retained(rows, m.deletes) || r in drafts;
    AppliedRows(text, rows, m, ids, now);
    RetainedMembers(rows, m.deletes);
    StoredKeepsEnabled(text, m, ids, now, draftId, stamp);
    hide Applied, AnalysedRules, MeaningOf, StoredRule, StableManifest, Targets, DraftRules, Retained;
    forall r | r in analysed && r.enabled ensures MeaningOf(text, r) in Meanings(text, applied) {
      if r in drafts {
        var i :| 0 <= i < |drafts| && drafts[i] == r;
        DraftMeaning(text, rows, m, ids, now, draftId, stamp, i);
        assert StoredRule(text, m.creates[i], ids[i], now).value in applied;
      }
    }
    forall r | r in applied && r.enabled ensures MeaningOf(text, r) in Meanings(text, analysed) {
      if !(r in rows && r.id !in m.deletes) {
        var i :| 0 <= i < |m.creates| && StoredRule(text, m.creates[i], ids[i], now) == Some(r);
        DraftMeaning(text, rows, m, ids, now, draftId, stamp, i);
        assert drafts[i] in drafts;
      }
    }
  }

  lemma StoredKeepsEnabled(text: TextOps, m: Manifest, ids: seq<string>, now: string, draftId: nat -> string,
                           stamp: nat -> string)
    requires |ids| == |m.creates|
    ensures forall i :: 0 <= i < |m.creates| ==>
              DraftRules(m, draftId, stamp)[i].enabled == m.creates[i].body.enabled
              && (StoredRule(text, m.creates[i], ids[i], now).Some? ==>
                    StoredRule(text, m.creates[i], ids[i], now).value.enabled == m.creates[i].body.enabled)
  {
    forall i | 0 <= i < |m.creates|
      ensures DraftRules(m, draftId, stamp)[i].enabled == m.creates[i].body.enabled
      ensures StoredRule(text, m.creates[i], ids[i], now).Some? ==>
                StoredRule(text, m.creates[i], ids[i], now).value.enabled == m.creates[i].body.enabled
    {
      hide StoredValue;
      var drafts := DraftRules(m, draftId, stamp);
      assert drafts[i] == RuleFrom(Or(m.creates[i].id, draftId(i)), m.creates[i].body, stamp(i));
    }
  }

  /** A classified slice keeps its class, and none moves into or out of ambiguity. */
  ghost predicate KeepsDecision(l: Locale, before: seq<Rule>, after: seq<Rule>, s: StoredSlice) {
    var base := VerdictOf(Classify(l, s.slice, Listed(l, before), OverrideOf(s)));
    var applied := VerdictOf(Classify(l, s.slice, Listed(l, after), OverrideOf(s)));
    && base.Verdict? && applied.Verdict?
    && (base.classification != Unclassified ==> applied.classification == base.classification)
    && (base.source == Ambiguous <==> applied.source == Ambiguous)
  }

  /**
   If the safety gate passed and the manifest's selectors are stable, applying it keeps the decision of every slice.
   */
  lemma GateIsEnough(l: Locale, rows: seq<Rule>, slices: seq<StoredSlice>, m: Manifest, ids: seq<string>, now: string,
                     draftId: nat -> string, stamp: nat -> string, i: nat)
    requires Lawful(l) && |ids| == |m.creates| && i < |slices| && !slices[i].isUnattributed
    requires GatePasses(l, rows, slices, m, draftId, stamp) && StableManifest(l.text, m)
             && Applied(l.text, rows, m, ids, now).Some?
    ensures KeepsDecision(l, rows, Applied(l.text, rows, m, ids, now).value, slices[i])
  {
    var s := slices[i];
    var applied := Applied(l.text, rows, m, ids, now).value;
    var analysed := AnalysedRules(rows, m, draftId, stamp);
    SameMeanings(l.text, rows, m, ids, now, draftId, stamp);
    ListedMeanings(l, rows);
    ListedMeanings(l, applied);
    assert AnalysedDecision(l, rows, s).Decided? && AnalysedDecision(l, analysed, s).Decided?;
    assert Stays(l, s, rows, analysed);
    hide Applied, AnalysedRules, Meanings, Listed, StableManifest, Targets, Classify, Fails, Lawful;
    OrderAndTimeIrrelevant(l, s.slice, rows, Listed(l, rows), OverrideOf(s));
    OrderAndTimeIrrelevant(l, s.slice, analysed, Listed(l, applied), OverrideOf(s));
  }

  lemma ListedMeanings(l: Locale, rows: seq<Rule>)
    ensures Meanings(l.text, Listed(l, rows)) == Meanings(l.text, rows)
  {
    SortMembers(rows, SqlOrder(l));
    hide MeaningOf;
  }
}
