/**
 What the consolidation analyses, forbids and commits, said of the rules of the manifest and the classes of the
 slices.
 */
module ConsolidationFacts {
  import opened Options
  import opened Locales
  import opened Text
  import opened Classification
  import opened RuleInvariance
  import opened RulePreview
  import opened RuleChanges
  import opened PreviewFacts
  import opened Consolidation

  // ---- The rules that are analysed and those that are stored ----

  ghost predicate HasId(rules: seq<Rule>, id: string) {
    exists r :: r in rules && r.id == id
  }

  lemma HasIdIs(rules: seq<Rule>, id: string)
    ensures HasId(rules, id) <==> FindRule(rules, id).Some?
  {
    FindRuleMeans(rules, id);
    hide FindRule;
  }

  /** The analysis refuses deletes of rules that do not exist and creates whose id does. */
  lemma TargetsMean(rules: seq<Rule>, m: Manifest)
    ensures Targets(rules, m) <==>
            && (forall id :: id in m.deletes ==> HasId(rules, id))
            && (forall n :: n in m.creates && n.id.Some? ==> !HasId(rules, n.id.value))
  {
    forall id ensures HasId(rules, id) <==> FindRule(rules, id).Some? { HasIdIs(rules, id); }
    hide FindRule, HasId;
    if Targets(rules, m) {
      forall id | id in m.deletes ensures HasId(rules, id) {
        var i :| 0 <= i < |m.deletes| && m.deletes[i] == id;
      }
      forall n | n in m.creates && n.id.Some? ensures !HasId(rules, n.id.value) {
        var i :| 0 <= i < |m.creates| && m.creates[i] == n;
      }
    }
  }

  /** The analysed rules: those not deleted, and each created one as it is written, under its own id or a draft id. */
  lemma AnalysedMean(rules: seq<Rule>, m: Manifest, draftId: nat -> string, stamp: nat -> string)
    ensures forall r :: r in AnalysedRules(rules, m, draftId, stamp) <==>
              || (r in rules && r.id !in m.deletes)
              || exists i :: 0 <= i < |m.creates| && Carries(r, m.creates[i].body) && r.createdAt == stamp(i)
                             && r.id == if m.creates[i].id.Some? then m.creates[i].id.value else draftId(i)
  {
    RetainedMembers(rules, m.deletes);
    hide Retained;
    var drafts := DraftRules(m, draftId, stamp);
    forall r
      ensures r in drafts <==>
              exists i :: 0 <= i < |m.creates| && Carries(r, m.creates[i].body) && r.createdAt == stamp(i)
                          && r.id == if m.creates[i].id.Some? then m.creates[i].id.value else draftId(i)
    {
      if i :| 0 <= i < |m.creates| && Carries(r, m.creates[i].body) && r.createdAt == stamp(i)
              && r.id == if m.creates[i].id.Some? then m.creates[i].id.value else draftId(i) {
        assert drafts[i] == r;
      }
      if r in drafts {
        var i :| 0 <= i < |drafts| && drafts[i] == r;
        assert r == RuleFrom(Or(m.creates[i].id, draftId(i)), m.creates[i].body, stamp(i));
      }
    }
  }

  /** A created rule as it is stored: the fields of the manifest, the selector in normal form, the present time. */
  ghost predicate Creates(text: TextOps, n: NewRule, id: string, now: string, r: Rule) {
    && r.id == id && r.createdAt == now
    && Stores(text, n.body.selectorType, n.body.selectorValue, Some(r.selectorValue))
    && r.classification == n.body.classification && r.selectorType == n.body.selectorType
    && r.matchMode == n.body.matchMode && r.priority == n.body.priority && r.enabled == n.body.enabled
  }

  lemma CreatesIs(text: TextOps, n: NewRule, id: string, now: string, r: Rule)
    ensures StoredRule(text, n, id, now) == Some(r) <==> Creates(text, n, id, now, r)
    ensures StoredRule(text, n, id, now).None? <==> Stores(text, n.body.selectorType, n.body.selectorValue, None)
  {
    StoresIs(text, n.body.selectorType, n.body.selectorValue);
    hide StoredValue;
  }

  /** The table after the transaction of an analysed manifest: the rules not deleted, and the created ones as stored. */
  lemma AppliedMean(text: TextOps, rows: seq<Rule>, m: Manifest, newId: nat -> string, now: string)
    requires Targets(rows, m) && Applied(text, rows, m, AssignedIds(m, newId), now).Some?
    ensures forall r :: r in Applied(text, rows, m, AssignedIds(m, newId), now).value <==>
              || (r in rows && r.id !in m.deletes)
              || exists i :: 0 <= i < |m.creates|
                   && Creates(text, m.creates[i], IdOf(m, newId, i), now, r)
  {
    var ids := AssignedIds(m, newId);
    AppliedRows(text, rows, m, ids, now);
    forall i | 0 <= i < |m.creates| ensures ids[i] == IdOf(m, newId, i) { AssignedAt(m, newId, i); }
    forall n, id, r ensures StoredRule(text, n, id, now) == Some(r) <==> Creates(text, n, id, now, r) {
      CreatesIs(text, n, id, now, r);
    }
    hide Applied, StoredRule, Creates, Targets, AssignedIds, IdOf;
  }

  /** The id given in the manifest, or a new one. */
  ghost function IdOf(m: Manifest, newId: nat -> string, i: nat): string
    requires i < |m.creates|
  {
    if m.creates[i].id.Some? then m.creates[i].id.value else newId(i)
  }

  lemma AssignedAt(m: Manifest, newId: nat -> string, i: nat)
    requires i < |m.creates|
    ensures |AssignedIds(m, newId)| == |m.creates| && AssignedIds(m, newId)[i] == IdOf(m, newId, i)
  {
    assert AssignedIds(m, newId)[i] == Or(m.creates[i].id, newId(i));
  }

  // ---- When the transaction goes through ----

  ghost predicate Differ(ids: seq<string>) {
    forall i, j :: 0 <= i < j < |ids| ==> ids[i] != ids[j]
  }

  /** Every created rule can be stored, under an id that is neither taken nor used twice. */
  ghost predicate Insertable(text: TextOps, rows: seq<Rule>, creates: seq<NewRule>, ids: seq<string>)
    requires |ids| == |creates|
  {
    && Differ(ids)
    && forall i :: 0 <= i < |creates| ==>
         !HasId(rows, ids[i]) && !Stores(text, creates[i].body.selectorType, creates[i].body.selectorValue, None)
  }

  lemma InsertedIds(text: TextOps, rows: seq<Rule>, creates: seq<NewRule>, ids: seq<string>, now: string, id: string)
    requires |ids| == |creates| && Inserted(text, rows, creates, ids, now).Some?
    ensures HasId(Inserted(text, rows, creates, ids, now).value, id) <==> HasId(rows, id) || id in ids
  {
    InsertedRows(text, rows, creates, ids, now);
    var all := Inserted(text, rows, creates, ids, now).value;
    hide Inserted;
    assert forall i :: 0 <= i < |creates| ==> all[|rows| + i].id == ids[i] by { hide StoredValue; }
    hide StoredRule;
    if r :| r in rows && r.id == id {
      var k :| 0 <= k < |rows| && rows[k] == r;
      assert all[..|rows|][k] == all[k] && all[k] in all;
    }
    if id in ids {
      var i :| 0 <= i < |ids| && ids[i] == id;
      assert all[|rows| + i] in all;
    }
    if r :| r in all && r.id == id {
      var k :| 0 <= k < |all| && all[k] == r;
      if k < |rows| { assert all[..|rows|][k] == r; } else { assert ids[k - |rows|] == id; }
    }
  }

  lemma {:induction false} InsertedMeans(text: TextOps, rows: seq<Rule>, creates: seq<NewRule>,
                                         ids: seq<string>, now: string)
    requires |ids| == |creates|
    ensures Inserted(text, rows, creates, ids, now).Some? <==> Insertable(text, rows, creates, ids)
  {
    if creates != [] {
      var n := |creates| - 1;
      InsertedMeans(text, rows, creates[..n], ids[..n], now);
      InsertableStep(text, rows, creates, ids);
      var before := Inserted(text, rows, creates[..n], ids[..n], now);
      if before.Some? {
        InsertedIds(text, rows, creates[..n], ids[..n], now, ids[n]);
        HasIdIs(before.value, ids[n]);
      }
      var rule := StoredRule(text, creates[n], ids[n], now);
      assert rule.None? <==> Stores(text, creates[n].body.selectorType, creates[n].body.selectorValue, None) by {
        CreatesIs(text, creates[n], ids[n], now,
                  if rule.Some? then rule.value else RuleFrom(ids[n], creates[n].body, now));
      }
      hide Insertable, StoredRule, FindRule, HasId, Stores;
    }
  }

  lemma InsertableStep(text: TextOps, rows: seq<Rule>, creates: seq<NewRule>, ids: seq<string>)
    requires |ids| == |creates| && creates != []
    ensures var n := |creates| - 1;
            Insertable(text, rows, creates, ids) <==>
            Insertable(text, rows, creates[..n], ids[..n]) && ids[n] !in ids[..n] && !HasId(rows, ids[n])
            && !Stores(text, creates[n].body.selectorType, creates[n].body.selectorValue, None)
  {
    var n := |creates| - 1;
    hide HasId, Stores;
    var inits, initIds := creates[..n], ids[..n];
    assert forall i :: 0 <= i < n ==> inits[i] == creates[i] && initIds[i] == ids[i];
  }

  lemma {:induction false} DeletedMeans(rows: seq<Rule>, deletes: seq<string>)
    ensures Deleted(rows, deletes).Some? <==> Differ(deletes) && forall id :: id in deletes ==> HasId(rows, id)
  {
    if deletes != [] {
      var n := |deletes| - 1;
      DeletedMeans(rows, deletes[..n]);
      DifferStep(deletes);
      var before := Deleted(rows, deletes[..n]);
      if before.Some? {
        DeletedRows(rows, deletes[..n]);
        HasIdIs(before.value, deletes[n]);
        assert HasId(before.value, deletes[n]) <==> HasId(rows, deletes[n]) && deletes[n] !in deletes[..n];
      }
      assert deletes == deletes[..n] + [deletes[n]];
      hide FindRule, Without, Differ;
    }
  }

  lemma DifferStep(ids: seq<string>)
    requires ids != []
    ensures var n := |ids| - 1; Differ(ids) <==> Differ(ids[..n]) && ids[n] !in ids[..n]
  {
    var n := |ids| - 1;
    var init := ids[..n];
    assert forall i :: 0 <= i < n ==> init[i] == ids[i];
  }

  /**
   The transaction commits exactly when every created rule can be stored, its id is new and used once, and every
   deleted id is listed once and exists, be it as a rule created by the same manifest.
   */
  lemma CommitsIff(text: TextOps, rows: seq<Rule>, m: Manifest, newId: nat -> string, now: string)
    ensures var ids := AssignedIds(m, newId);
            Applied(text, rows, m, ids, now).Some? <==>
            && Insertable(text, rows, m.creates, ids) && Differ(m.deletes)
            && forall id :: id in m.deletes ==> HasId(rows, id) || id in ids
  {
    var ids := AssignedIds(m, newId);
    InsertedMeans(text, rows, m.creates, ids, now);
    var inserted := Inserted(text, rows, m.creates, ids, now);
    if inserted.Some? {
      DeletedMeans(inserted.value, m.deletes);
      forall id ensures HasId(inserted.value, id) <==> HasId(rows, id) || id in ids {
        InsertedIds(text, rows, m.creates, ids, now, id);
      }
    }
    hide Inserted, Deleted, Insertable, Differ, HasId;
  }

  // ---- The gate ----

  /** A slice of the unattributed project is decided by its allocation alone, any other one as everywhere. */
  lemma AnalysedDecisionMeans(l: Locale, rules: seq<Rule>, s: StoredSlice)
    ensures !s.isUnattributed ==> AnalysedDecision(l, rules, s) == Classify(l, s.slice, rules, s.allocation)
    ensures s.isUnattributed ==>
            VerdictOf(AnalysedDecision(l, rules, s)) ==
            match s.allocation case Some(c) => Verdict(c, FromOverride) case None => Verdict(Unclassified, Default)
  {
    hide Classify;
  }

  /** What was classified keeps its class, and disputed slices are the same before and after. */
  ghost predicate Kept(b: Verdict, p: Verdict) {
    && b.Verdict? && p.Verdict?
    && (b.classification == Unclassified || p.classification == b.classification)
    && (b.source == Ambiguous <==> p.source == Ambiguous)
  }

  /** The gate is open exactly when the targets are right and every slice is decided before and after, and kept. */
  lemma GateMeans(l: Locale, rules: seq<Rule>, slices: seq<StoredSlice>, m: Manifest, draftId: nat -> string,
                  stamp: nat -> string)
    ensures GatePasses(l, rules, slices, m, draftId, stamp) <==>
            && Targets(rules, m)
            && forall s :: s in slices ==>
                 Kept(VerdictOf(AnalysedDecision(l, rules, s)),
                      VerdictOf(AnalysedDecision(l, AnalysedRules(rules, m, draftId, stamp), s)))
  {
    var proposed := AnalysedRules(rules, m, draftId, stamp);
    forall s ensures Allowed(l, s, rules, proposed) <==>
                     Kept(VerdictOf(AnalysedDecision(l, rules, s)), VerdictOf(AnalysedDecision(l, proposed, s))) {
      AllowedIs(l, s, rules, proposed);
    }
    FailsMeans(l, slices, rules, proposed);
    hide Stays, AnalysedDecision, AnalysedRules, VerdictOf, Kept, Targets, Fails;
    if forall i :: 0 <= i < |slices| ==> Allowed(l, slices[i], rules, proposed) {
      forall s | s in slices ensures Allowed(l, s, rules, proposed) {
        var i :| 0 <= i < |slices| && slices[i] == s;
      }
    }
  }

  ghost predicate Allowed(l: Locale, s: StoredSlice, base: seq<Rule>, proposed: seq<Rule>) {
    AnalysedDecision(l, base, s) != PatternTooLong && AnalysedDecision(l, proposed, s) != PatternTooLong
    && Stays(l, s, base, proposed)
  }

  lemma AllowedIs(l: Locale, s: StoredSlice, base: seq<Rule>, proposed: seq<Rule>)
    ensures Allowed(l, s, base, proposed) <==>
            Kept(VerdictOf(AnalysedDecision(l, base, s)), VerdictOf(AnalysedDecision(l, proposed, s)))
  {
    hide AnalysedDecision;
  }

  lemma FailsMeans(l: Locale, slices: seq<StoredSlice>, base: seq<Rule>, proposed: seq<Rule>)
    ensures Fails(l, slices, base, proposed) <==>
            exists i :: 0 <= i < |slices|
                        && (AnalysedDecision(l, base, slices[i]) == PatternTooLong
                            || AnalysedDecision(l, proposed, slices[i]) == PatternTooLong)
  {
    hide AnalysedDecision;
  }

  // ---- The counters ----

  /** The class under the rules, or none when a pattern is too long. */
  ghost function ClassUnder(l: Locale, rules: seq<Rule>, s: StoredSlice): Option<Class> {
    match VerdictOf(AnalysedDecision(l, rules, s)) case Verdict(c, _) => Some(c) case NoVerdict => None
  }

  ghost predicate Opposite(a: Option<Class>, b: Option<Class>) {
    (a == Some(Work) && b == Some(Personal)) || (a == Some(Personal) && b == Some(Work))
  }

  ghost predicate DisputedUnder(l: Locale, rules: seq<Rule>, s: StoredSlice) {
    var v := VerdictOf(AnalysedDecision(l, rules, s));
    v.Verdict? && v.source == Ambiguous
  }

  lemma {:induction false} MovesAre(l: Locale, kind: Movement, slices: seq<StoredSlice>, base: seq<Rule>,
                                    proposed: seq<Rule>, p: StoredSlice -> bool)
    requires forall s :: s in slices ==> (p(s) <==> SliceMoves(l, kind, s, base, proposed))
    ensures CountMoves(l, kind, slices, base, proposed) == HowMany(slices, p)
  {
    if slices != [] {
      assert slices == slices[..|slices| - 1] + [slices[|slices| - 1]];
      MovesAre(l, kind, slices[..|slices| - 1], base, proposed, p);
      hide SliceMoves;
    }
  }

  /**
   The counters of the analysis: classes that turn into their opposite, classes that are lost, disputes begun or
   ended.
   */
  lemma CountersMean(l: Locale, slices: seq<StoredSlice>, base: seq<Rule>, proposed: seq<Rule>)
    requires !Fails(l, slices, base, proposed)
    ensures CountMoves(l, PolarityFlip, slices, base, proposed)
            == HowMany(slices, s => Opposite(ClassUnder(l, base, s), ClassUnder(l, proposed, s)))
    ensures CountMoves(l, LostClass, slices, base, proposed)
            == HowMany(slices, s => ClassUnder(l, base, s) in {Some(Work), Some(Personal)}
                                    && ClassUnder(l, proposed, s) == Some(Unclassified))
    ensures CountMoves(l, AmbiguityMove, slices, base, proposed)
            == HowMany(slices, s => DisputedUnder(l, base, s) != DisputedUnder(l, proposed, s))
  {
    FailsMeans(l, slices, base, proposed);
    hide AnalysedDecision, Fails;
    MovesAre(l, PolarityFlip, slices, base, proposed,
             s => Opposite(ClassUnder(l, base, s), ClassUnder(l, proposed, s)));
    MovesAre(l, LostClass, slices, base, proposed,
             s => ClassUnder(l, base, s) in {Some(Work), Some(Personal)}
                  && ClassUnder(l, proposed, s) == Some(Unclassified));
    MovesAre(l, AmbiguityMove, slices, base, proposed, s => DisputedUnder(l, base, s) != DisputedUnder(l, proposed, s));
  }
}
