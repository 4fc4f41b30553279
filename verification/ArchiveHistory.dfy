/** Versions, allocations, contents, detail and evidence of a date along runs of reconciliations. */
module ArchiveHistory {
  import opened Options
  import opened Text
  import opened Orders
  import opened SummaryDay
  import opened ArchiveModel
  import opened Reconcile
  import opened ReconcileFacts
  import opened ReconcileRuns

  // ---- Versions ----

  /** How many calls of a run updated a date. */
  function Updates(text: TextOps, s: State, calls: seq<Call>, date: string): nat {
    if calls == [] then 0
    else
      Updates(text, s, calls[..|calls| - 1], date)
      + if calls[|calls| - 1].c.date == date && IsUpdate(OutcomeOf(text, s, calls, |calls| - 1)) then 1 else 0
  }

  lemma OneCallVersion(text: TextOps, s: State, c: Candidate, o: CallOptions, date: string)
    ensures var (after, r) := After(text, s, c, o);
            Version(DayAt(after, date)) == Version(DayAt(s, date)) + if c.date == date && IsUpdate(r) then 1 else 0
  {
    if date != c.date {
      OtherDatesStay(text, s, c, o, date);
    } else if IsUpdate(After(text, s, c, o).1) {
      var day, w := Update(text, s, c, o);
    } else {
      OnlyUpdatesChangeData(text, s, c, o);
      assert DataOf(DayAt(After(text, s, c, o).0, date)) == DataOf(DayAt(s, date));
    }
    hide After, DayAt, Version;
  }

  /** The version of a date counts the updates. */
  lemma {:induction false} VersionCountsUpdates(text: TextOps, s: State, calls: seq<Call>, date: string)
    ensures Version(DayAt(StateAfter(text, s, calls), date)) == Version(DayAt(s, date)) + Updates(text, s, calls, date)
  {
    if calls != [] {
      var n := |calls| - 1;
      VersionCountsUpdates(text, s, calls[..n], date);
      OneCallVersion(text, StateAfter(text, s, calls[..n]), calls[n].c, calls[n].o, date);
      hide After, DayAt, Version, IsUpdate;
    }
  }

  lemma {:induction false} UpdatesGrow(text: TextOps, s: State, calls: seq<Call>, date: string, m: nat)
    requires m <= |calls|
    ensures Updates(text, s, calls[..m], date) <= Updates(text, s, calls, date)
    decreases |calls|
  {
    if m == |calls| {
      assert calls[..m] == calls;
    } else {
      var n := |calls| - 1;
      assert calls[..n][..m] == calls[..m];
      UpdatesGrow(text, s, calls[..n], date, m);
      hide After, IsUpdate;
    }
  }

  lemma ExpectedWasMet(text: TextOps, s: State, c: Candidate, o: CallOptions)
    requires IsUpdate(After(text, s, c, o).1) && o.expected.Some?
    ensures Version(DayAt(s, c.date)) == o.expected.value
  {
    var day, w := Update(text, s, c, o);
    hide After, DayAt, Version;
  }

  lemma UpdateCounts(text: TextOps, s: State, calls: seq<Call>, i: nat)
    requires i < |calls| && IsUpdate(OutcomeOf(text, s, calls, i))
    ensures Updates(text, s, calls[..i + 1], calls[i].c.date) == Updates(text, s, calls[..i], calls[i].c.date) + 1
  {
    assert calls[..i + 1][..i] == calls[..i];
    hide After, IsUpdate, StateAfter;
  }

  /** At most one update per date and expected version, anywhere in a run. */
  lemma OneUpdatePerVersion(text: TextOps, s: State, calls: seq<Call>, i: nat, j: nat)
    requires i < j < |calls| && calls[i].c.date == calls[j].c.date
    requires calls[i].o.expected.Some? && calls[i].o.expected == calls[j].o.expected
    requires IsUpdate(OutcomeOf(text, s, calls, i))
    ensures !IsUpdate(OutcomeOf(text, s, calls, j))
  {
    var date := calls[i].c.date;
    hide After, DayAt, Version, IsUpdate, StateAfter;
    ExpectedWasMet(text, StateAfter(text, s, calls[..i]), calls[i].c, calls[i].o);
    UpdateCounts(text, s, calls, i);
    VersionCountsUpdates(text, s, calls[..i], date);
    VersionCountsUpdates(text, s, calls[..j], date);
    assert calls[..j][..i + 1] == calls[..i + 1];
    UpdatesGrow(text, s, calls[..j], date, i + 1);
    if IsUpdate(OutcomeOf(text, s, calls, j)) {
      ExpectedWasMet(text, StateAfter(text, s, calls[..j]), calls[j].c, calls[j].o);
    }
  }

  // ---- Replays ----

  lemma AcceptedAfter(text: TextOps, s: State, c: Candidate, o: CallOptions)
    requires IsUpdate(After(text, s, c, o).1) || IsUnchanged(After(text, s, c, o).1)
    ensures c.summaries.Complete? && SameContent(DayAt(After(text, s, c, o).0, c.date), c.summaries.day)
            && Refusal(c).None?
  {
    Outcomes(text, s, c, o);
    if IsUpdate(After(text, s, c, o).1) {
      var day, w := Update(text, s, c, o);
    } else {
      OnlyUpdatesChangeData(text, s, c, o);
      assert DataOf(DayAt(After(text, s, c, o).0, c.date)) == DataOf(DayAt(s, c.date));
    }
    hide After, DayAt, Refusal, StaleCall, LosesDetail, AfterUpdate, AfterUnchanged, AfterDowngrade;
  }

  lemma {:induction false} ContentStays(text: TextOps, s: State, calls: seq<Call>, date: string)
    requires Updates(text, s, calls, date) == 0
    ensures DataOf(DayAt(StateAfter(text, s, calls), date)) == DataOf(DayAt(s, date))
  {
    if calls != [] {
      var n := |calls| - 1;
      var before := StateAfter(text, s, calls[..n]);
      ContentStays(text, s, calls[..n], date);
      if calls[n].c.date != date {
        OtherDatesStay(text, before, calls[n].c, calls[n].o, date);
      } else {
        OnlyUpdatesChangeData(text, before, calls[n].c, calls[n].o);
      }
      hide After, DayAt, IsUpdate, DataOf;
    }
  }

  lemma SameDataSameContent(a: DayArchive, b: DayArchive, day: Day)
    requires DataOf(a) == DataOf(b)
    ensures SameContent(a, day) <==> SameContent(b, day)
  {
  }

  /**
   Replaying an accepted summary, at any later time before another update of its date, is `unchanged` as soon
   as its heartbeat texts agree and it is not refused as stale, and leaves the data of the date alone.
   */
  lemma ReplayIsUnchanged(text: TextOps, s: State, c: Candidate, o: CallOptions, between: seq<Call>, replay: Call)
    requires IsUpdate(After(text, s, c, o).1) || IsUnchanged(After(text, s, c, o).1)
    requires var s1 := After(text, s, c, o).0;
             && Updates(text, s1, between, c.date) == 0
             && replay.c.date == c.date && replay.c.summaries == c.summaries && !RawConflict(replay.o.rawBeats)
             && StaleCall(DayAt(StateAfter(text, s1, between), c.date), StateAfter(text, s1, between).generation,
                replay.c, replay.o).None?
    ensures var s2 := StateAfter(text, After(text, s, c, o).0, between);
            && IsUnchanged(After(text, s2, replay.c, replay.o).1)
            && DataOf(DayAt(After(text, s2, replay.c, replay.o).0, c.date)) == DataOf(DayAt(s2, c.date))
  {
    hide *;
    var s1 := After(text, s, c, o).0;
    var s2 := StateAfter(text, s1, between);
    AcceptedAfter(text, s, c, o);
    ContentStays(text, s1, between, c.date);
    SameDataSameContent(DayAt(s1, c.date), DayAt(s2, c.date), c.summaries.day);
    Outcomes(text, s2, replay.c, replay.o);
    SameRefusal(c, replay.c);
    NoAbort(replay.c, replay.o);
    PassesIs(s2, replay.c, replay.o);
    NotBoth(After(text, s2, replay.c, replay.o).1);
    OnlyUpdatesChangeData(text, s2, replay.c, replay.o);
  }

  lemma SameRefusal(c: Candidate, d: Candidate)
    requires c.date == d.date && c.summaries == d.summaries
    ensures Refusal(c) == Refusal(d)
  {
  }

  lemma NoAbort(c: Candidate, o: CallOptions)
    requires !RawConflict(o.rawBeats)
    ensures !Aborts(c, o)
  {
  }

  lemma PassesIs(s: State, c: Candidate, o: CallOptions)
    ensures Passes(s, c, o) <==>
            !Aborts(c, o) && Refusal(c).None? && StaleCall(DayAt(s, c.date), s.generation, c, o).None?
  {
  }

  lemma NotBoth(r: Outcome)
    ensures IsUnchanged(r) ==> !IsUpdate(r)
  {
  }

  // ---- Manual allocations ----

  /** Same allocations in the same order: ids, slice keys and classifications. */
  ghost predicate SameAllocations(a: seq<Allocation>, b: seq<Allocation>) {
    |a| == |b| && forall i :: 0 <= i < |a| ==> a[i].id == b[i].id && a[i].key == b[i].key && a[i].choice == b[i].choice
  }

  lemma OverlaySame(rows: map<Key, SliceRow>, a: seq<Allocation>, keys: seq<Key>, slices: seq<NormalizedSlice>)
    requires OverlayAll(rows, a, keys, slices).Some?
    ensures SameAllocations(a, OverlayAll(rows, a, keys, slices).value)
  {
    forall i | 0 <= i < |a|
      ensures var b := Overlaid(a[i], SecondsFor(keys, slices, a[i].key));
              b.id == a[i].id && b.key == a[i].key && b.choice == a[i].choice
    {
      OverlaidKeeps(a[i], SecondsFor(keys, slices, a[i].key));
    }
    hide Overlaid, RefusedByTrigger, SecondsFor;
  }

  lemma CallKeepsAllocations(text: TextOps, s: State, c: Candidate, o: CallOptions, date: string)
    ensures SameAllocations(DayAt(s, date).allocations, DayAt(After(text, s, c, o).0, date).allocations)
  {
    if date != c.date {
      OtherDatesStay(text, s, c, o, date);
    } else if IsUpdate(After(text, s, c, o).1) {
      var day, w := Update(text, s, c, o);
      OverlaySame(w.rows, DayAt(s, c.date).allocations, RowsKeys(text, day), day.slices);
    } else {
      OnlyUpdatesChangeData(text, s, c, o);
      assert DataOf(DayAt(After(text, s, c, o).0, date)) == DataOf(DayAt(s, date));
    }
    hide After, DayAt, OverlayAll;
  }

  /** No run adds, drops or reclassifies an allocation of any date. */
  lemma {:induction false} AllocationsSurvive(text: TextOps, s: State, calls: seq<Call>, date: string)
    ensures SameAllocations(DayAt(s, date).allocations, DayAt(StateAfter(text, s, calls), date).allocations)
  {
    if calls != [] {
      var n := |calls| - 1;
      AllocationsSurvive(text, s, calls[..n], date);
      CallKeepsAllocations(text, StateAfter(text, s, calls[..n]), calls[n].c, calls[n].o, date);
      hide After, DayAt;
    }
  }

  // ---- Rows and the accepted summary ----

  ghost predicate DistinctKeys(text: TextOps, c: Candidate) {
    c.summaries.Complete? ==> Distinct(RowsKeys(text, c.summaries.day))
  }

  ghost predicate AllFit(d: DayArchive) {
    forall i :: 0 <= i < |d.allocations| ==> Fits(d.rows, d.allocations[i])
  }

  /** The rows are the slices of the accepted summary, one row a slice. */
  ghost predicate HoldsSummary(text: TextOps, d: DayArchive, day: Day, version: nat) {
    var keys := RowsKeys(text, day);
    && Distinct(keys) && |keys| == |day.slices|
    && d.rows.Keys == KeySet(keys)
    && (forall i :: 0 <= i < |keys| && keys[i] in d.rows ==>
       d.rows[keys[i]] == Written(d.rows[keys[i]].id, day.slices[i], version))
    && d.total == Some(TotalOf(day)) && d.dimensions == day.rows
    && ArithmeticRefusal(day).None?
  }

  ghost predicate Consistent(text: TextOps, d: DayArchive) {
    && AllFit(d)
    && (d.accepted.Some? ==> HoldsSummary(text, d, d.accepted.value.content, d.accepted.value.version))
  }

  lemma RetainedHolds(before: Work, w: Work, keys: seq<Key>, slices: seq<NormalizedSlice>, version: nat)
    requires |keys| == |slices| && RowsHold(before, w, keys, slices, version)
    ensures var rows := Retained(w.rows, keys);
            && rows.Keys == KeySet(keys)
            && forall i :: 0 <= i < |keys| && keys[i] in rows ==>
               rows[keys[i]] == Written(rows[keys[i]].id, slices[i], version)
  {
    hide Written;
  }

  lemma UpdateHolds(text: TextOps, s: State, c: Candidate, o: CallOptions)
    requires IsUpdate(After(text, s, c, o).1) && DistinctKeys(text, c)
    ensures var d := DayAt(After(text, s, c, o).0, c.date);
            c.summaries.Complete? && HoldsSummary(text, d, c.summaries.day, Version(d)) && AllFit(d)
  {
    hide *;
    var day, w := Update(text, s, c, o);
    var before, after := DayAt(s, c.date), DayAt(After(text, s, c, o).0, c.date);
    var keys, start := RowsKeys(text, day), Work(before.rows, s.nextId);
    KeysFit(text, day);
    DistinctKeysIs(text, c);
    UpdatedRowsIs(text, s, c, day);
    UpsertHolds(start, keys, day.slices, Version(before) + 1);
    RetainedHolds(start, w, keys, day.slices, Version(before) + 1);
    OverlayFits(start, w, keys, day.slices, Version(before) + 1, before.allocations);
    HoldsSummaryIs(text, after, day, Version(after));
    AllFitIs(after);
  }

  lemma DistinctKeysIs(text: TextOps, c: Candidate)
    ensures DistinctKeys(text, c) <==> (c.summaries.Complete? ==> Distinct(RowsKeys(text, c.summaries.day)))
  {
  }

  lemma HoldsSummaryIs(text: TextOps, d: DayArchive, day: Day, version: nat)
    requires var keys := RowsKeys(text, day);
             Distinct(keys) && |keys| == |day.slices| && d.rows.Keys == KeySet(keys) && d.total == Some(TotalOf(day))
                 && d.dimensions == day.rows && ArithmeticRefusal(day).None?
             && (forall i :: 0 <= i < |keys| && keys[i] in d.rows ==>
                d.rows[keys[i]] == Written(d.rows[keys[i]].id, day.slices[i], version))
    ensures HoldsSummary(text, d, day, version)
  {
  }

  lemma AllFitIs(d: DayArchive)
    ensures AllFit(d) <==> forall i :: 0 <= i < |d.allocations| ==> Fits(d.rows, d.allocations[i])
  {
  }

  lemma OverlayFits(before: Work, w: Work, keys: seq<Key>, slices: seq<NormalizedSlice>, version: nat,
                    a: seq<Allocation>)
    requires |keys| == |slices| && Distinct(keys) && RowsHold(before, w, keys, slices, version)
    ensures OverlayAll(w.rows, a, keys, slices).Some?
    ensures var b := OverlayAll(w.rows, a, keys, slices).value;
            forall i :: 0 <= i < |b| ==> Fits(Retained(w.rows, keys), b[i])
  {
    forall i | 0 <= i < |a|
      ensures !RefusedByTrigger(w.rows, a[i], SecondsFor(keys, slices, a[i].key))
      ensures Fits(Retained(w.rows, keys), Overlaid(a[i], SecondsFor(keys, slices, a[i].key)))
    {
      var seconds := SecondsFor(keys, slices, a[i].key);
      NoTriggerFires(before, w, keys, slices, version, a[i]);
      hide Distinct, RowsHold, Fits, SecondsFor, RefusedByTrigger, Overlaid;
      OverlaidFits(Retained(w.rows, keys), a[i], seconds);
    }
    hide Fits, Overlaid, RefusedByTrigger, SecondsFor, Retained;
  }

  lemma CallKeepsConsistent(text: TextOps, s: State, c: Candidate, o: CallOptions, date: string)
    requires Consistent(text, DayAt(s, date)) && DistinctKeys(text, c)
    ensures Consistent(text, DayAt(After(text, s, c, o).0, date))
  {
    hide *;
    if date != c.date {
      OtherDatesStay(text, s, c, o, date);
    } else if IsUpdate(After(text, s, c, o).1) {
      UpdateHolds(text, s, c, o);
      AcceptedContent(text, s, c, o);
      ConsistentIs(text, DayAt(After(text, s, c, o).0, date));
    } else {
      OnlyUpdatesChangeData(text, s, c, o);
      SameDataSameConsistency(text, DayAt(s, date), DayAt(After(text, s, c, o).0, date));
    }
  }

  lemma AcceptedContent(text: TextOps, s: State, c: Candidate, o: CallOptions)
    requires IsUpdate(After(text, s, c, o).1)
    ensures var d := DayAt(After(text, s, c, o).0, c.date);
            c.summaries.Complete? && d.accepted.Some? && d.accepted.value.content == c.summaries.day
                && d.accepted.value.version == Version(d)
  {
    var day, w := Update(text, s, c, o);
    hide After, DayAt, UpsertAll, ArithmeticRefusal, RowsKeys, LosesDetail, SameContent, Retained, OverlayAll;
  }

  lemma ConsistentIs(text: TextOps, d: DayArchive)
    ensures Consistent(text, d) <==>
            AllFit(d) && (d.accepted.Some? ==>
                HoldsSummary(text, d, d.accepted.value.content, d.accepted.value.version))
  {
  }

  lemma SameDataSameConsistency(text: TextOps, a: DayArchive, b: DayArchive)
    requires DataOf(a) == DataOf(b) && Consistent(text, a)
    ensures Consistent(text, b)
  {
    hide Fits, Written, RowsKeys, Distinct, ArithmeticRefusal, TotalOf;
  }

  /** Runs of summaries with distinct keys keep every date consistent. */
  lemma {:induction false} RunsKeepConsistent(text: TextOps, s: State, calls: seq<Call>, date: string)
    requires Consistent(text, DayAt(s, date)) && forall i :: 0 <= i < |calls| ==> DistinctKeys(text, calls[i].c)
    ensures Consistent(text, DayAt(StateAfter(text, s, calls), date))
  {
    if calls != [] {
      var n := |calls| - 1;
      RunsKeepConsistent(text, s, calls[..n], date);
      hide After, DayAt, Consistent, DistinctKeys;
      CallKeepsConsistent(text, StateAfter(text, s, calls[..n]), calls[n].c, calls[n].o, date);
    }
  }

  // ---- Any summaries ----

  /** Each row is the last slice of its key in the accepted summary, and the active allocations are those with a row. */
  ghost predicate HoldsLast(text: TextOps, d: DayArchive) {
    && (forall i :: 0 <= i < |d.allocations| ==> (d.allocations[i].active <==> d.allocations[i].key in d.rows))
    && (d.accepted.Some? ==>
          var day, keys := d.accepted.value.content, RowsKeys(text, d.accepted.value.content);
          && d.rows.Keys == KeySet(keys) && RowsHoldLast(d.rows, keys, day.slices, d.accepted.value.version)
          && d.total == Some(TotalOf(day)) && d.dimensions == day.rows)
  }

  /** Whatever the keys of the summary. */
  lemma UpdateHoldsLast(text: TextOps, s: State, c: Candidate, o: CallOptions)
    requires IsUpdate(After(text, s, c, o).1)
    ensures HoldsLast(text, DayAt(After(text, s, c, o).0, c.date))
  {
    hide *;
    var day, w := Update(text, s, c, o);
    var before, after := DayAt(s, c.date), DayAt(After(text, s, c, o).0, c.date);
    var keys, start, version := RowsKeys(text, day), Work(before.rows, s.nextId), Version(before) + 1;
    KeysFit(text, day);
    UpdatedRowsIs(text, s, c, day);
    UpsertHoldsLast(start, keys, day.slices, version);
    UpsertedKeys(start, keys, day.slices, version);
    RetainedHoldsLast(w.rows, start.rows.Keys, keys, day.slices, version);
    OverlayFollowsRows(w.rows, before.allocations, keys, day.slices, after.rows);
    AcceptedContent(text, s, c, o);
    HoldsLastIs(text, after, day);
  }

  lemma RetainedHoldsLast(rows: map<Key, SliceRow>, archived: set<Key>, keys: seq<Key>, slices: seq<NormalizedSlice>,
                          version: nat)
    requires rows.Keys == archived + KeySet(keys) && RowsHoldLast(rows, keys, slices, version)
    ensures Retained(rows, keys).Keys == KeySet(keys) && RowsHoldLast(Retained(rows, keys), keys, slices, version)
  {
    hide Written, IsLast;
  }

  lemma OverlayFollowsRows(rows: map<Key, SliceRow>, a: seq<Allocation>, keys: seq<Key>, slices: seq<NormalizedSlice>,
                           kept: map<Key, SliceRow>)
    requires |keys| == |slices| && OverlayAll(rows, a, keys, slices).Some? && kept.Keys == KeySet(keys)
    ensures var b := OverlayAll(rows, a, keys, slices).value;
            forall i :: 0 <= i < |b| ==> (b[i].active <==> b[i].key in kept)
  {
    forall i | 0 <= i < |a|
      ensures var b := Overlaid(a[i], SecondsFor(keys, slices, a[i].key)); b.active <==> b.key in kept
    {
      SecondsForIs(keys, slices, a[i].key);
      assert a[i].key in KeySet(keys) <==> a[i].key in keys;
      hide SecondsFor;
    }
    hide Overlaid, RefusedByTrigger, SecondsFor;
  }

  lemma HoldsLastIs(text: TextOps, d: DayArchive, day: Day)
    requires forall i :: 0 <= i < |d.allocations| ==> (d.allocations[i].active <==> d.allocations[i].key in d.rows)
    requires d.accepted.Some? && d.accepted.value.content == day && d.total == Some(TotalOf(day))
             && d.dimensions == day.rows
    requires d.rows.Keys == KeySet(RowsKeys(text, day))
             && RowsHoldLast(d.rows, RowsKeys(text, day), day.slices, d.accepted.value.version)
    ensures HoldsLast(text, d)
  {
    hide RowsKeys, RowsHoldLast, KeySet, TotalOf;
  }

  lemma SameDataHoldsLast(text: TextOps, a: DayArchive, b: DayArchive)
    requires DataOf(a) == DataOf(b) && HoldsLast(text, a)
    ensures HoldsLast(text, b)
  {
    hide RowsKeys, RowsHoldLast, KeySet, TotalOf;
  }

  lemma CallHoldsLast(text: TextOps, s: State, c: Candidate, o: CallOptions, date: string)
    requires HoldsLast(text, DayAt(s, date))
    ensures HoldsLast(text, DayAt(After(text, s, c, o).0, date))
  {
    hide *;
    if date != c.date {
      OtherDatesStay(text, s, c, o, date);
    } else if IsUpdate(After(text, s, c, o).1) {
      UpdateHoldsLast(text, s, c, o);
    } else {
      OnlyUpdatesChangeData(text, s, c, o);
      SameDataHoldsLast(text, DayAt(s, date), DayAt(After(text, s, c, o).0, date));
    }
  }

  /**
   Runs of any summaries: the rows of a date stay the last slices of its last accepted summary, and allocations
   follow them.
   */
  lemma {:induction false} RunsHoldLast(text: TextOps, s: State, calls: seq<Call>, date: string)
    requires HoldsLast(text, DayAt(s, date))
    ensures HoldsLast(text, DayAt(StateAfter(text, s, calls), date))
  {
    if calls != [] {
      var n := |calls| - 1;
      RunsHoldLast(text, s, calls[..n], date);
      hide After, DayAt, HoldsLast;
      CallHoldsLast(text, StateAfter(text, s, calls[..n]), calls[n].c, calls[n].o, date);
    }
  }

  // ---- The stored seconds ----

  function SecondsIn(rows: map<Key, SliceRow>): Key -> real {
    k => if k in rows then rows[k].seconds else 0.0
  }

  lemma {:induction false} SameSetSameMultiset(a: seq<Key>, b: seq<Key>)
    requires Distinct(a) && Distinct(b) && KeySet(a) == KeySet(b)
    ensures multiset(a) == multiset(b)
  {
    forall k ensures multiset(a)[k] == multiset(b)[k] {
      Once(a, k);
      Once(b, k);
      assert k in KeySet(a) <==> k in a;
      assert k in KeySet(b) <==> k in b;
    }
  }

  lemma {:induction false} Once(a: seq<Key>, k: Key)
    requires Distinct(a)
    ensures multiset(a)[k] == if k in a then 1 else 0
  {
    if a != [] {
      var n := |a| - 1;
      assert Distinct(a[..n]);
      Once(a[..n], k);
      assert a == a[..n] + [a[n]];
      assert forall i :: 0 <= i < n ==> a[..n][i] == a[i] != a[n];
    }
  }

  lemma {:induction false} SumsAgree(keys: seq<Key>, slices: seq<NormalizedSlice>, rows: map<Key, SliceRow>)
    requires |keys| == |slices| && forall i :: 0 <= i < |keys| ==>
             keys[i] in rows && rows[keys[i]].seconds == slices[i].seconds
    ensures SumBy(keys, SecondsIn(rows)) == SumBy(slices, SLICE_SECONDS)
  {
    if keys != [] {
      var n := |keys| - 1;
      SumsAgree(keys[..n], slices[..n], rows);
    }
  }

  lemma RowSeconds(text: TextOps, d: DayArchive, day: Day, version: nat)
    requires HoldsSummary(text, d, day, version)
    ensures var keys := RowsKeys(text, day);
            && |keys| == |day.slices| && Distinct(keys) && d.rows.Keys == KeySet(keys)
            && forall i :: 0 <= i < |keys| ==> keys[i] in d.rows && d.rows[keys[i]].seconds == day.slices[i].seconds
  {
    var keys := RowsKeys(text, day);
    hide RowsKeys, ArithmeticRefusal;
    forall i | 0 <= i < |keys| ensures keys[i] in d.rows && d.rows[keys[i]].seconds == day.slices[i].seconds {
      assert keys[i] in KeySet(keys);
    }
  }

  /** Whatever order the rows of a consistent date are added up in, they are within the tolerance of its daily total. */
  lemma StoredSecondsMatchTotal(text: TextOps, d: DayArchive, ks: seq<Key>)
    requires Consistent(text, d) && d.accepted.Some? && Distinct(ks) && d.rows.Keys == KeySet(ks)
    ensures d.total.Some? && -0.001 <= SumBy(ks, SecondsIn(d.rows)) - d.total.value.seconds <= 0.001
    ensures |ks| == |d.accepted.value.content.slices|
  {
    hide *;
    var day := d.accepted.value.content;
    var keys := RowsKeys(text, day);
    ConsistentIs(text, d);
    RowSeconds(text, d, day, d.accepted.value.version);
    SumsAgree(keys, day.slices, d.rows);
    SameSetSameMultiset(keys, ks);
    SumByPermuted(keys, ks, SecondsIn(d.rows));
    SameLength(keys, ks);
    ArithmeticBounds(day);
    TotalSeconds(text, d, day);
  }

  lemma SameLength(a: seq<Key>, b: seq<Key>)
    requires multiset(a) == multiset(b)
    ensures |a| == |b|
  {
    assert |a| == |multiset(a)| && |b| == |multiset(b)|;
  }

  lemma ArithmeticBounds(day: Day)
    ensures ArithmeticRefusal(day).None? ==> -0.001 <= SumBy(day.slices, SLICE_SECONDS) - day.totalSeconds <= 0.001
    ensures ArithmeticRefusal(day).None? ==> forall i :: 0 <= i < |day.slices| ==> day.slices[i].seconds >= 0.0
  {
    hide SumBy;
  }

  lemma TotalSeconds(text: TextOps, d: DayArchive, day: Day)
    requires Consistent(text, d) && d.accepted.Some? && day == d.accepted.value.content
    ensures d.total.Some? && d.total.value.seconds == day.totalSeconds && ArithmeticRefusal(day).None?
            && |RowsKeys(text, day)| == |day.slices|
  {
    hide RowsKeys, Fits, AllFit, ArithmeticRefusal;
  }
}
