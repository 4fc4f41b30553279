/** What holds after every sequence of reconciliations. */
module ReconcileRuns {
  import opened Options
  import opened Text
  import opened Orders
  import opened SummaryDay
  import opened ArchiveModel
  import opened Reconcile
  import opened ReconcileFacts
  import Calendar

  datatype Call = Call(c: Candidate, o: CallOptions)

  function StateAfter(text: TextOps, s: State, calls: seq<Call>): State {
    if calls == [] then s
    else After(text, StateAfter(text, s, calls[..|calls| - 1]), calls[|calls| - 1].c, calls[|calls| - 1].o).0
  }

  /** What the i-th call of a run returns. */
  function OutcomeOf(text: TextOps, s: State, calls: seq<Call>, i: nat): Outcome {
    if i < |calls| then After(text, StateAfter(text, s, calls[..i]), calls[i].c, calls[i].o).1 else Threw
  }

  predicate IsUpdate(r: Outcome) {
    r.Returned? && r.report.disposition == Updated
  }

  predicate IsUnchanged(r: Outcome) {
    r.Returned? && r.report.disposition == Unchanged
  }

  // ---- One call ----

  predicate Passes(s: State, c: Candidate, o: CallOptions) {
    !Aborts(c, o) && Refusal(c).None? && StaleCall(DayAt(s, c.date), s.generation, c, o).None?
  }

  /** The call passes the guards, brings new content and loses no detail. */
  predicate Replaces(s: State, c: Candidate, o: CallOptions) {
    && Passes(s, c, o) && c.summaries.Complete?
    && !SameContent(DayAt(s, c.date), c.summaries.day) && !LosesDetail(DayAt(s, c.date), c.summaries.day)
  }

  lemma RefusalIsEarly(c: Candidate)
    ensures Refusal(c).None? ==>
            c.summaries.Complete? && ArithmeticRefusal(c.summaries.day).None? && Calendar.IsValidDateString(c.date)
    ensures Refusal(c).Some? ==> Refusal(c).value.disposition == Preserved || Refusal(c).value.disposition == Rejected
    ensures Refusal(c).Some? ==> Refusal(c).value.status == DayFailed || Refusal(c).value.status == DaySkipped
  {
    hide Calendar.IsValidDateString, SumBy, HasNegative;
  }

  lemma StaleIsEarly(d: DayArchive, generation: nat, c: Candidate, o: CallOptions)
    ensures var r := StaleCall(d, generation, c, o);
            r.Some? ==>
                (r.value.disposition == Preserved || r.value.disposition == Rejected)
                && (r.value.status == DayFailed || r.value.status == DaySkipped)
  {
  }

  /** Which calls end how. */
  lemma Outcomes(text: TextOps, s: State, c: Candidate, o: CallOptions)
    ensures var (after, r) := After(text, s, c, o);
            && (IsUpdate(r) <==> Replaces(s, c, o) && IsUpdate(AfterUpdate(text, s, c, o, c.summaries.day).1))
            && (Replaces(s, c, o) ==> (after, r) == AfterUpdate(text, s, c, o, c.summaries.day))
            && (IsUnchanged(r) <==>
               Passes(s, c, o) && c.summaries.Complete? && SameContent(DayAt(s, c.date), c.summaries.day))
            && (IsUnchanged(r) ==> (after, r) == AfterUnchanged(s, c, o, c.summaries.day))
            && (!IsUpdate(r) && !IsUnchanged(r) ==> after == s || after == AfterDowngrade(s, c, o).0)
            && (r.Threw? <==>
               Aborts(c, o) || (Replaces(s, c, o) && AfterUpdate(text, s, c, o, c.summaries.day).1.Threw?))
            && (r.Threw? ==> after == s)
  {
    RefusalIsEarly(c);
    StaleIsEarly(DayAt(s, c.date), s.generation, c, o);
    if Passes(s, c, o) {
      UpdateOutcome(text, s, c, o, c.summaries.day);
    }
    hide Aborts, Refusal, StaleCall, DayAt, SameContent, LosesDetail, AfterUpdate, ArithmeticRefusal,
         Calendar.IsValidDateString, VerifiedZeroDay, EvidenceAccepted, HeartbeatCodes, Today;
  }

  lemma UpdateOutcome(text: TextOps, s: State, c: Candidate, o: CallOptions, day: Day)
    ensures var (after, r) := AfterUpdate(text, s, c, o, day); (IsUpdate(r) || r.Threw?) && (r.Threw? ==> after == s)
  {
    hide DayAt, RowsKeys, UpdatedRows, OverlayAll, DimensionsStorable, Retained, EvidenceAfterUpdate,
         EvidenceAccepted, VerifiedZeroDay, HeartbeatCodes, Today, Stored;
  }

  /** Everything about a date that only an accepted replacement may change. */
  datatype Data = Data(rows: map<Key, SliceRow>, total: Option<DailyTotal>, dimensions: seq<Row>,
                       allocations: seq<Allocation>, version: nat, content: Option<Day>)

  function DataOf(d: DayArchive): Data {
    Data(d.rows, d.total, d.dimensions, d.allocations, Version(d), if d.accepted.Some?
        then Some(d.accepted.value.content) else None)
  }

  /** Every result but `updated`, and every failure, leaves slices, totals and allocations of all dates alone. */
  lemma OnlyUpdatesChangeData(text: TextOps, s: State, c: Candidate, o: CallOptions)
    requires !IsUpdate(After(text, s, c, o).1)
    ensures forall date :: DataOf(DayAt(After(text, s, c, o).0, date)) == DataOf(DayAt(s, date))
    ensures After(text, s, c, o).0.nextId == s.nextId
  {
    Outcomes(text, s, c, o);
    hide After, SameContent, Conflicted, Stored, Ids, HeartbeatCodes, VerifiedZeroDay, Today, IsUpdate, IsUnchanged,
         Passes, AfterUpdate, LosesDetail;
  }

  /** An update touches its own date only. */
  lemma OtherDatesStay(text: TextOps, s: State, c: Candidate, o: CallOptions, date: string)
    requires date != c.date
    ensures DayAt(After(text, s, c, o).0, date) == DayAt(s, date)
  {
    Outcomes(text, s, c, o);
    hide After, SameContent, Conflicted, Stored, Ids, HeartbeatCodes, VerifiedZeroDay, Today, IsUpdate, IsUnchanged,
         Passes, LosesDetail, UpdatedRows, OverlayAll, Retained, RowsKeys;
  }

  /** The date after an update. */
  lemma Update(text: TextOps, s: State, c: Candidate, o: CallOptions) returns (day: Day, w: Work)
    requires IsUpdate(After(text, s, c, o).1)
    ensures c.summaries == Complete(day) && ArithmeticRefusal(day).None?
            && StaleCall(DayAt(s, c.date), s.generation, c, o).None?
    ensures !LosesDetail(DayAt(s, c.date), day) && !SameContent(DayAt(s, c.date), day)
    ensures UpdatedRows(text, s, c, day) == Some(w)
    ensures var before, after := DayAt(s, c.date), DayAt(After(text, s, c, o).0, c.date);
            && OverlayAll(w.rows, before.allocations, RowsKeys(text, day), day.slices) == Some(after.allocations)
            && after.rows == Retained(w.rows, RowsKeys(text, day))
            && after.total == Some(TotalOf(day)) && after.dimensions == day.rows && DimensionsStorable(day)
            && Version(after) == Version(before) + 1
            && after.accepted.Some? && after.accepted.value.content == day
            && After(text, s, c, o).0.nextId == w.nextId
  {
    Outcomes(text, s, c, o);
    RefusalIsEarly(c);
    day := c.summaries.day;
    hide After, LosesDetail, SameContent, DimensionsStorable, OverlayAll, RowsKeys, Retained, Refusal, StaleCall,
         ArithmeticRefusal, VerifiedZeroDay, EvidenceAccepted, Stored, HeartbeatCodes, Today, EvidenceAfterUpdate,
         UpdatedRows, Calendar.IsValidDateString;
    UpdateSucceeds(text, s, c, o, day);
    w := UpdatedRows(text, s, c, day).value;
  }

  lemma UpdateSucceeds(text: TextOps, s: State, c: Candidate, o: CallOptions, day: Day)
    requires IsUpdate(AfterUpdate(text, s, c, o, day).1)
    ensures UpdatedRows(text, s, c, day).Some? && o.failure == NoFailure && DimensionsStorable(day)
    ensures OverlayAll(UpdatedRows(text, s, c, day).value.rows, DayAt(s, c.date).allocations, RowsKeys(text, day),
            day.slices).Some?
  {
    hide DayAt, RowsKeys, UpdatedRows, OverlayAll, DimensionsStorable, Retained, EvidenceAfterUpdate,
         EvidenceAccepted, VerifiedZeroDay, HeartbeatCodes, Today, Stored;
  }

  // ---- Ids ----

  /** Row ids are below the next id and belong to one row of one date. */
  ghost predicate IdsUnique(s: State) {
    && (forall date, k :: date in s.days && k in s.days[date].rows ==> s.days[date].rows[k].id < s.nextId)
    && (forall d, e, k, l :: (d in s.days && e in s.days && k in s.days[d].rows && l in s.days[e].rows
          && s.days[d].rows[k].id == s.days[e].rows[l].id) ==> d == e && k == l)
  }

  /** Rows that stay keep their ids; new rows get ids from the given range, no two alike. */
  ghost predicate IdsMove(before: map<Key, SliceRow>, after: map<Key, SliceRow>, low: nat, high: nat) {
    && low <= high
    && (forall k :: k in before && k in after ==> after[k].id == before[k].id)
    && (forall k :: k in after && k !in before ==> low <= after[k].id < high)
    && (forall k, l :: k in after && l in after && k !in before && l !in before && k != l ==>
       after[k].id != after[l].id)
  }

  lemma UpdateKeepsIds(text: TextOps, s: State, c: Candidate, o: CallOptions)
    requires IsUpdate(After(text, s, c, o).1)
    ensures IdsMove(DayAt(s, c.date).rows, DayAt(After(text, s, c, o).0, c.date).rows, s.nextId,
            After(text, s, c, o).0.nextId)
  {
    hide *;
    var day, w := Update(text, s, c, o);
    UpdatedRowsIs(text, s, c, day);
    KeysFit(text, day);
    var before := DayAt(s, c.date);
    UpsertKeepsIds(Work(before.rows, s.nextId), RowsKeys(text, day), day.slices, Version(before) + 1);
    RetainedIds(Work(before.rows, s.nextId), w, RowsKeys(text, day));
  }

  lemma RetainedIds(before: Work, w: Work, keys: seq<Key>)
    requires IdsKept(before, w)
    ensures IdsMove(before.rows, Retained(w.rows, keys), before.nextId, w.nextId)
  {
  }

  /** Slices that survive a call keep their ids, whatever the call. */
  lemma SurvivorsKeepIds(text: TextOps, s: State, c: Candidate, o: CallOptions, date: string, k: Key)
    requires k in DayAt(s, date).rows && k in DayAt(After(text, s, c, o).0, date).rows
    ensures DayAt(After(text, s, c, o).0, date).rows[k].id == DayAt(s, date).rows[k].id
  {
    if date != c.date {
      OtherDatesStay(text, s, c, o, date);
    } else if IsUpdate(After(text, s, c, o).1) {
      UpdateKeepsIds(text, s, c, o);
    } else {
      OnlyUpdatesChangeData(text, s, c, o);
      assert DataOf(DayAt(After(text, s, c, o).0, date)) == DataOf(DayAt(s, date));
    }
    hide After, DayAt;
  }

  lemma {:induction false} SurvivorsOfRunsKeepIds(text: TextOps, s: State, calls: seq<Call>, date: string, k: Key)
    requires forall n :: 0 <= n <= |calls| ==> k in DayAt(StateAfter(text, s, calls[..n]), date).rows
    ensures k in DayAt(s, date).rows && k in DayAt(StateAfter(text, s, calls), date).rows
    ensures DayAt(StateAfter(text, s, calls), date).rows[k].id == DayAt(s, date).rows[k].id
  {
    assert calls[..0] == [] && calls[..|calls|] == calls;
    if calls != [] {
      var n := |calls| - 1;
      forall m | 0 <= m <= n ensures k in DayAt(StateAfter(text, s, calls[..n][..m]), date).rows {
        assert calls[..n][..m] == calls[..m];
      }
      SurvivorsOfRunsKeepIds(text, s, calls[..n], date, k);
      hide After, DayAt;
      SurvivorsKeepIds(text, StateAfter(text, s, calls[..n]), calls[n].c, calls[n].o, date, k);
    }
  }

  lemma UpdateDays(text: TextOps, s: State, c: Candidate, o: CallOptions)
    requires IsUpdate(After(text, s, c, o).1)
    ensures var after := After(text, s, c, o).0;
            after.days == s.days[c.date := DayAt(after, c.date)]
  {
    Outcomes(text, s, c, o);
    hide After, LosesDetail, SameContent, DimensionsStorable, OverlayAll, RowsKeys, Retained, VerifiedZeroDay,
         EvidenceAccepted, Stored, HeartbeatCodes, Today, EvidenceAfterUpdate, UpdatedRows, Passes;
    UpdateSucceeds(text, s, c, o, c.summaries.day);
  }

  lemma NewIdsUnique(s: State, after: State, date: string)
    requires IdsUnique(s) && after.days == s.days[date := DayAt(after, date)]
    requires IdsMove(DayAt(s, date).rows, DayAt(after, date).rows, s.nextId, after.nextId)
    ensures IdsUnique(after)
  {
    forall d, k | d in after.days && k in after.days[d].rows ensures after.days[d].rows[k].id < after.nextId {
      OldOrNew(s, after, date, d, k);
    }
    forall d, e, k, l | d in after.days && e in after.days && k in after.days[d].rows && l in after.days[e].rows
      && after.days[d].rows[k].id == after.days[e].rows[l].id
      ensures d == e && k == l
    {
      OldOrNew(s, after, date, d, k);
      OldOrNew(s, after, date, e, l);
    }
  }

  lemma OldOrNew(s: State, after: State, date: string, d: string, k: Key)
    requires IdsUnique(s) && after.days == s.days[date := DayAt(after, date)] && d in after.days
             && k in after.days[d].rows
    requires IdsMove(DayAt(s, date).rows, DayAt(after, date).rows, s.nextId, after.nextId)
    ensures (d in s.days && k in s.days[d].rows && s.days[d].rows[k].id == after.days[d].rows[k].id < s.nextId)
         || (d == date && k !in DayAt(s, date).rows && s.nextId <= after.days[d].rows[k].id < after.nextId)
  {
    if d == date && k in DayAt(s, date).rows { assert date in s.days; }
  }

  lemma CallKeepsIdsUnique(text: TextOps, s: State, c: Candidate, o: CallOptions)
    requires IdsUnique(s)
    ensures IdsUnique(After(text, s, c, o).0)
  {
    hide *;
    if IsUpdate(After(text, s, c, o).1) {
      UpdateKeepsIds(text, s, c, o);
      UpdateDays(text, s, c, o);
      NewIdsUnique(s, After(text, s, c, o).0, c.date);
    } else {
      OnlyUpdatesChangeData(text, s, c, o);
      SameDataSameIds(s, After(text, s, c, o).0);
    }
  }

  lemma SameDataSameIds(s: State, after: State)
    requires IdsUnique(s) && after.nextId == s.nextId
             && forall date :: DataOf(DayAt(after, date)) == DataOf(DayAt(s, date))
    ensures IdsUnique(after)
  {
    forall d | d in after.days ensures after.days[d].rows == DayAt(s, d).rows {
      assert DataOf(DayAt(after, d)) == DataOf(DayAt(s, d));
    }
  }

  /** Over any run of calls, row ids stay unique across all dates. */
  lemma {:induction false} RunsKeepIdsUnique(text: TextOps, s: State, calls: seq<Call>)
    requires IdsUnique(s)
    ensures IdsUnique(StateAfter(text, s, calls))
  {
    hide After, IdsUnique;
    if calls != [] {
      RunsKeepIdsUnique(text, s, calls[..|calls| - 1]);
      CallKeepsIdsUnique(text, StateAfter(text, s, calls[..|calls| - 1]), calls[|calls| - 1].c, calls[|calls| - 1].o);
    }
  }

  lemma SameRowsEverywhere(text: TextOps, s: State, c: Candidate, o: CallOptions)
    ensures forall d :: d in After(text, s, c, o).0.days ==> d in s.days || d == c.date
  {
    Outcomes(text, s, c, o);
    hide After, LosesDetail, SameContent, DimensionsStorable, OverlayAll, RowsKeys, Retained, VerifiedZeroDay,
         Conflicted, Stored, HeartbeatCodes, Today, EvidenceAfterUpdate, UpdatedRows, Passes, DayAt, Ids;
  }
}
