/** Entity detail is never lost silently, keys and rows correspond, and evidence is immutable. */
module ArchiveDetail {
  import opened Options
  import opened SliceTypes
  import opened Text
  import opened Locales
  import opened SummaryDay
  import opened ArchiveModel
  import opened Reconcile
  import opened ReconcileFacts
  import opened ReconcileRuns
  import opened ArchiveHistory
  import opened NormalizedDays

  // ---- Entity detail ----

  /** The date has an entity slice for the project. */
  ghost predicate HoldsDetail(d: DayArchive, project: string) {
    exists k :: k in d.rows && k.kind == EntitySlice && k.project == project
  }

  /** The summary is a verified zero, or says that the project's entities are empty and its seconds zero. */
  ghost predicate DeclaresEmpty(day: Day, project: string) {
    day.isVerifiedZero || (project in day.scopes && day.scopes[project].state == Empty
        && day.scopes[project].seconds == 0.0)
  }

  /** The call replaced the date by a summary that declares the project empty. */
  ghost predicate EmptiesProject(c: Candidate, r: Outcome, date: string, project: string) {
    c.date == date && IsUpdate(r) && c.summaries.Complete? && DeclaresEmpty(c.summaries.day, project)
  }

  /**
   The call replaced the date by a summary that does not list the project, although the lookup of its scope found
   something.
   */
  ghost predicate OverlooksProject(c: Candidate, r: Outcome, date: string, project: string) {
    c.date == date && IsUpdate(r) && c.summaries.Complete? && FoundUnlisted(c.summaries.day, project)
  }

  lemma KeptOrDeclaredEmpty(d: DayArchive, day: Day, project: string)
    requires HoldsDetail(d, project) && !LosesDetail(d, day) && WellScoped(day)
    ensures HasProjectSlice(day, project, EntitySlice) || DeclaresEmpty(day, project) || FoundUnlisted(day, project)
  {
    var k :| k in d.rows && k.kind == EntitySlice && k.project == project;
    hide HasProjectSlice, HasSlice, HadDetail, FoundUnlisted;
    if !day.isVerifiedZero {
      assert k in d.rows.Keys;
      assert !LosesProject(day, k.project);
    }
  }

  /** A project has an entity row among the incoming ones exactly when it has an entity slice. */
  lemma EntityRowsAreSlices(text: TextOps, day: Day, project: string)
    requires WellScoped(day)
    ensures (exists k :: k in RowsKeys(text, day) && k.kind == EntitySlice && k.project == project)
       <==> HasProjectSlice(day, project, EntitySlice)
  {
    KeysFit(text, day);
    hide NormalizeEntity;
    if HasProjectSlice(day, project, EntitySlice) {
      var i :| 0 <= i < |day.slices| && day.slices[i].projectName == project && day.slices[i].kind == EntitySlice;
      assert day.slices[i] in day.slices;
      assert RowsKeys(text, day)[i] in RowsKeys(text, day);
    }
    if k :| k in RowsKeys(text, day) && k.kind == EntitySlice && k.project == project {
      var i :| 0 <= i < |day.slices| && RowsKeys(text, day)[i] == k;
      assert day.slices[i] in day.slices;
    }
  }

  /** All incoming keys have rows after an update, distinct or not. */
  lemma UpdatedRowsAreKeys(text: TextOps, s: State, c: Candidate, o: CallOptions)
    requires IsUpdate(After(text, s, c, o).1)
    ensures c.summaries.Complete? && DayAt(After(text, s, c, o).0, c.date).rows.Keys
            == KeySet(RowsKeys(text, c.summaries.day))
  {
    hide *;
    var day, w := Update(text, s, c, o);
    KeysFit(text, day);
    UpdatedRowsIs(text, s, c, day);
    UpsertedKeys(Work(DayAt(s, c.date).rows, s.nextId), RowsKeys(text, day), day.slices, Version(DayAt(s, c.date)) + 1);
    RetainedKeys(w.rows, RowsKeys(text, day));
  }

  lemma RetainedKeys(rows: map<Key, SliceRow>, keys: seq<Key>)
    ensures Retained(rows, keys).Keys == rows.Keys * KeySet(keys)
  {
  }

  /**
   An update keeps the entity detail of a project, or declares it empty, exactly unless the summary leaves the project
   out and the lookup of its scope finds something nevertheless.
   */
  lemma UpdateKeepsDetailIff(text: TextOps, s: State, c: Candidate, o: CallOptions, project: string)
    requires IsUpdate(After(text, s, c, o).1) && HoldsDetail(DayAt(s, c.date), project)
    requires c.summaries.Complete? ==> WellScoped(c.summaries.day)
    ensures c.summaries.Complete?
    ensures HoldsDetail(DayAt(After(text, s, c, o).0, c.date), project) || DeclaresEmpty(c.summaries.day, project)
       <==> c.summaries.day.isVerifiedZero || !FoundUnlisted(c.summaries.day, project)
  {
    var day, w := Update(text, s, c, o);
    UpdatedRowsAreKeys(text, s, c, o);
    hide After, DayAt, UpdatedRows, Retained, OverlayAll, LosesDetail, RowsKeys, SameContent, StaleCall,
         ArithmeticRefusal;
    KeptOrDeclaredEmpty(DayAt(s, c.date), day, project);
    EntityRowsAreSlices(text, day, project);
    if HasProjectSlice(day, project, EntitySlice) { SlicesAreListed(day, project); }
    HoldsKey(DayAt(After(text, s, c, o).0, c.date), RowsKeys(text, day), project);
    hide WellScoped, HasProjectSlice, HoldsDetail;
  }

  lemma SlicesAreListed(day: Day, project: string)
    requires WellScoped(day) && HasProjectSlice(day, project, EntitySlice)
    ensures project in day.scopes
  {
    var i :| 0 <= i < |day.slices| && day.slices[i].projectName == project && day.slices[i].kind == EntitySlice;
    assert day.slices[i] in day.slices;
  }

  lemma HoldsKey(d: DayArchive, keys: seq<Key>, project: string)
    requires d.rows.Keys == KeySet(keys)
    ensures HoldsDetail(d, project) <==> exists k :: k in keys && k.kind == EntitySlice && k.project == project
  {
    assert forall k :: k in d.rows <==> k in keys;
  }

  lemma CallKeepsDetail(text: TextOps, s: State, c: Candidate, o: CallOptions, date: string, project: string)
    requires c.summaries.Complete? ==> WellScoped(c.summaries.day)
    requires HoldsDetail(DayAt(s, date), project)
    ensures var (after, r) := After(text, s, c, o);
            HoldsDetail(DayAt(after, date), project) || EmptiesProject(c, r, date, project)
                || OverlooksProject(c, r, date, project)
  {
    if date != c.date {
      OtherDatesStay(text, s, c, o, date);
    } else if IsUpdate(After(text, s, c, o).1) {
      UpdateKeepsDetailIff(text, s, c, o, project);
    } else {
      OnlyUpdatesChangeData(text, s, c, o);
      assert DataOf(DayAt(After(text, s, c, o).0, date)) == DataOf(DayAt(s, date));
    }
    hide After, DayAt, FoundUnlisted;
  }

  ghost predicate AllFromNormalizer(l: Locale, calls: seq<Call>) {
    forall i :: 0 <= i < |calls| ==> (calls[i].c.summaries.Complete? ==> FromNormalizer(l, calls[i].c.summaries.day))
  }

  /**
   Along runs fed by the normaliser, a project that holds entity slices on a date still does at the end, unless
   some call of the run was an accepted summary declaring the day a verified zero or the project empty, or one that
   overlooks the project.
   */
  lemma {:induction false} DetailSurvives(l: Locale, s: State, calls: seq<Call>, date: string, project: string)
    requires AllFromNormalizer(l, calls) && HoldsDetail(DayAt(s, date), project)
    ensures HoldsDetail(DayAt(StateAfter(l.text, s, calls), date), project)
         || exists i :: 0 <= i < |calls| && var r := OutcomeOf(l.text, s, calls, i);
              EmptiesProject(calls[i].c, r, date, project) || OverlooksProject(calls[i].c, r, date, project)
  {
    hide After, DayAt, HoldsDetail, FromNormalizer, EmptiesProject, OverlooksProject, OutcomeOf;
    if calls != [] {
      var n := |calls| - 1;
      DetailSurvives(l, s, calls[..n], date, project);
      if HoldsDetail(DayAt(StateAfter(l.text, s, calls[..n]), date), project) {
        if calls[n].c.summaries.Complete? { NormalizedIsWellScoped(l, calls[n].c.summaries.day); }
        CallKeepsDetail(l.text, StateAfter(l.text, s, calls[..n]), calls[n].c, calls[n].o, date, project);
        OutcomeIs(l.text, s, calls, n);
      } else {
        var i :| 0 <= i < n && var r := OutcomeOf(l.text, s, calls[..n], i);
          EmptiesProject(calls[..n][i].c, r, date, project) || OverlooksProject(calls[..n][i].c, r, date, project);
        assert calls[..n][i] == calls[i];
        OutcomeIsEarlier(l.text, s, calls, i, n);
      }
    }
  }

  lemma OutcomeIs(text: TextOps, s: State, calls: seq<Call>, i: nat)
    requires i < |calls|
    ensures OutcomeOf(text, s, calls, i) == After(text, StateAfter(text, s, calls[..i]), calls[i].c, calls[i].o).1
  {
    hide After;
  }

  lemma OutcomeIsEarlier(text: TextOps, s: State, calls: seq<Call>, i: nat, n: nat)
    requires i < n <= |calls|
    ensures OutcomeOf(text, s, calls[..n], i) == OutcomeOf(text, s, calls, i)
  {
    hide After;
    assert calls[..n][..i] == calls[..i] && calls[..n][i] == calls[i];
  }

  // ---- One row a slice ----

  lemma {:induction false} CountDistinct(ks: seq<Key>)
    ensures |KeySet(ks)| <= |ks|
    ensures |KeySet(ks)| == |ks| <==> Distinct(ks)
  {
    if ks == [] {
      assert KeySet(ks) == {};
    } else {
      var n := |ks| - 1;
      CountDistinct(ks[..n]);
      assert ks == ks[..n] + [ks[n]];
      assert KeySet(ks) == KeySet(ks[..n]) + {ks[n]};
      DistinctLast(ks);
    }
  }

  lemma DistinctLast(ks: seq<Key>)
    requires ks != []
    ensures Distinct(ks) <==> Distinct(ks[..|ks| - 1]) && ks[|ks| - 1] !in ks[..|ks| - 1]
  {
    var n := |ks| - 1;
    assert forall i :: 0 <= i < n ==> ks[..n][i] == ks[i];
    if ks[n] in ks[..n] {
      var i :| 0 <= i < n && ks[..n][i] == ks[n];
      assert ks[i] == ks[n];
    }
  }

  /** An update stores one row per slice exactly when the re-normalised keys of the slices are distinct. */
  lemma OneRowPerSliceIff(text: TextOps, s: State, c: Candidate, o: CallOptions)
    requires IsUpdate(After(text, s, c, o).1)
    ensures c.summaries.Complete?
    ensures |DayAt(After(text, s, c, o).0, c.date).rows| == |c.summaries.day.slices| <==> DistinctKeys(text, c)
  {
    hide *;
    UpdatedRowsAreKeys(text, s, c, o);
    KeysFit(text, c.summaries.day);
    CountDistinct(RowsKeys(text, c.summaries.day));
    DistinctKeysIs(text, c);
    RowCount(DayAt(After(text, s, c, o).0, c.date).rows);
  }

  lemma RowCount(rows: map<Key, SliceRow>)
    ensures |rows| == |rows.Keys|
  {
  }

  /**
   With distinct keys, a call that passes the guards, brings new content and loses no detail updates exactly when the
   table of dimension totals takes the rows of the day, and throws otherwise; only conflicting heartbeat texts throw
   too.
   */
  lemma UpdatesIff(text: TextOps, s: State, c: Candidate, o: CallOptions)
    requires DistinctKeys(text, c) && o.failure == NoFailure
    ensures IsUpdate(After(text, s, c, o).1) <==> Replaces(s, c, o) && DimensionsStorable(c.summaries.day)
    ensures After(text, s, c, o).1.Threw? <==>
            Aborts(c, o) || (Replaces(s, c, o) && !DimensionsStorable(c.summaries.day))
  {
    Outcomes(text, s, c, o);
    if Replaces(s, c, o) {
      OnlyDimensionsThrow(text, s, c, o, c.summaries.day);
    }
    hide After, AfterUnchanged, AfterUpdate, DayAt, Passes, Aborts, SameContent, LosesDetail, DistinctKeys,
         IsUnchanged, DimensionsStorable;
  }

  lemma OnlyDimensionsThrow(text: TextOps, s: State, c: Candidate, o: CallOptions, day: Day)
    requires DistinctKeys(text, c) && o.failure == NoFailure && c.summaries == Complete(day)
    ensures IsUpdate(AfterUpdate(text, s, c, o, day).1) <==> DimensionsStorable(day)
    ensures AfterUpdate(text, s, c, o, day).1.Threw? <==> !DimensionsStorable(day)
  {
    hide *;
    var before := DayAt(s, c.date);
    var keys, start := RowsKeys(text, day), Work(before.rows, s.nextId);
    DistinctKeysIs(text, c);
    KeysFit(text, day);
    UpdatedRowsIs(text, s, c, day);
    UpsertHolds(start, keys, day.slices, Version(before) + 1);
    var w := UpdatedRows(text, s, c, day).value;
    OverlayFits(start, w, keys, day.slices, Version(before) + 1, before.allocations);
    if DimensionsStorable(day) {
      UpdateIs(text, s, c, o, day, w, OverlayAll(w.rows, before.allocations, keys, day.slices).value);
      UpdatedIsUpdate(AfterUpdate(text, s, c, o, day).1);
    } else {
      UpdateFails(text, s, c, o, day);
      ThrewIsNoUpdate();
    }
  }

  lemma ThrewIsNoUpdate()
    ensures !IsUpdate(Threw)
  {
  }

  lemma UpdatedIsUpdate(r: Outcome)
    requires r.Returned? && r.report.disposition == Updated
    ensures IsUpdate(r)
  {
  }

  // ---- Evidence ----

  /** The active heartbeats of a date are those of its accepted evidence, and all of them are stored. */
  ghost predicate EvidenceSound(s: State) {
    forall date :: date in s.days && s.days[date].evidence.Some? ==>
      s.days[date].evidence.value.members == Ids(s.days[date].evidence.value.content)
          && s.days[date].evidence.value.members <= s.beats.Keys
  }

  /** Evidence of the call's date and stored observations after the call. */
  lemma EvidenceStep(text: TextOps, s: State, c: Candidate, o: CallOptions)
    ensures var after := After(text, s, c, o).0;
            var e, e' := DayAt(s, c.date).evidence, DayAt(after, c.date).evidence;
            && (after.beats == s.beats || (c.heartbeats.Beats? && after.beats == Stored(s.beats, c.heartbeats.beats)))
            && (|| e' == e || e' == Demoted(e)
                || (e.Some? && e' == Some(e.value.(matches := true)))
                || (c.heartbeats.Beats? && e' == Some(AcceptedEvidence(e, c.heartbeats.beats))
                   && after.beats == Stored(s.beats, c.heartbeats.beats)))
  {
    Outcomes(text, s, c, o);
    hide After, SameContent, Conflicted, Stored, Ids, HeartbeatCodes, VerifiedZeroDay, Today, IsUnchanged, Passes,
         LosesDetail, UpdatedRows, OverlayAll, Retained, RowsKeys, AcceptedEvidence;
  }

  /** Stored observations are never rewritten or dropped. */
  lemma {:induction false} BeatsAreImmutable(text: TextOps, s: State, calls: seq<Call>)
    ensures forall id :: id in s.beats ==>
            id in StateAfter(text, s, calls).beats && StateAfter(text, s, calls).beats[id] == s.beats[id]
  {
    if calls != [] {
      var n := |calls| - 1;
      BeatsAreImmutable(text, s, calls[..n]);
      var before, call := StateAfter(text, s, calls[..n]), calls[n];
      EvidenceStep(text, before, call.c, call.o);
      if call.c.heartbeats.Beats? { StoredKeeps(before.beats, call.c.heartbeats.beats); }
      hide After, DayAt, Stored, Demoted, AcceptedEvidence;
    }
  }

  lemma CallKeepsEvidence(text: TextOps, s: State, c: Candidate, o: CallOptions)
    requires EvidenceSound(s)
    ensures EvidenceSound(After(text, s, c, o).0)
  {
    var after := After(text, s, c, o).0;
    EvidenceStep(text, s, c, o);
    if c.heartbeats.Beats? { StoredKeeps(s.beats, c.heartbeats.beats); }
    SameRowsEverywhere(text, s, c, o);
    forall date | date != c.date ensures DayAt(after, date) == DayAt(s, date) {
      OtherDatesStay(text, s, c, o, date);
    }
    hide After, Stored, Ids;
    forall date | date in after.days && after.days[date].evidence.Some?
      ensures after.days[date].evidence.value.members == Ids(after.days[date].evidence.value.content)
      ensures after.days[date].evidence.value.members <= after.beats.Keys
    {
      assert DayAt(after, date) == after.days[date];
      if date !in s.days {
        assert DayAt(s, date).evidence.None?;
      }
    }
  }

  lemma {:induction false} RunsKeepEvidence(text: TextOps, s: State, calls: seq<Call>)
    requires EvidenceSound(s)
    ensures EvidenceSound(StateAfter(text, s, calls))
  {
    if calls != [] {
      RunsKeepEvidence(text, s, calls[..|calls| - 1]);
      CallKeepsEvidence(text, StateAfter(text, s, calls[..|calls| - 1]), calls[|calls| - 1].c, calls[|calls| - 1].o);
      hide After, EvidenceSound;
    }
  }

  /**
   A day is reported as succeeded only for a verified zero, or with the candidate's heartbeats as its active
   evidence.
   */
  lemma SucceededMeansEvidence(text: TextOps, s: State, c: Candidate, o: CallOptions)
    requires EvidenceSound(s) && After(text, s, c, o).1.Returned?
             && After(text, s, c, o).1.report.status == DaySucceeded
    ensures var (after, r) := After(text, s, c, o);
            && (IsUpdate(r) || IsUnchanged(r)) && c.summaries.Complete?
            && (|| VerifiedZeroDay(c.summaries.day)
                || (c.heartbeats.Beats? && !Conflicted(s.beats, c.heartbeats) && DayAt(after, c.date).evidence.Some?
                    && DayAt(after, c.date).evidence.value.members == Ids(c.heartbeats.beats)
                    && DayAt(after, c.date).evidence.value.matches))
  {
    Outcomes(text, s, c, o);
    SucceededOnly(text, s, c, o);
    var d := DayAt(s, c.date);
    if d.evidence.Some? { assert c.date in s.days; }
    hide After, SameContent, Conflicted, Stored, Ids, HeartbeatCodes, VerifiedZeroDay, Today, IsUnchanged, Passes,
         LosesDetail, UpdatedRows, OverlayAll, Retained, RowsKeys;
  }

  lemma SucceededOnly(text: TextOps, s: State, c: Candidate, o: CallOptions)
    requires After(text, s, c, o).1.Returned? && After(text, s, c, o).1.report.status == DaySucceeded
    ensures IsUpdate(After(text, s, c, o).1) || IsUnchanged(After(text, s, c, o).1)
    ensures c.summaries.Complete?
    ensures After(text, s, c, o) == AfterUpdate(text, s, c, o, c.summaries.day)
            || After(text, s, c, o) == AfterUnchanged(s, c, o, c.summaries.day)
  {
    RefusalIsEarly(c);
    StaleIsEarly(DayAt(s, c.date), s.generation, c, o);
    if Refusal(c).None? { UpdateOutcome(text, s, c, o, c.summaries.day); }
    hide Refusal, StaleCall, SameContent, LosesDetail, AfterUpdate, DayAt, HeartbeatCodes, Today, EvidenceAccepted;
  }
}
