/** What each step of the run queue does to a run, and what a recovery retry looks like. */
module QueueSteps {
  import opened Options
  import opened Orders
  import opened Locales
  import opened RunQueue
  import opened Recovery
  import Calendar
  import O = Outcome

  // ---- Intake ----

  lemma {:induction false} WaitingMeans(runs: seq<Run>)
    ensures CountWaiting(runs) == |set i | 0 <= i < |runs| && (runs[i].state == Queued || runs[i].state == Active)|
  {
    var all := set i | 0 <= i < |runs| && (runs[i].state == Queued || runs[i].state == Active);
    if runs != [] {
      var n := |runs| - 1;
      WaitingMeans(runs[..n]);
      var init := set i | 0 <= i < |runs[..n]| && (runs[..n][i].state == Queued || runs[..n][i].state == Active);
      assert all == init + if runs[n].state == Queued || runs[n].state == Active then {n} else {};
    } else {
      assert all == {};
    }
  }

  /** A run enters the queue with its request and one pending date for each date asked for. */
  lemma EnteredMeans(payload: Payload, key: string, dates: seq<string>, byRecovery: bool)
    ensures var r := NewRun(payload, key, dates, byRecovery);
            && r.payload == payload && r.key == key && r.byRecovery == byRecovery && r.state == Queued
            && !r.cancelRequested && !r.cancelCode && |r.days| == |dates|
            && forall i :: 0 <= i < |dates| ==> r.days[i] == DayEntry(dates[i], O.Pending)
  {
  }

  /** Every answer of the intake. */
  lemma IntakeMeans(l: Locale, s: State, payload: Payload, key: string, dates: seq<string>, byRecovery: bool)
    requires Lawful(l)
    ensures var r := Enqueue(l, s, payload, key, dates, byRecovery).1;
            var known := key != "" && exists i :: 0 <= i < |s.runs| && s.runs[i].key == key;
            var waiting := |set i | 0 <= i < |s.runs| && (s.runs[i].state == Queued || s.runs[i].state == Active)|;
            && (r.Reused? || r.KeyConflict? <==> known)
            && (r.Reused? ==> r.id < |s.runs| && s.runs[r.id].key == key && SameRequest(s.runs[r.id].payload, payload))
            && (r.KeyConflict? ==> exists i ::
               0 <= i < |s.runs| && s.runs[i].key == key && !SameRequest(s.runs[i].payload, payload))
            && (r.QueueFull? <==> !known && waiting >= 10)
            && (r.Created? <==> !known && waiting < 10
                                && (payload.resumedFrom.Some? ==> payload.resumedFrom.value < |s.runs|)
                                && forall i, j :: 0 <= i < j < |dates| ==> dates[i] != dates[j])
  {
    EnqueueIs(l, s, payload, key, dates, byRecovery);
    FindKeyIs(s.runs, key, 0);
    WaitingMeans(s.runs);
    forall i | 0 <= i < |s.runs|
      ensures Hashed(l, s.runs[i].payload) == Hashed(l, payload) <==> SameRequest(s.runs[i].payload, payload)
    {
      SameHashIff(l, s.runs[i].payload, payload);
    }
    hide FindKey, CountWaiting, NewRun, Hashed, SameRequest, Lawful;
  }

  // ---- Cancelling, completing, writing, interrupting ----

  /** Dates that are pending or running get the status, the others stay. */
  ghost predicate ClosedAs(before: seq<DayEntry>, after: seq<DayEntry>, status: O.DayStatus) {
    && |after| == |before|
    && forall i :: 0 <= i < |before| ==>
         && after[i].date == before[i].date
         && after[i].status ==
            if before[i].status == O.Pending || before[i].status == O.Running then status else before[i].status
  }

  /** Everything about the run but its state, dates and cancel marks. */
  ghost predicate SameIdentity(a: Run, b: Run) {
    a.payload == b.payload && a.key == b.key && a.byRecovery == b.byRecovery
  }

  /** A step about one run leaves the number of runs and all other runs alone. */
  ghost predicate Touches(s: State, after: State, id: nat) {
    && |after.runs| == |s.runs| && after.scheduling == s.scheduling
    && forall i :: 0 <= i < |s.runs| && i != id ==> after.runs[i] == s.runs[i]
  }

  /** A queued run is cancelled at once, an active one is asked to cancel, an ended one stays. */
  lemma CancelMeans(s: State, id: nat)
    ensures Touches(s, Cancel(s, id), id)
    ensures id < |s.runs| ==>
              var a, b := s.runs[id], Cancel(s, id).runs[id];
              && SameIdentity(a, b) && b.cancelCode == a.cancelCode
              && (a.state == Queued ==> b.state == Ended(O.RunCancelled) && b.cancelRequested == a.cancelRequested
                                        && ClosedAs(a.days, b.days, O.Cancelled))
              && (a.state == Active ==> b.state == Active && b.cancelRequested && b.days == a.days)
              && (a.state.Ended? ==> b == a)
  {
  }

  lemma CompleteMeans(s: State, id: nat, status: O.RunStatus, cancelCode: bool)
    ensures Touches(s, Complete(s, id, status, cancelCode), id)
    ensures id < |s.runs| ==>
              var a, b := s.runs[id], Complete(s, id, status, cancelCode).runs[id];
              if a.state == Active then
                SameIdentity(a, b) && b.state == Ended(status) && b.cancelCode == cancelCode && b.days == a.days
                && b.cancelRequested == a.cancelRequested
              else b == a
  {
  }

  /** Only the executor of the active run writes dates, and only unfinished ones. */
  lemma WriteMeans(s: State, id: nat, i: nat, status: O.DayStatus)
    ensures Touches(s, WriteDay(s, id, i, status), id)
    ensures id < |s.runs| ==>
              var a, b := s.runs[id], WriteDay(s, id, i, status).runs[id];
              if a.state == Active && i < |a.days|
                  && (a.days[i].status == O.Pending || a.days[i].status == O.Running) then
                b == a.(days := a.days[i := DayEntry(a.days[i].date, status)])
              else b == a
  {
  }

  /** A restart ends the active runs as interrupted, with their unfinished dates. */
  lemma InterruptMeans(s: State)
    ensures |InterruptAll(s).runs| == |s.runs| && InterruptAll(s).scheduling == s.scheduling
    ensures forall i :: 0 <= i < |s.runs| ==>
              var a, b := s.runs[i], InterruptAll(s).runs[i];
              if a.state == Active then
                SameIdentity(a, b) && b.state == Ended(O.RunInterrupted) && ClosedAs(a.days, b.days, O.Interrupted)
                && b.cancelRequested == a.cancelRequested && b.cancelCode == a.cancelCode
              else b == a
  {
  }

  /** A claim makes one queued run active, when none is. */
  lemma ClaimMeans(s: State)
    ensures var after := Claim(s);
            if (forall i :: 0 <= i < |s.runs| ==> s.runs[i].state != Active)
               && exists i :: 0 <= i < |s.runs| && s.runs[i].state == Queued
            then exists id :: 0 <= id < |s.runs| && s.runs[id].state == Queued && Touches(s, after, id)
                              && after.runs[id] == s.runs[id].(state := Active)
            else after == s
  {
    ClaimOrder(s);
    hide FirstQueued;
    var id := Claimable(s);
    if id.Some? {
      assert Touches(s, Claim(s), id.value);
    }
  }

  // ---- Recovery retries ----

  predicate LeftOpen(d: DayEntry) {
    d.status == O.Interrupted || d.status == O.Pending
  }

  lemma {:induction false} UnfinishedMeans(days: seq<DayEntry>)
    ensures forall date ::
            date in UnfinishedDates(days) <==> exists i :: 0 <= i < |days| && days[i].date == date && LeftOpen(days[i])
  {
    if days != [] {
      var n := |days| - 1;
      UnfinishedMeans(days[..n]);
      forall date
        ensures date in UnfinishedDates(days) <==>
                exists i :: 0 <= i < |days| && days[i].date == date && LeftOpen(days[i])
      {
        if i :| 0 <= i < |days| && days[i].date == date && LeftOpen(days[i]) {
          if i < n { assert days[..n][i] == days[i]; }
        }
        if date in UnfinishedDates(days[..n]) {
          var i :| 0 <= i < n && days[..n][i].date == date && LeftOpen(days[..n][i]);
          assert days[i].date == date && LeftOpen(days[i]);
        }
      }
    }
  }

  /**
   A run of which the interruption is to be made good: not cancelled, without a retry, and with something left to
   do.
   */
  ghost predicate NeedsRetry(s: State, id: nat, scheduling: bool) {
    && id < |s.runs|
    && var r := s.runs[id];
       && !r.cancelRequested && !r.cancelCode && r.state != Ended(O.RunCancelled)
       && (forall i :: 0 <= i < |s.runs| ==> s.runs[i].payload.resumedFrom != Some(id))
       && (r.payload.trigger == Manual || scheduling)
       && (r.payload.mode == Registry || exists i :: 0 <= i < |r.days| && LeftOpen(r.days[i]))
  }

  lemma NeedsRetryIs(l: Locale, s: State, id: nat, scheduling: bool)
    ensures NeedsRetry(s, id, scheduling) <==> WantsRetry(l, s, id, scheduling)
  {
    if id < |s.runs| {
      var days := s.runs[id].days;
      UnfinishedMeans(days);
      SortMembers(UnfinishedDates(days), l.ordinal);
      hide UnfinishedDates, Sort;
      var dates := RetryDates(l, s.runs[id]);
      if dates != [] { assert dates[0] in dates; }
      if i :| 0 <= i < |days| && LeftOpen(days[i]) { assert days[i].date in dates; }
    }
  }

  ghost predicate HasDate(days: seq<DayEntry>, date: string) {
    exists i :: 0 <= i < |days| && days[i].date == date
  }

  ghost predicate LeftOpenAt(days: seq<DayEntry>, date: string) {
    exists i :: 0 <= i < |days| && days[i].date == date && LeftOpen(days[i])
  }

  /** The request of a retry: the mode of the run or a retry of its open dates, from the first to the last of them. */
  ghost predicate RetryRequest(l: Locale, parent: Run, id: nat, r: Run) {
    && r.state == Queued && r.byRecovery && r.payload.trigger == parent.payload.trigger
    && r.payload.resumedFrom == Some(id) && r.key == "recovery-run-" + Calendar.Decimal(id)
    && (forall i :: 0 <= i < |r.days| ==> r.days[i].status == O.Pending)
    && if parent.payload.mode == Registry then
         r.payload.mode == Registry && r.days == [] && r.payload.start.None? && r.payload.end.None?
             && r.payload.retryDates.None?
       else
         && r.payload.mode == Retry && r.days != []
         && r.payload.retryDates == Some(DatesOf(r))
         && r.payload.start == Some(r.days[0].date) && r.payload.end == Some(r.days[|r.days| - 1].date)
         && (forall i, j :: 0 <= i < j < |r.days| ==> l.ordinal(r.days[i].date, r.days[j].date))
         && forall date :: HasDate(r.days, date) <==> LeftOpenAt(parent.days, date)
  }

  lemma RetryPayloadMeans(l: Locale, parent: Run, id: nat, r: Run)
    requires Lawful(l) && (parent.payload.mode == Registry || RetryDates(l, parent) != [])
    requires r == NewRun(RetryPayload(l, parent, id), RecoveryKey(id),
                         if parent.payload.mode == Registry then [] else RetryDates(l, parent), true)
    ensures RetryRequest(l, parent, id, r)
  {
    var dates := RetryDates(l, parent);
    UnfinishedMeans(parent.days);
    SortMembers(UnfinishedDates(parent.days), l.ordinal);
    SortSorted(UnfinishedDates(parent.days), l.ordinal);
    hide UnfinishedDates, Sort, Calendar.Decimal;
    if parent.payload.mode != Registry {
      assert DatesOf(r) == dates;
      forall i | 0 <= i < |r.days| ensures r.days[i].date == dates[i] {}
      forall date ensures HasDate(r.days, date) <==> LeftOpenAt(parent.days, date) {
        assert date in dates <==> LeftOpenAt(parent.days, date);
        if date in dates {
          var i :| 0 <= i < |dates| && dates[i] == date;
          assert r.days[i].date == date;
        }
      }
    }
  }

  /** Linking adds the retry, finds that its key is known, fails, or has nothing to do. */
  lemma LinkMeans(l: Locale, s: State, id: nat, scheduling: bool)
    requires Lawful(l)
    ensures var (after, r) := LinkRetry(l, s, id, scheduling);
            && (r.NotLinked? <==> !NeedsRetry(s, id, scheduling))
            && (r.Linked? && r.id == |s.runs| ==>
                  after.runs == s.runs + [after.runs[|s.runs|]]
                      && RetryRequest(l, s.runs[id], id, after.runs[|s.runs|]))
            && (!(r.Linked? && r.id == |s.runs|) ==> after == s)
  {
    NeedsRetryIs(l, s, id, scheduling);
    if WantsRetry(l, s, id, scheduling) {
      WantsMeans(l, s, id, scheduling);
      var parent := s.runs[id];
      var dates := if parent.payload.mode == Registry then [] else RetryDates(l, parent);
      EnqueueIs(l, s, RetryPayload(l, parent, id), RecoveryKey(id), dates, true);
      RetryPayloadMeans(l, parent, id, NewRun(RetryPayload(l, parent, id), RecoveryKey(id), dates, true));
    }
    hide Enqueue, NewRun, RetryPayload, RetryRequest, WantsRetry, NeedsRetry, RecoveryKey, CountWaiting, Hashed,
         RetryDates, Lawful;
  }

  lemma WantsMeans(l: Locale, s: State, id: nat, scheduling: bool)
    requires WantsRetry(l, s, id, scheduling)
    ensures id < |s.runs| && (s.runs[id].payload.mode == Registry || RetryDates(l, s.runs[id]) != [])
  {
    hide RetryDates, HasRetry;
  }
}
