/** The executor of one claimed run: the dispatch loop, its stops, and the completion of the run. */
module Coordinator {
  import opened Options
  import opened Outcome
  import opened RunExecution

  class Executor {
    var rows: seq<Row>
    var cancelRequested: bool
    var stopping: bool
    var aborted: bool

    constructor (rows: seq<Row>, cancelRequested: bool, stopping: bool, aborted: bool)
      ensures this.rows == rows && this.cancelRequested == cancelRequested && this.stopping == stopping
              && this.aborted == aborted
    {
      this.rows, this.cancelRequested, this.stopping, this.aborted := rows, cancelRequested, stopping, aborted;
    }

    /** The worker of date i runs while cancel, stop and abort may arrive. */
    method AwaitDay(i: nat, w: Await)
      requires i < |rows|
      modifies this
      ensures |rows| == |old(rows)|
      ensures forall j :: 0 <= j < |rows| && j != i ==>
              rows[j] == if Sweeps(w) then Swept(old(rows[j])) else old(rows[j])
      ensures cancelRequested == (old(cancelRequested) || w.cancel)
      ensures stopping == (old(stopping) || w.stop) && aborted == (old(aborted) || w.abort)
    {
      cancelRequested, stopping, aborted := cancelRequested || w.cancel, stopping || w.stop, aborted || w.abort;
      rows := rows[i := Row(rows[i].date, w.written.status, w.written.disposition, w.written.codes)];
      if Sweeps(w) {
        rows := seq(|rows|, j requires 0 <= j < |rows| reads this => Swept(rows[j]));
      }
    }

    /** markRemainingDates: decided on the rows as they were when the run started. */
    method MarkRemaining(days: seq<Row>, from: nat, status: DayStatus, codes: seq<string>)
      requires |days| == |rows|
      modifies this`rows
      ensures |rows| == |old(rows)|
      ensures forall j :: 0 <= j < |rows| ==>
                rows[j] == if j >= from && Open(days[j]) then Row(days[j].date, status, None, codes) else old(rows[j])
    {
      var j := from;
      while j < |days|
        invariant |rows| == |old(rows)|
        invariant forall k :: 0 <= k < |rows| ==>
                    rows[k] == if from <= k < j && Open(days[k]) then Row(days[k].date, status, None, codes)
                        else old(rows[k])
      {
        if Open(days[j]) {
          rows := rows[j := Row(days[j].date, status, None, codes)];
        }
        j := j + 1;
      }
    }

    /** The three exits of the loop body after an await that threw. */
    method HandleThrown(days: seq<Row>, i: nat, w: Await, failure: Failure) returns (leave: bool)
      requires i < |days| == |rows| && w.result == Thrown(failure)
      requires cancelRequested == w.cancel && (stopping || aborted) == Halted(w)
      modifies this`rows
      ensures |rows| == |days| && rows[i] == Recorded(days[i].date, w)
      ensures leave <==> Stops(w)
      ensures forall j :: 0 <= j < |rows| && j != i ==>
                rows[j] == if leave && j > i && Open(days[j]) then Remaining(days[j].date, w) else old(rows[j])
    {
      if cancelRequested {
        rows := rows[i := Row(days[i].date, Cancelled, None, [CANCELLED_CODE])];
        MarkRemaining(days, i + 1, Cancelled, [CANCELLED_CODE]);
        return true;
      }
      if stopping || aborted || failure == Aborted {
        rows := rows[i := Row(days[i].date, Interrupted, None, [])];
        MarkRemaining(days, i + 1, Interrupted, []);
        return true;
      }
      if failure == AuthFailure {
        rows := rows[i := Row(days[i].date, Failed, None, [AUTH_CODE])];
        MarkRemaining(days, i + 1, Skipped, [AUTH_CODE]);
        return true;
      }
      rows := rows[i := Row(days[i].date, Failed, None, ["OPERATION_ERROR"])];
      leave := false;
    }

    /** After an await that gave a result: leaves the loop, or goes on to the next date. */
    method HandleReturned(days: seq<Row>, i: nat, w: Await) returns (leave: bool)
      requires i < |days| == |rows| && w.result.Returned?
      requires cancelRequested == w.cancel && (stopping || aborted) == Halted(w)
      modifies this`rows
      ensures |rows| == |days| && rows[i] == Recorded(days[i].date, w)
      ensures leave ==> Stops(w)
      ensures Stops(w) && !leave ==> ByFlags(w)
      ensures forall j :: 0 <= j < |rows| && j != i ==>
                rows[j] == if leave && j > i && Open(days[j]) then Remaining(days[j].date, w) else old(rows[j])
    {
      var status, disposition, codes := w.result.status, w.result.disposition, w.result.codes;
      if status == Cancelled {
        if cancelRequested {
          rows := rows[i := Row(days[i].date, Cancelled, None, if |codes| > 0 then codes else [CANCELLED_CODE])];
          MarkRemaining(days, i + 1, Cancelled, [CANCELLED_CODE]);
          return true;
        } else if stopping || aborted {
          rows := rows[i := Row(days[i].date, Interrupted, None, [])];
          MarkRemaining(days, i + 1, Interrupted, []);
          return true;
        }
      }
      if status == Interrupted {
        rows := rows[i := Row(days[i].date, Interrupted, None, codes)];
        MarkRemaining(days, i + 1, Interrupted, []);
        return true;
      }
      rows := rows[i := Row(days[i].date, status, if status == Failed then None else disposition, codes)];
      if AUTH_CODE in codes {
        MarkRemaining(days, i + 1, Skipped, [AUTH_CODE]);
        return true;
      }
      leave := false;
    }

    /** Await date i and handle what came of it. */
    method RunDay(days: seq<Row>, i: nat, w: Await) returns (leave: bool)
      requires i < |days| == |rows| && !cancelRequested && !stopping && !aborted
      modifies this
      ensures |rows| == |days| && rows[i] == Recorded(days[i].date, w)
      ensures leave ==> Stops(w)
      ensures Stops(w) && !leave ==> ByFlags(w)
      ensures forall j :: 0 <= j < |rows| && j != i ==>
                rows[j] == if leave && j > i && Open(days[j]) then Remaining(days[j].date, w)
                    else if Sweeps(w) then Swept(old(rows[j])) else old(rows[j])
      ensures cancelRequested == w.cancel && (stopping || aborted) == Halted(w)
    {
      hide Recorded, Remaining, Stops, Swept;
      AwaitDay(i, w);
      match w.result {
        case Thrown(failure) => leave := HandleThrown(days, i, w, failure);
        case Returned(_, _, _) => leave := HandleReturned(days, i, w);
      }
    }

    /** The loop over the dates of the run. */
    method Dispatch(days: seq<Row>, world: nat -> Await) returns (dispatched: seq<nat>)
      requires rows == days && !cancelRequested && !stopping && !aborted
      modifies this
      ensures LoopDone(rows, days, world)
      ensures cancelRequested == CancelledAtEnd(days, world) && (stopping || aborted) == HaltedAtEnd(days, world)
      ensures Ascending(dispatched)
      ensures forall j: nat :: j in dispatched <==> j < |days| && Open(days[j]) && j <= FirstStop(days, world, 0)
    {
      dispatched := [];
      LoopStarts(days, world);
      BeforeBound(rows, days, world, 0);
      hide *;
      ghost var s := FirstStop(days, world, 0);
      var i, leave := 0, false;
      while i < |days| && !leave
        invariant i <= |days| && s <= |days| && |rows| == |days|
        invariant DispatchedUpTo(dispatched, days, s, i)
        invariant leave ==> s < i && LoopDone(rows, days, world)
        invariant !leave && i <= s ==> BeforeStop(rows, days, world, i) && !cancelRequested && !stopping && !aborted
        invariant !leave && i > s ==> BehindStop(rows, days, world) && NoneOpen(days, s, i) && ByFlags(world(s))
        invariant i > s ==> cancelRequested == world(s).cancel && (stopping || aborted) == Halted(world(s))
        decreases |days| - i, if leave then 0 else 1
      {
        if i > s { FlagsMark(world(s)); }
        if !Open(days[i]) {
          DispatchNone(dispatched, days, s, i);
          if i <= s {
            Pass(rows, days, world, i);
            BeforeBound(rows, days, world, i + 1);
          }
          i := i + 1;
        } else if cancelRequested {
          leave := MarkFrom(days, world, i, Cancelled, [CANCELLED_CODE]);
        } else if stopping || aborted {
          leave := MarkFrom(days, world, i, Interrupted, []);
        } else {
          StopAt(days, world, i);
          DispatchOne(dispatched, days, s, i);
          dispatched := dispatched + [i];
          leave := RunAndSettle(days, world, i);
          i := i + 1;
        }
      }
      DispatchEnd(dispatched, days, s, i);
      if !leave {
        if i <= s { NoStopDone(rows, days, world); } else { BehindDone(rows, days, world); }
      }
      EndFlagsAre(days, world);
    }

    /** The check before a date finds a flag raised: all later unfinished dates are marked. */
    method MarkFrom(days: seq<Row>, world: nat -> Await, i: nat, status: DayStatus, codes: seq<string>)
      returns (leave: bool)
      requires |rows| == |days| && BehindStop(rows, days, world) && NoneOpen(days, FirstStop(days, world, 0), i)
               && FirstStop(days, world, 0) < i
      requires var w := world(FirstStop(days, world, 0));
               ByFlags(w) && (status == if w.cancel then Cancelled else Interrupted)
                   && (codes == if w.cancel then [CANCELLED_CODE] else [])
      modifies this`rows
      ensures leave && |rows| == |days| && LoopDone(rows, days, world)
    {
      hide FirstStop, BehindStop, LoopDone, Remaining, ByFlags, NoneOpen;
      ghost var before := rows;
      ghost var w := world(FirstStop(days, world, 0));
      FlagsMark(w);
      MarkRemaining(days, i, status, codes);
      NoneOpenIs(days, FirstStop(days, world, 0), i);
      BehindLength(before, days, world);
      MarkRest(rows, before, days, world, i);
      leave := true;
    }

    /** Await and handle date i, which no flag holds back. */
    method RunAndSettle(days: seq<Row>, world: nat -> Await, i: nat) returns (leave: bool)
      requires i < |days| && Open(days[i]) && BeforeStop(rows, days, world, i) && |rows| == |days|
      requires !cancelRequested && !stopping && !aborted
      modifies this
      ensures |rows| == |days| && cancelRequested == world(i).cancel && (stopping || aborted) == Halted(world(i))
      ensures leave ==> i == FirstStop(days, world, 0) && LoopDone(rows, days, world)
      ensures !leave && i < FirstStop(days, world, 0) ==>
              BeforeStop(rows, days, world, i + 1) && !cancelRequested && !stopping && !aborted
      ensures !leave && i == FirstStop(days, world, 0) ==>
              BehindStop(rows, days, world) && NoneOpen(days, i, i + 1) && ByFlags(world(i))
    {
      hide *;
      ghost var before := rows;
      var w := world(i);
      BeforeBound(rows, days, world, i);
      StopAt(days, world, i);
      leave := RunDay(days, i, w);
      if leave {
        LeaveHere(rows, before, days, world, i);
      } else {
        HandledIs(rows, before, days, i, w);
        if Stops(w) {
          StopHere(rows, before, days, world, i);
          NoneOpenAtAll(days, i);
        } else {
          GoOn(rows, before, days, world, i);
          QuietFlags(w);
        }
      }
    }

    /** Rows that are still unfinished after the loop get a terminal status. */
    method SettleRows(days: seq<Row>, world: nat -> Await)
      requires LoopDone(rows, days, world)
      requires cancelRequested == CancelledAtEnd(days, world) && (stopping || aborted) == HaltedAtEnd(days, world)
      modifies this`rows
      ensures rows == FinalRows(days, world)
    {
      hide LoopRow, CancelledAtEnd, HaltedAtEnd;
      var updated := rows;
      for j := 0 to |updated|
        invariant |rows| == |updated|
        invariant forall k :: 0 <= k < |rows| ==>
                  rows[k] == if k < j then Settled(updated[k], cancelRequested, stopping || aborted) else updated[k]
      {
        if Open(updated[j]) {
          var status := if cancelRequested then Cancelled else if stopping || aborted then Interrupted else Skipped;
          rows := rows[j := Row(updated[j].date, status, None, [])];
        }
      }
      FinalRowsAre(rows, days, world);
    }

    /** Cancelled or interrupted before the first date: every row is marked, nothing is dispatched. */
    method FinishUnstarted(cancelled: bool) returns (outcome: Option<Aggregate>)
      modifies this`rows
      ensures rows == MarkedRows(old(rows), cancelled)
      ensures outcome.Some? && outcome.value.status == if cancelled then RunCancelled else RunInterrupted
    {
      var days := rows;
      for j := 0 to |days|
        invariant |rows| == |days|
        invariant forall k :: 0 <= k < |rows| ==> rows[k] == if k < j then Marked(days[k], cancelled) else days[k]
      {
        rows := rows[j := Marked(days[j], cancelled)];
      }
      outcome := AggregateRunOutcome([], Flags(cancelled, !cancelled, None));
      assert rows == MarkedRows(days, cancelled);
    }

    /** Refreshing the user-agent registry has no date rows. */
    method ExecuteRegistry(client: bool, refresh: Refresh) returns (outcome: Option<Aggregate>)
      modifies this`cancelRequested, this`stopping, this`aborted
      ensures outcome.Some? && outcome.value.status
              == RegistryStatus(old(cancelRequested), old(stopping || aborted), client, refresh)
      ensures rows == old(rows)
    {
      if cancelRequested || stopping || aborted {
        outcome := AggregateRunOutcome([], Flags(cancelRequested, !cancelRequested, None));
        return;
      }
      if !client {
        outcome := AggregateRunOutcome([], Flags(false, false, Some(false)));
        return;
      }
      cancelRequested, stopping, aborted := refresh.cancel, refresh.stop, refresh.abort;
      if refresh.threw.None? {
        outcome := AggregateRunOutcome([], Flags(false, false, Some(true)));
      } else if cancelRequested {
        outcome := AggregateRunOutcome([], Flags(true, false, None));
      } else if stopping || aborted || refresh.threw == Some(Aborted) {
        outcome := AggregateRunOutcome([], Flags(false, true, None));
      } else {
        outcome := AggregateRunOutcome([], Flags(false, false, Some(false)));
      }
    }

    /**
     executeRun for a run with date rows: every behaviour of the workers and every arrival of cancel, stop and abort.
     The aggregation never meets a nonterminal row, so an outcome always comes back.
     */
    method ExecuteRun(world: nat -> Await) returns (outcome: Option<Aggregate>, dispatched: seq<nat>)
      modifies this
      ensures outcome.Some? && AllTerminal(rows) && |rows| == |old(rows)|
      ensures Ascending(dispatched)
      ensures var hindered := old(cancelRequested || stopping || aborted);
              if hindered then
                && dispatched == [] && rows == MarkedRows(old(rows), old(cancelRequested))
                && outcome.value.status == if old(cancelRequested) then RunCancelled else RunInterrupted
              else
                && rows == FinalRows(old(rows), world)
                && (forall j: nat ::
                   j in dispatched <==> j < |old(rows)| && Open(old(rows)[j]) && j <= FirstStop(old(rows), world, 0))
                && outcome.value.status == StatusOf(rows,
                   EndFlags(rows, CancelledAtEnd(old(rows), world), HaltedAtEnd(old(rows), world)))
                && (outcome.value.status == RunSucceeded <==> old(rows) != [] && CleanRun(old(rows), world))
                && (outcome.value.status == RunSucceeded <==> old(rows) != [] && GoodRun(old(rows), world))
    {
      hide *;
      CleanRunMeans(rows, world);
      dispatched := [];
      ghost var before := rows;
      NothingDispatched();
      if cancelRequested || stopping || aborted {
        outcome := FinishUnstarted(cancelRequested);
        MarkedAreTerminal(before, cancelRequested);
        return;
      }
      var days := rows;
      SucceedsIff(days, world);
      FinalRowsAreTerminal(days, world);
      if |days| == 0 {
        outcome := AggregateRunOutcome([], Flags(false, false, None));
        EmptyRun(days, world);
        return;
      }
      dispatched := Dispatch(days, world);
      SettleRows(days, world);
      var cancelled := cancelRequested || (HasStatus(rows, Cancelled) && !(stopping || aborted));
      var interrupted := !cancelled && (stopping || aborted || HasStatus(rows, Interrupted));
      EndFlagsIs(rows, cancelRequested, stopping || aborted);
      NeverThrows(rows, Flags(cancelled, interrupted, None));
      outcome := AggregateRunOutcome(rows, Flags(cancelled, interrupted, None));
    }
  }

  datatype Refresh = Refresh(threw: Option<Failure>, cancel: bool, stop: bool, abort: bool)

  /** A registry run: success of the refresh wins over a cancel that arrives meanwhile; a failure does not. */
  function RegistryStatus(cancelled: bool, halted: bool, client: bool, refresh: Refresh): RunStatus {
    if cancelled then RunCancelled
    else if halted then RunInterrupted
    else if !client then RunFailed
    else if refresh.threw.None? then RunSucceeded
    else if refresh.cancel then RunCancelled
    else if refresh.stop || refresh.abort || refresh.threw == Some(Aborted) then RunInterrupted
    else RunFailed
  }

  function Marked(r: Row, cancelled: bool): Row {
    if cancelled then Row(r.date, Cancelled, None, [CANCELLED_CODE]) else Row(r.date, Interrupted, None, [])
  }

  function MarkedRows(rows: seq<Row>, cancelled: bool): seq<Row> {
    seq(|rows|, j requires 0 <= j < |rows| => Marked(rows[j], cancelled))
  }

  lemma MarkedAreTerminal(rows: seq<Row>, cancelled: bool)
    ensures AllTerminal(MarkedRows(rows, cancelled)) && |MarkedRows(rows, cancelled)| == |rows|
  {
  }

  lemma NothingDispatched()
    ensures Ascending([])
  {
  }

  lemma FinalRowsAre(now: seq<Row>, rows: seq<Row>, world: nat -> Await)
    requires |now| == |rows|
    requires forall j :: 0 <= j < |rows| ==>
             now[j] == Settled(LoopRow(rows, world, j), CancelledAtEnd(rows, world), HaltedAtEnd(rows, world))
    ensures now == FinalRows(rows, world)
  {
    hide LoopRow, Settled, CancelledAtEnd, HaltedAtEnd;
  }

  lemma EmptyRun(rows: seq<Row>, world: nat -> Await)
    requires |rows| == 0
    ensures FinalRows(rows, world) == rows && FirstStop(rows, world, 0) == 0
    ensures StatusOf([], Flags(false, false, None))
            == StatusOf(rows, EndFlags(rows, CancelledAtEnd(rows, world), HaltedAtEnd(rows, world)))
    ensures !Throws([], Flags(false, false, None))
  {
    assert rows == [];
  }

  lemma EndFlagsIs(rows: seq<Row>, cancel: bool, halted: bool)
    ensures var cancelled := cancel || (HasStatus(rows, Cancelled) && !halted);
            EndFlags(rows, cancel, halted)
                == Flags(cancelled, !cancelled && (halted || HasStatus(rows, Interrupted)), None)
  {
    hide HasStatus;
  }

  lemma NeverThrows(rows: seq<Row>, f: Flags)
    requires AllTerminal(rows)
    ensures !Throws(rows, f)
  {
  }

  lemma EndFlagsAre(rows: seq<Row>, world: nat -> Await)
    ensures var s := FirstStop(rows, world, 0);
            && (CancelledAtEnd(rows, world) <==> s < |rows| && world(s).cancel)
            && (HaltedAtEnd(rows, world) <==> s < |rows| && Halted(world(s)))
  {
  }

  lemma NoneOpenIs(rows: seq<Row>, s: nat, i: nat)
    ensures NoneOpen(rows, s, i) <==> forall j :: s < j < i && j < |rows| ==> !Open(rows[j])
  {
  }

  lemma NoneOpenAtAll(rows: seq<Row>, i: nat)
    ensures NoneOpen(rows, i, i + 1)
  {
  }

  lemma BehindLength(now: seq<Row>, rows: seq<Row>, world: nat -> Await)
    requires BehindStop(now, rows, world)
    ensures |now| == |rows| && FirstStop(rows, world, 0) < |rows|
  {
  }

  lemma HandledIs(now: seq<Row>, before: seq<Row>, rows: seq<Row>, i: nat, w: Await)
    requires |now| == |before| == |rows| && i < |rows| && now[i] == Recorded(rows[i].date, w)
    requires forall j :: 0 <= j < |rows| && j != i ==> now[j] == if Sweeps(w) then Swept(before[j]) else before[j]
    ensures Handled(now, before, rows, i, w)
  {
  }
}
