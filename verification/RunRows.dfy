/** The rows that an executed run leaves behind, said of what happened at each of its dates. */
module RunRows {
  import opened Options
  import opened Outcome
  import opened RunExecution
  import Coordinator

  predicate Finished(r: Row) {
    r.status != Pending && r.status != Running
  }

  /**
   No date is dispatched after this one: a cancel, stop or abort arrived, authentication failed, or the work was
   aborted or interrupted.
   */
  predicate EndsDispatch(w: Await) {
    || w.cancel || w.stop || w.abort
    || match w.result
       case Thrown(failure) => failure == AuthFailure || failure == Aborted
       case Returned(status, _, codes) => status == Interrupted || "AUTH_FAILED" in codes
  }

  /** The first unfinished date that ends the dispatch, or the number of rows. */
  ghost predicate IsLastWorked(rows: seq<Row>, world: nat -> Await, s: nat) {
    && s <= |rows|
    && (forall j :: 0 <= j < s ==> Finished(rows[j]) || !EndsDispatch(world(j)))
    && (s < |rows| ==> !Finished(rows[s]) && EndsDispatch(world(s)))
  }

  lemma LastWorkedIs(rows: seq<Row>, world: nat -> Await, s: nat)
    ensures IsLastWorked(rows, world, s) <==> s == FirstStop(rows, world, 0)
  {
    FirstStopIs(rows, world, 0);
    assert forall w :: EndsDispatch(w) <==> Stops(w);
    var t := FirstStop(rows, world, 0);
    hide EndsDispatch, Stops, FirstStop;
    assert IsLastWorked(rows, world, t);
    if IsLastWorked(rows, world, s) { OneLastWorked(rows, world, s, t); }
  }

  lemma OneLastWorked(rows: seq<Row>, world: nat -> Await, s: nat, t: nat)
    requires IsLastWorked(rows, world, s) && IsLastWorked(rows, world, t)
    ensures s == t
  {
    hide EndsDispatch, Finished;
  }

  /** The row of a date right after its work, by what came back and which flags were up. */
  ghost predicate WorkedRow(date: string, w: Await, r: Row) {
    match w.result
    case Thrown(failure) =>
      if w.cancel then r == Row(date, Cancelled, None, ["RUN_CANCELLED"])
      else if w.stop || w.abort || failure == Aborted then r == Row(date, Interrupted, None, [])
      else r == Row(date, Failed, None, if failure == AuthFailure then ["AUTH_FAILED"] else ["OPERATION_ERROR"])
    case Returned(status, disposition, codes) =>
      if status == Cancelled && w.cancel then
        r == Row(date, Cancelled, None, if codes == [] then ["RUN_CANCELLED"] else codes)
      else if status == Cancelled && (w.stop || w.abort) then r == Row(date, Interrupted, None, [])
      else if status == Interrupted then r == Row(date, Interrupted, None, codes)
      else if status == Failed then r == Row(date, Failed, None, codes)
      else r == Row(date, status, disposition, codes)
  }

  /** The row of a date that was not reached, by how the dispatch ended. */
  ghost predicate UnreachedRow(date: string, w: Await, r: Row) {
    var cancelledRow, interruptedRow, skippedRow :=
      Row(date, Cancelled, None, ["RUN_CANCELLED"]), Row(date, Interrupted, None, []),
      Row(date, Skipped, None, ["AUTH_FAILED"]);
    match w.result
    case Thrown(failure) =>
      r == if w.cancel then cancelledRow
           else if w.stop || w.abort || failure == Aborted then interruptedRow else skippedRow
    case Returned(status, _, codes) =>
      if status == Interrupted then r == interruptedRow
      else if status == Cancelled && w.cancel then r == cancelledRow
      else if status == Cancelled && (w.stop || w.abort) then r == interruptedRow
      else if "AUTH_FAILED" in codes then r == skippedRow
      else r == if w.cancel then cancelledRow else interruptedRow
  }

  /** Every row of a finished run, given the last date that was worked on. */
  lemma RowMeans(rows: seq<Row>, world: nat -> Await, s: nat, j: nat)
    requires IsLastWorked(rows, world, s) && j < |rows|
    ensures var r := FinalRow(rows, world, j);
            if Finished(rows[j]) then r == rows[j]
            else if j > s then UnreachedRow(rows[j].date, world(s), r)
            else exists worked ::
              && WorkedRow(rows[j].date, world(j), worked)
              && (Finished(worked) ==> r == worked)
              && (!Finished(worked) ==>
                    r == Row(worked.date,
                             if j < s < |rows| && world(s).stop && world(s).swept then Interrupted
                             else if s < |rows| && world(s).cancel then Cancelled
                             else if s < |rows| && (world(s).stop || world(s).abort) then Interrupted
                             else Skipped,
                             None, []))
  {
    LastWorkedIs(rows, world, s);
    var worked := Recorded(rows[j].date, world(j));
    assert WorkedRow(rows[j].date, world(j), worked);
    if s < |rows| {
      var r := Remaining(rows[j].date, world(s));
      assert UnreachedRow(rows[j].date, world(s), r);
      assert Finished(r);
    }
    hide Recorded, Remaining, WorkedRow, UnreachedRow, FirstStop, EndsDispatch;
  }

  /** A run that is cancelled or stopped before its first date. */
  lemma UnstartedMeans(rows: seq<Row>, cancelled: bool, j: nat)
    requires j < |rows|
    ensures Coordinator.MarkedRows(rows, cancelled)[j] ==
            if cancelled then Row(rows[j].date, Cancelled, None, ["RUN_CANCELLED"])
                else Row(rows[j].date, Interrupted, None, [])
  {
  }

  /** The outcome of a registry run. */
  lemma RegistryMeans(cancelled: bool, halted: bool, client: bool, refresh: Coordinator.Refresh)
    ensures var status := Coordinator.RegistryStatus(cancelled, halted, client, refresh);
            && (status == RunSucceeded <==> !cancelled && !halted && client && refresh.threw.None?)
            && (status == RunCancelled <==> cancelled || (!halted && client && refresh.threw.Some? && refresh.cancel))
            && (status == RunInterrupted <==>
                !cancelled
                && (halted || (client && refresh.threw.Some? && !refresh.cancel
                               && (refresh.stop || refresh.abort || refresh.threw == Some(Aborted)))))
            && status != RunPartial
  {
  }
}
