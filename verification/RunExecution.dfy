/**
 What the execution of one run amounts to, for every behaviour of the single-date worker and every arrival of
 cancel, stop and abort during an await.
 */
module RunExecution {
  import opened Options
  import ArchiveModel
  import opened Outcome

  datatype Failure = Aborted | AuthFailure | OtherFailure
  datatype WorkerResult = Returned(status: DayStatus, disposition: Option<ArchiveModel.Disposition>,
                                   codes: seq<string>) | Thrown(failure: Failure)

  /**
   What happens while one date is awaited: what the worker wrote into its row, what it gave back, whether a cancel was
   requested, the coordinator was stopped or the signal aborted, and whether a stop gave up waiting and marked the
   unfinished rows itself.
   */
  datatype Await = Await(written: WorkerWrite, result: WorkerResult, cancel: bool, stop: bool, abort: bool, swept: bool)
  datatype WorkerWrite = WorkerWrite(status: DayStatus, disposition: Option<ArchiveModel.Disposition>,
                                     codes: seq<string>)

  const CANCELLED_CODE := "RUN_CANCELLED"
  const AUTH_CODE := "AUTH_FAILED"

  predicate Open(r: Row) { !Terminal(r.status) }

  predicate Halted(w: Await) { w.stop || w.abort }
  predicate Raises(w: Await) { w.cancel || Halted(w) }

  /** Only a stop that gave up waiting marks rows. */
  predicate Sweeps(w: Await) { w.stop && w.swept }

  predicate AuthFailed(w: Await) {
    match w.result
    case Thrown(f) => f == AuthFailure
    case Returned(_, _, codes) => AUTH_CODE in codes
  }

  /** No further date is dispatched after this await. */
  predicate Stops(w: Await) {
    Raises(w) || AuthFailed(w) || w.result == Thrown(Aborted) || (w.result.Returned? && w.result.status == Interrupted)
  }

  /** The row of the awaited date as the coordinator writes it afterwards. */
  function Recorded(date: string, w: Await): Row {
    match w.result
    case Thrown(f) =>
      if w.cancel then Row(date, Cancelled, None, [CANCELLED_CODE])
      else if Halted(w) || f == Aborted then Row(date, Interrupted, None, [])
      else if f == AuthFailure then Row(date, Failed, None, [AUTH_CODE])
      else Row(date, Failed, None, ["OPERATION_ERROR"])
    case Returned(status, disposition, codes) =>
      if status == Cancelled && w.cancel
          then Row(date, Cancelled, None, if codes != [] then codes else [CANCELLED_CODE])
      else if status == Cancelled && Halted(w) then Row(date, Interrupted, None, [])
      else if status == Interrupted then Row(date, Interrupted, None, codes)
      else Row(date, status, if status == Failed then None else disposition, codes)
  }

  /** The rows of the dates that were not dispatched any more. */
  function Remaining(date: string, w: Await): Row {
    match w.result
    case Thrown(f) =>
      if w.cancel then Row(date, Cancelled, None, [CANCELLED_CODE])
      else if Halted(w) || f == Aborted then Row(date, Interrupted, None, [])
      else Row(date, Skipped, None, [AUTH_CODE])
    case Returned(status, _, codes) =>
      if status == Cancelled && w.cancel then Row(date, Cancelled, None, [CANCELLED_CODE])
      else if (status == Cancelled && Halted(w)) || status == Interrupted then Row(date, Interrupted, None, [])
      else if AUTH_CODE in codes then Row(date, Skipped, None, [AUTH_CODE])
      else if w.cancel then Row(date, Cancelled, None, [CANCELLED_CODE])
      else Row(date, Interrupted, None, [])
  }

  /** The raised flags alone decide how the later dates are marked. */
  ghost predicate ByFlags(w: Await) {
    && Raises(w)
    && forall date ::
       Remaining(date, w) == if w.cancel then Row(date, Cancelled, None, [CANCELLED_CODE])
       else Row(date, Interrupted, None, [])
  }

  function Swept(r: Row): Row {
    if Open(r) then Row(r.date, Interrupted, None, []) else r
  }

  /** A row that is still unfinished when the loop ends. */
  function Settled(r: Row, cancel: bool, halted: bool): Row {
    if Open(r) then Row(r.date, if cancel then Cancelled else if halted then Interrupted else Skipped, None, []) else r
  }

  /** The first unfinished date, from i on, whose await stops the dispatch; the number of rows if there is none. */
  function FirstStop(rows: seq<Row>, world: nat -> Await, i: nat): nat
    decreases |rows| - i
  {
    if i >= |rows| then |rows| else if Open(rows[i]) && Stops(world(i)) then i else FirstStop(rows, world, i + 1)
  }

  predicate CancelledAtEnd(rows: seq<Row>, world: nat -> Await) {
    var s := FirstStop(rows, world, 0);
    s < |rows| && world(s).cancel
  }

  predicate HaltedAtEnd(rows: seq<Row>, world: nat -> Await) {
    var s := FirstStop(rows, world, 0);
    s < |rows| && Halted(world(s))
  }

  /** The row of date j before rows that are still unfinished get settled. */
  function LoopRow(rows: seq<Row>, world: nat -> Await, j: nat): Row
    requires j < |rows|
  {
    var s := FirstStop(rows, world, 0);
    if !Open(rows[j]) then rows[j]
    else if j < s then (if s < |rows| && Sweeps(world(s)) then Swept(Recorded(rows[j].date, world(j)))
        else Recorded(rows[j].date, world(j)))
    else if j == s then Recorded(rows[j].date, world(j))
    else if s < |rows| then Remaining(rows[j].date, world(s))
    else rows[j]
  }

  function FinalRow(rows: seq<Row>, world: nat -> Await, j: nat): Row
    requires j < |rows|
  {
    Settled(LoopRow(rows, world, j), CancelledAtEnd(rows, world), HaltedAtEnd(rows, world))
  }

  function FinalRows(rows: seq<Row>, world: nat -> Await): seq<Row> {
    seq(|rows|, j requires 0 <= j < |rows| => FinalRow(rows, world, j))
  }

  /** The flags handed to the aggregation. */
  function EndFlags(rows: seq<Row>, cancel: bool, halted: bool): Flags {
    var cancelled := cancel || (HasStatus(rows, Cancelled) && !halted);
    Flags(cancelled, !cancelled && (halted || HasStatus(rows, Interrupted)), None)
  }

  // ---- Facts about the first stop ----

  lemma {:induction false} FirstStopIs(rows: seq<Row>, world: nat -> Await, i: nat)
    requires i <= |rows|
    ensures i <= FirstStop(rows, world, i) <= |rows|
    ensures forall j :: i <= j < FirstStop(rows, world, i) ==> !(Open(rows[j]) && Stops(world(j)))
    ensures FirstStop(rows, world, i) < |rows| ==> var s := FirstStop(rows, world, i); Open(rows[s]) && Stops(world(s))
    decreases |rows| - i
  {
    hide Stops;
    if i < |rows| && !(Open(rows[i]) && Stops(world(i))) {
      FirstStopIs(rows, world, i + 1);
    }
  }

  /** Every row of a finished run is terminal. */
  lemma FinalRowsAreTerminal(rows: seq<Row>, world: nat -> Await)
    ensures AllTerminal(FinalRows(rows, world))
    ensures |FinalRows(rows, world)| == |rows| && forall j :: 0 <= j < |rows| ==>
            FinalRows(rows, world)[j] == FinalRow(rows, world, j)
  {
    hide LoopRow, CancelledAtEnd, HaltedAtEnd;
  }

  // ---- What a stop leaves behind ----

  /** A cancel that arrived makes the run cancelled, and otherwise a stop or abort makes it interrupted. */
  lemma FlagsDecideTheRun(rows: seq<Row>, cancel: bool, halted: bool)
    ensures cancel ==> StatusOf(rows, EndFlags(rows, cancel, halted)) == RunCancelled
    ensures !cancel && halted ==> StatusOf(rows, EndFlags(rows, cancel, halted)) == RunInterrupted
    ensures HasStatus(rows, Cancelled) && !halted ==> StatusOf(rows, EndFlags(rows, cancel, halted)) == RunCancelled
  {
    hide HasStatus;
  }

  /**
   Dates that were not dispatched carry no result: they are cancelled only after a cancel, skipped only after an
   authentication failure, and interrupted otherwise.
   */
  lemma UndispatchedCarryNoResult(rows: seq<Row>, world: nat -> Await, j: nat)
    requires j < |rows| && Open(rows[j]) && FirstStop(rows, world, 0) < j
    ensures var r, w := FinalRow(rows, world, j), world(FirstStop(rows, world, 0));
            && r.date == rows[j].date && r.disposition.None?
            && (r.status == Cancelled || r.status == Interrupted || r.status == Skipped)
            && (r.status == Cancelled ==> w.cancel)
            && (r.status == Skipped ==> AuthFailed(w))
            && (r.status == Interrupted ==>
               Halted(w) || w.result == Thrown(Aborted) || (w.result.Returned? && w.result.status == Interrupted))
  {
    FirstStopIs(rows, world, 0);
    hide FirstStop, Recorded;
  }

  /** A date that was finished before the run started is left as it was. */
  lemma FinishedRowsStay(rows: seq<Row>, world: nat -> Await, j: nat)
    requires j < |rows| && !Open(rows[j])
    ensures FinalRow(rows, world, j) == rows[j]
  {
    hide FirstStop, Recorded, Remaining, CancelledAtEnd, HaltedAtEnd;
  }

  // ---- Success ----

  /** The worker reported success, with proof and without degradation, and nothing interfered. */
  predicate CleanWork(w: Await) {
    && !Raises(w) && w.result.Returned? && w.result.status == Succeeded && Useful(w.result.disposition)
    && forall k | 0 <= k < |w.result.codes| :: !Degrades(w.result.codes[k])
  }

  /** Everything was dispatched, and every row, old or new, is a proved success. */
  ghost predicate CleanRun(rows: seq<Row>, world: nat -> Await) {
    forall j :: 0 <= j < |rows| ==>
      if Open(rows[j]) then CleanWork(world(j)) && j <= FirstStop(rows, world, 0) else ProvedSuccess(rows[j])
  }

  /** The same in plain terms: nothing arrived, and what the worker returned is a good row. */
  ghost predicate GoodWork(w: Await) {
    && !w.cancel && !w.stop && !w.abort
    && w.result.Returned? && Good(Row("", w.result.status, w.result.disposition, w.result.codes))
  }

  lemma GoodWorkIs(w: Await)
    ensures CleanWork(w) <==> GoodWork(w)
  {
    if w.result.Returned? { GoodIs(Row("", w.result.status, w.result.disposition, w.result.codes)); }
    hide Degrades, Good;
  }

  /**
   What a successful run consists of: dates that were finished before are good, all others were worked on without a
   cancel, stop or abort and came back good, and none but the last of them reported an authentication failure.
   */
  ghost predicate GoodRun(rows: seq<Row>, world: nat -> Await) {
    && (forall j :: 0 <= j < |rows| ==>
          if rows[j].status == Pending || rows[j].status == Running then GoodWork(world(j)) else Good(rows[j]))
    && (forall j, k :: 0 <= j < k < |rows| && Open(rows[j]) && Open(rows[k]) && world(j).result.Returned? ==>
          "AUTH_FAILED" !in world(j).result.codes)
  }

  lemma CleanRunMeans(rows: seq<Row>, world: nat -> Await)
    ensures CleanRun(rows, world) <==> GoodRun(rows, world)
  {
    forall j: nat | j < |rows|
      ensures CleanWork(world(j)) <==> GoodWork(world(j))
      ensures ProvedSuccess(rows[j]) <==> Good(rows[j])
    {
      GoodWorkIs(world(j));
      GoodIs(rows[j]);
    }
    FirstStopIs(rows, world, 0);
    hide FirstStop, ProvedSuccess, Good;
    var s := FirstStop(rows, world, 0);
    if CleanRun(rows, world) {
      forall j, k | 0 <= j < k < |rows| && Open(rows[j]) && Open(rows[k]) && world(j).result.Returned?
        ensures "AUTH_FAILED" !in world(j).result.codes
      {
        assert k <= s && !Stops(world(j));
      }
    }
    if GoodRun(rows, world) {
      assert s < |rows| ==> AuthFailed(world(s)) by {
        if s < |rows| { assert Stops(world(s)) && CleanWork(world(s)); }
      }
      assert forall j :: 0 <= j < |rows| && Open(rows[j]) ==> j <= s;
    }
  }

  lemma CleanRowIff(date: string, w: Await)
    ensures ProvedSuccess(Recorded(date, w)) && !Raises(w) <==> CleanWork(w)
  {
    hide Degrades, Useful;
  }

  lemma RemainingIsNoSuccess(date: string, w: Await)
    ensures !ProvedSuccess(Remaining(date, w)) && Terminal(Remaining(date, w).status)
  {
  }

  /** Settling and sweeping neither make nor spoil a proved success. */
  lemma SettlingKeepsSuccess(r: Row, cancel: bool, halted: bool)
    ensures ProvedSuccess(Settled(r, cancel, halted)) <==> ProvedSuccess(r)
    ensures ProvedSuccess(Swept(r)) <==> ProvedSuccess(r)
  {
    hide Degrades, Useful;
  }

  lemma FinalRowProved(rows: seq<Row>, world: nat -> Await, j: nat)
    requires j < |rows|
    ensures var s := FirstStop(rows, world, 0);
            ProvedSuccess(FinalRow(rows, world, j)) <==>
              if Open(rows[j]) then j <= s && ProvedSuccess(Recorded(rows[j].date, world(j)))
                  else ProvedSuccess(rows[j])
  {
    var s := FirstStop(rows, world, 0);
    FirstStopIs(rows, world, 0);
    var r := Recorded(rows[j].date, world(j));
    SettlingKeepsSuccess(LoopRow(rows, world, j), CancelledAtEnd(rows, world), HaltedAtEnd(rows, world));
    SettlingKeepsSuccess(r, false, false);
    if s < |rows| { RemainingIsNoSuccess(rows[j].date, world(s)); }
    hide Recorded, Remaining, ProvedSuccess, Settled, Swept, Stops, CancelledAtEnd, HaltedAtEnd, FirstStop;
  }

  /**
   A run that starts unhindered succeeds exactly when every date, old or new, is a proved success and nothing
   interfered.
   */
  lemma SucceedsIff(rows: seq<Row>, world: nat -> Await)
    ensures var after := FinalRows(rows, world);
            StatusOf(after, EndFlags(after, CancelledAtEnd(rows, world), HaltedAtEnd(rows, world))) == RunSucceeded
            <==> rows != [] && CleanRun(rows, world)
  {
    hide *;
    var after := FinalRows(rows, world);
    FinalRowsAreTerminal(rows, world);
    FlagsWhenProved(after, CancelledAtEnd(rows, world), HaltedAtEnd(rows, world));
    SucceededIff(after, EndFlags(after, CancelledAtEnd(rows, world), HaltedAtEnd(rows, world)));
    if rows != [] && AllProved(after) && !CancelledAtEnd(rows, world) && !HaltedAtEnd(rows, world) {
      ProvedIsClean(rows, world);
    }
    if CleanRun(rows, world) {
      CleanIsProved(rows, world);
    }
  }

  lemma FlagsWhenProved(rows: seq<Row>, cancel: bool, halted: bool)
    ensures EndFlags(rows, cancel, halted).registry.None?
    ensures AllProved(rows) ==> !HasStatus(rows, Cancelled) && !HasStatus(rows, Interrupted)
    ensures AllProved(rows) ==> (EndFlags(rows, cancel, halted).cancelled <==> cancel)
    ensures AllProved(rows) ==> (EndFlags(rows, cancel, halted).interrupted <==> !cancel && halted)
  {
    hide Degrades, Useful;
    if AllProved(rows) {
      forall i | 0 <= i < |rows| ensures rows[i].status == Succeeded {
        assert ProvedSuccess(rows[i]);
      }
    }
  }

  lemma ProvedIsClean(rows: seq<Row>, world: nat -> Await)
    requires AllProved(FinalRows(rows, world)) && !CancelledAtEnd(rows, world) && !HaltedAtEnd(rows, world)
    ensures CleanRun(rows, world)
  {
    FinalRowsAreTerminal(rows, world);
    FirstStopIs(rows, world, 0);
    forall j | 0 <= j < |rows|
      ensures if Open(rows[j]) then CleanWork(world(j)) && j <= FirstStop(rows, world, 0) else ProvedSuccess(rows[j])
    {
      assert ProvedSuccess(FinalRows(rows, world)[j]);
      FinalRowProved(rows, world, j);
      CleanRowIff(rows[j].date, world(j));
      hide FinalRows, FinalRow, ProvedSuccess, Recorded, CleanWork, FirstStop;
    }
    hide ProvedSuccess, CleanWork, FirstStop, FinalRows, AllProved;
  }

  lemma CleanIsProved(rows: seq<Row>, world: nat -> Await)
    requires CleanRun(rows, world)
    ensures AllProved(FinalRows(rows, world)) && !CancelledAtEnd(rows, world) && !HaltedAtEnd(rows, world)
  {
    FinalRowsAreTerminal(rows, world);
    FirstStopIs(rows, world, 0);
    var s := FirstStop(rows, world, 0);
    if s < |rows| {
      assert CleanWork(world(s));
    }
    forall j | 0 <= j < |rows| ensures ProvedSuccess(FinalRows(rows, world)[j]) {
      FinalRowProved(rows, world, j);
      CleanRowIff(rows[j].date, world(j));
      hide FinalRows, FinalRow, ProvedSuccess, Recorded, CleanWork, FirstStop;
    }
    hide FinalRows, FinalRow, ProvedSuccess, FirstStop;
  }

  // ---- The dispatch loop in values ----

  /** Nothing has stopped the dispatch of the rows before i. */
  ghost predicate BeforeStop(now: seq<Row>, rows: seq<Row>, world: nat -> Await, i: nat) {
    && |now| == |rows| && i <= FirstStop(rows, world, 0) <= |rows|
    && (forall j :: 0 <= j < i ==> now[j] == if Open(rows[j]) then Recorded(rows[j].date, world(j)) else rows[j])
    && (forall j :: i <= j < |rows| ==> now[j] == rows[j])
  }

  /** The await that stops the dispatch is over; later unfinished rows are still to be marked. */
  ghost predicate BehindStop(now: seq<Row>, rows: seq<Row>, world: nat -> Await) {
    var s := FirstStop(rows, world, 0);
    && |now| == |rows| && s < |rows|
    && (forall j :: 0 <= j <= s ==> now[j] == LoopRow(rows, world, j))
    && (forall j :: s < j < |rows| && !Open(rows[j]) ==> now[j] == rows[j])
  }

  ghost predicate LoopDone(now: seq<Row>, rows: seq<Row>, world: nat -> Await) {
    |now| == |rows| && forall j :: 0 <= j < |rows| ==> now[j] == LoopRow(rows, world, j)
  }

  /** What the await of date i and its handling leave, before later rows are marked. */
  ghost predicate Handled(now: seq<Row>, before: seq<Row>, rows: seq<Row>, i: nat, w: Await) {
    && |now| == |before| == |rows| && i < |rows| && now[i] == Recorded(rows[i].date, w)
    && forall j :: 0 <= j < |rows| && j != i ==> now[j] == if Sweeps(w) then Swept(before[j]) else before[j]
  }

  lemma GoOn(now: seq<Row>, before: seq<Row>, rows: seq<Row>, world: nat -> Await, i: nat)
    requires BeforeStop(before, rows, world, i) && i < |rows| && Open(rows[i]) && !Stops(world(i))
             && Handled(now, before, rows, i, world(i))
    ensures BeforeStop(now, rows, world, i + 1)
  {
    FirstStopIs(rows, world, 0);
    hide Recorded, FirstStop;
  }

  lemma Pass(now: seq<Row>, rows: seq<Row>, world: nat -> Await, i: nat)
    requires BeforeStop(now, rows, world, i) && i < |rows| && !Open(rows[i])
    ensures BeforeStop(now, rows, world, i + 1)
  {
    FirstStopIs(rows, world, 0);
    hide Recorded, FirstStop, Stops;
  }

  lemma StopHere(now: seq<Row>, before: seq<Row>, rows: seq<Row>, world: nat -> Await, i: nat)
    requires BeforeStop(before, rows, world, i) && i < |rows| && Open(rows[i]) && Stops(world(i))
             && Handled(now, before, rows, i, world(i))
    ensures FirstStop(rows, world, 0) == i && BehindStop(now, rows, world)
  {
    FirstStopIs(rows, world, 0);
    hide Recorded, FirstStop, Stops, Remaining;
  }

  /** Marking the later unfinished rows completes the loop. */
  lemma MarkRest(now: seq<Row>, before: seq<Row>, rows: seq<Row>, world: nat -> Await, from: nat)
    requires BehindStop(before, rows, world) && |now| == |rows|
    requires var s := FirstStop(rows, world, 0); s < from && forall j :: s < j < from && j < |rows| ==> !Open(rows[j])
    requires forall j :: 0 <= j < |rows| ==>
               now[j] == if j >= from && Open(rows[j]) then Remaining(rows[j].date, world(FirstStop(rows, world, 0)))
                   else before[j]
    ensures LoopDone(now, rows, world)
  {
    hide Recorded, FirstStop, Stops, Remaining;
  }

  lemma NoStopDone(now: seq<Row>, rows: seq<Row>, world: nat -> Await)
    requires BeforeStop(now, rows, world, |rows|)
    ensures LoopDone(now, rows, world) && !CancelledAtEnd(rows, world) && !HaltedAtEnd(rows, world)
  {
    hide Recorded, FirstStop, Stops, Remaining;
  }

  // ---- Bookkeeping of the loop ----

  /** No unfinished date between the stop and i. */
  ghost predicate NoneOpen(rows: seq<Row>, s: nat, i: nat) {
    forall j :: s < j < i && j < |rows| ==> !Open(rows[j])
  }

  /** Dates in the order of dispatch, each at most once. */
  ghost predicate Ascending(s: seq<nat>) {
    forall i, j :: 0 <= i < j < |s| ==> s[i] < s[j]
  }

  /** Dispatched so far: the unfinished dates before i, up to the one that stops the dispatch. */
  ghost predicate DispatchedUpTo(dispatched: seq<nat>, rows: seq<Row>, s: nat, i: nat) {
    && Ascending(dispatched)
    && forall j: nat :: j in dispatched <==> j < i && j < |rows| && Open(rows[j]) && j <= s
  }

  lemma DispatchOne(dispatched: seq<nat>, rows: seq<Row>, s: nat, i: nat)
    requires DispatchedUpTo(dispatched, rows, s, i) && i < |rows| && Open(rows[i]) && i <= s
    ensures DispatchedUpTo(dispatched + [i], rows, s, i + 1)
  {
    assert forall k :: 0 <= k < |dispatched| ==> dispatched[k] in dispatched;
  }

  lemma DispatchNone(dispatched: seq<nat>, rows: seq<Row>, s: nat, i: nat)
    requires DispatchedUpTo(dispatched, rows, s, i) && i < |rows| && !Open(rows[i])
    ensures DispatchedUpTo(dispatched, rows, s, i + 1)
    ensures NoneOpen(rows, s, i) ==> NoneOpen(rows, s, i + 1)
  {
  }

  lemma DispatchEnd(dispatched: seq<nat>, rows: seq<Row>, s: nat, i: nat)
    requires DispatchedUpTo(dispatched, rows, s, i) && (s < i || i == |rows|)
    ensures Ascending(dispatched)
    ensures forall j: nat :: j in dispatched <==> j < |rows| && Open(rows[j]) && j <= s
  {
  }

  lemma LoopStarts(rows: seq<Row>, world: nat -> Await)
    ensures BeforeStop(rows, rows, world, 0) && DispatchedUpTo([], rows, FirstStop(rows, world, 0), 0)
  {
    FirstStopIs(rows, world, 0);
    hide FirstStop, Recorded;
  }

  lemma BeforeBound(now: seq<Row>, rows: seq<Row>, world: nat -> Await, i: nat)
    requires BeforeStop(now, rows, world, i)
    ensures i <= FirstStop(rows, world, 0) <= |rows| && |now| == |rows|
  {
  }

  lemma FlagsMark(w: Await)
    requires ByFlags(w)
    ensures w.cancel || Halted(w)
    ensures w.cancel ==> forall date :: Remaining(date, w) == Row(date, Cancelled, None, [CANCELLED_CODE])
    ensures !w.cancel ==> forall date :: Remaining(date, w) == Row(date, Interrupted, None, [])
  {
    hide Remaining;
  }

  lemma QuietFlags(w: Await)
    requires !Stops(w)
    ensures !w.cancel && !Halted(w) && !Sweeps(w)
  {
  }

  lemma StopAt(rows: seq<Row>, world: nat -> Await, i: nat)
    requires i < |rows| && Open(rows[i]) && i <= FirstStop(rows, world, 0)
    ensures Stops(world(i)) <==> i == FirstStop(rows, world, 0)
  {
    FirstStopIs(rows, world, 0);
    if Stops(world(i)) { BeforeTheStop(rows, world, 0, i); }
    hide Stops, FirstStop;
  }

  lemma {:induction false} BeforeTheStop(rows: seq<Row>, world: nat -> Await, from: nat, i: nat)
    requires from <= i < |rows| && Open(rows[i]) && Stops(world(i))
    ensures FirstStop(rows, world, from) <= i
    decreases i - from
  {
    hide Stops;
    if from < i && !(Open(rows[from]) && Stops(world(from))) { BeforeTheStop(rows, world, from + 1, i); }
  }

  lemma BehindDone(now: seq<Row>, rows: seq<Row>, world: nat -> Await)
    requires BehindStop(now, rows, world) && NoneOpen(rows, FirstStop(rows, world, 0), |rows|)
    ensures LoopDone(now, rows, world)
  {
    hide FirstStop, Recorded, Remaining;
  }

  /** The stop leaves the loop at once: the marked rows complete it. */
  lemma LeaveHere(now: seq<Row>, before: seq<Row>, rows: seq<Row>, world: nat -> Await, i: nat)
    requires BeforeStop(before, rows, world, i) && i < |rows| && Open(rows[i]) && Stops(world(i)) && |now| == |rows|
    requires now[i] == Recorded(rows[i].date, world(i))
    requires forall j :: 0 <= j < |rows| && j != i ==>
               now[j] == if j > i && Open(rows[j]) then Remaining(rows[j].date, world(i))
                   else if Sweeps(world(i)) then Swept(before[j]) else before[j]
    ensures LoopDone(now, rows, world)
  {
    var w := world(i);
    BeforeBound(before, rows, world, i);
    hide Recorded, Remaining, Stops, Swept, Sweeps;
    var handled := seq(|rows|, j requires 0 <= j < |rows| && |before| == |rows| =>
      if j == i then Recorded(rows[i].date, w) else if Sweeps(w) then Swept(before[j]) else before[j]);
    StopHere(handled, before, rows, world, i);
    hide BeforeStop, BehindStop, LoopDone, FirstStop;
    MarkRest(now, handled, rows, world, i + 1);
  }
}
