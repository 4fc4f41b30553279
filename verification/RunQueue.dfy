/** The durable queue of sync runs: intake, claiming, cancelling, completing, and recovery after a crash. */
module RunQueue {
  import opened Options
  import opened Orders
  import opened Locales
  import Calendar
  import Outcome

  datatype Trigger = Manual | Scheduled | Startup | Catchup
  datatype Mode = Recent | Backfill | Compare | Retry | Registry
  datatype RunState = Queued | Active | Ended(status: Outcome.RunStatus)
  datatype DayEntry = DayEntry(date: string, status: Outcome.DayStatus)

  /** The semantic part of a request. */
  datatype Payload = Payload(mode: Mode, trigger: Trigger, start: Option<string>, end: Option<string>,
                             retryDates: Option<seq<string>>,
                             resumedFrom: Option<nat>)

  /** Runs are numbered by their position; byRecovery tells who asked for the run. */
  datatype Run = Run(payload: Payload, key: string, state: RunState, days: seq<DayEntry>, cancelRequested: bool,
                     cancelCode: bool, byRecovery: bool)
  datatype State = State(runs: seq<Run>, scheduling: bool)

  const QUEUE_LIMIT := 10

  // ---- Intake ----

  datatype Intake = Created(id: nat) | Reused(id: nat) | KeyConflict | QueueFull | Refused

  predicate Waiting(r: Run) { r.state == Queued || r.state == Active }

  function CountWaiting(runs: seq<Run>): nat {
    if runs == [] then 0 else CountWaiting(runs[..|runs| - 1]) + if Waiting(runs[|runs| - 1]) then 1 else 0
  }

  /** The first run with the key. */
  function FindKey(runs: seq<Run>, key: string, from: nat): Option<nat>
    decreases |runs| - from
  {
    if from >= |runs| then None else if runs[from].key == key then Some(from) else FindKey(runs, key, from + 1)
  }

  predicate DatesDiffer(dates: seq<string>) {
    forall i, j | 0 <= i < j < |dates| :: dates[i] != dates[j]
  }

  function PendingDays(dates: seq<string>): seq<DayEntry> {
    seq(|dates|, i requires 0 <= i < |dates| => DayEntry(dates[i], Outcome.Pending))
  }

  function NewRun(payload: Payload, key: string, dates: seq<string>, byRecovery: bool): Run {
    Run(payload, key, Queued, PendingDays(dates), false, false, byRecovery)
  }

  /** What the hash of a request covers: the dates to retry in their default string order. */
  function Hashed(l: Locale, p: Payload): Payload {
    if p.retryDates.Some? then p.(retryDates := Some(Sort(p.retryDates.value, l.ordinal))) else p
  }

  predicate ParentExists(s: State, payload: Payload) {
    payload.resumedFrom.Some? ==> payload.resumedFrom.value < |s.runs|
  }

  function Enqueue(l: Locale, s: State, payload: Payload, key: string, dates: seq<string>,
                   byRecovery: bool): (State, Intake) {
    var known := if key == "" then None else FindKey(s.runs, key, 0);
    if known.Some? && known.value < |s.runs|
        then (s, if Hashed(l, s.runs[known.value].payload) == Hashed(l, payload) then Reused(known.value)
        else KeyConflict)
    else if CountWaiting(s.runs) >= QUEUE_LIMIT then (s, QueueFull)
    else if !ParentExists(s, payload) || !DatesDiffer(dates) then (s, Refused)
    else (s.(runs := s.runs + [NewRun(payload, key, dates, byRecovery)]), Created(|s.runs|))
  }

  // ---- Claiming, cancelling, completing ----

  predicate Idle(runs: seq<Run>) {
    forall i | 0 <= i < |runs| :: runs[i].state != Active
  }

  /** The first queued run, among the manual ones or among all. */
  function FirstQueued(runs: seq<Run>, manualOnly: bool, from: nat): Option<nat>
    decreases |runs| - from
  {
    if from >= |runs| then None
    else if runs[from].state == Queued && (manualOnly ==> runs[from].payload.trigger == Manual) then Some(from)
    else FirstQueued(runs, manualOnly, from + 1)
  }

  function Claimable(s: State): Option<nat> {
    if !Idle(s.runs) then None
    else if FirstQueued(s.runs, true, 0).Some? then FirstQueued(s.runs, true, 0)
    else FirstQueued(s.runs, false, 0)
  }

  function Claim(s: State): State {
    var id := Claimable(s);
    if id.Some? && id.value < |s.runs| then s.(runs := s.runs[id.value := s.runs[id.value].(state := Active)]) else s
  }

  function Closed(days: seq<DayEntry>, status: Outcome.DayStatus): seq<DayEntry> {
    seq(|days|, i requires 0 <= i < |days| =>
        if Outcome.Terminal(days[i].status) then days[i] else days[i].(status := status))
  }

  function Cancel(s: State, id: nat): State {
    if id >= |s.runs| then s
    else
      var r := s.runs[id];
      match r.state
      case Queued =>
          s.(runs := s.runs[id := r.(state := Ended(Outcome.RunCancelled), days := Closed(r.days, Outcome.Cancelled))])
      case Active => s.(runs := s.runs[id := r.(cancelRequested := true)])
      case Ended(_) => s
  }

  /** The executor finishes the active run. */
  function Complete(s: State, id: nat, status: Outcome.RunStatus, cancelCode: bool): State {
    if id < |s.runs| && s.runs[id].state == Active
    then s.(runs := s.runs[id := s.runs[id].(state := Ended(status), cancelCode := cancelCode)]) else s
  }

  /** The executor writes the row of an unfinished date of the active run. */
  function WriteDay(s: State, id: nat, i: nat, status: Outcome.DayStatus): State {
    if id < |s.runs| && s.runs[id].state == Active && i < |s.runs[id].days|
        && !Outcome.Terminal(s.runs[id].days[i].status)
    then
      var r := s.runs[id];
      s.(runs := s.runs[id := r.(days := r.days[i := r.days[i].(status := status)])])
    else s
  }

  // ---- Recovery ----

  function Interrupted(r: Run): Run {
    if r.state == Active then r.(state := Ended(Outcome.RunInterrupted),
        days := Closed(r.days, Outcome.Interrupted)) else r
  }

  function InterruptAll(s: State): State {
    s.(runs := seq(|s.runs|, i requires 0 <= i < |s.runs| => Interrupted(s.runs[i])))
  }

  predicate Unfinished(d: DayEntry) {
    d.status == Outcome.Interrupted || d.status == Outcome.Pending
  }

  function UnfinishedDates(days: seq<DayEntry>): seq<string> {
    if days == [] then []
    else UnfinishedDates(days[..|days| - 1]) + if Unfinished(days[|days| - 1]) then [days[|days| - 1].date] else []
  }

  predicate HasRetry(runs: seq<Run>, id: nat) {
    exists i | 0 <= i < |runs| :: runs[i].payload.resumedFrom == Some(id)
  }

  predicate WasCancelled(r: Run) {
    r.cancelRequested || r.state == Ended(Outcome.RunCancelled) || r.cancelCode
  }

  function RecoveryKey(id: nat): string {
    "recovery-run-" + Calendar.Decimal(id)
  }

  function RetryDates(l: Locale, r: Run): seq<string> {
    Sort(UnfinishedDates(r.days), l.ordinal)
  }

  function RetryPayload(l: Locale, r: Run, id: nat): Payload {
    var dates := RetryDates(l, r);
    if r.payload.mode == Registry then Payload(Registry, r.payload.trigger, None, None, None, Some(id))
    else Payload(Retry, r.payload.trigger, if dates != [] then Some(dates[0])
        else None, if dates != [] then Some(dates[|dates| - 1]) else None, Some(dates), Some(id))
  }

  /** Whether an interrupted run gets a linked retry now. */
  predicate WantsRetry(l: Locale, s: State, id: nat, scheduling: bool) {
    && id < |s.runs| && !WasCancelled(s.runs[id]) && !HasRetry(s.runs, id)
    && (s.runs[id].payload.trigger == Manual || scheduling)
    && (s.runs[id].payload.mode == Registry || RetryDates(l, s.runs[id]) != [])
  }

  datatype Linking = Linked(id: nat) | NotLinked | LinkThrew

  function LinkRetry(l: Locale, s: State, id: nat, scheduling: bool): (State, Linking) {
    if !WantsRetry(l, s, id, scheduling) then (s, NotLinked)
    else
      var r := s.runs[id];
      var (after, intake) := Enqueue(l, s, RetryPayload(l, r, id), RecoveryKey(id), if r.payload.mode == Registry
          then [] else RetryDates(l, r), true);
      match intake
      case Created(n) => (after, Linked(n))
      case Reused(n) => (after, Linked(n))
      case _ => (s, LinkThrew)
  }

  /** Linking one run after the other; an exception ends the loop and keeps what was linked. */
  function LinkAll(l: Locale, s: State, ids: seq<nat>, scheduling: bool): (State, bool) {
    if ids == [] then (s, true)
    else
      var (before, ok) := LinkAll(l, s, ids[..|ids| - 1], scheduling);
      if !ok then (before, false)
      else
        var (after, r) := LinkRetry(l, before, ids[|ids| - 1], scheduling);
        (after, r != LinkThrew)
  }

  predicate Deferred(s: State, i: nat) {
    i < |s.runs| && s.runs[i].state == Ended(Outcome.RunInterrupted) && !s.runs[i].cancelRequested
        && !HasRetry(s.runs, i)
  }

  function DeferredIds(s: State, n: nat): seq<nat> {
    if n == 0 then [] else DeferredIds(s, n - 1) + if Deferred(s, n - 1) then [n - 1] else []
  }

  function ActiveIds(s: State, n: nat): seq<nat> {
    if n == 0 then [] else ActiveIds(s, n - 1) + if n <= |s.runs| && s.runs[n - 1].state == Active then [n - 1] else []
  }

  function RecoverDeferred(l: Locale, s: State): (State, bool) {
    LinkAll(l, s, DeferredIds(s, |s.runs|), true)
  }

  function Recover(l: Locale, s: State): (State, bool) {
    var (linked, ok) := LinkAll(l, InterruptAll(s), ActiveIds(s, |s.runs|), s.scheduling);
    if ok && s.scheduling then RecoverDeferred(l, linked) else (linked, ok)
  }

  // ---- The store and the coordinator's recovery ----

  class SyncRuns {
    var runs: seq<Run>
    var scheduling: bool

    ghost function Contents(): State
      reads this
    {
      State(runs, scheduling)
    }

    constructor ()
      ensures Contents() == State([], false)
    {
      runs, scheduling := [], false;
    }

    method EnqueueRun(l: Locale, payload: Payload, key: string, dates: seq<string>, byRecovery: bool)
      returns (r: Intake)
      modifies this`runs
      ensures (Contents(), r) == Enqueue(l, old(Contents()), payload, key, dates, byRecovery)
    {
      hide CountWaiting, DatesDiffer, ParentExists, NewRun, FindKey;
      if key != "" {
        var known := FindByKey(key);
        if known.Some? {
          return if Hashed(l, runs[known.value].payload) == Hashed(l, payload) then Reused(known.value)
              else KeyConflict;
        }
      }
      var waiting := CountNonterminal();
      if waiting >= QUEUE_LIMIT { return QueueFull; }
      if !ParentExists(State(runs, scheduling), payload) || !DatesDiffer(dates) { return Refused; }
      var days := InsertDays(dates);
      NewRunIs(payload, key, dates, byRecovery);
      r := Created(|runs|);
      runs := runs + [Run(payload, key, Queued, days, false, false, byRecovery)];
    }

    method FindByKey(key: string) returns (r: Option<nat>)
      ensures r == FindKey(runs, key, 0) && (r.Some? ==> r.value < |runs|)
    {
      for i := 0 to |runs|
        invariant FindKey(runs, key, i) == FindKey(runs, key, 0)
      {
        if runs[i].key == key { return Some(i); }
      }
      r := None;
    }

    method CountNonterminal() returns (n: nat)
      ensures n == CountWaiting(runs)
    {
      n := 0;
      assert runs[..0] == [];
      for i := 0 to |runs|
        invariant n == CountWaiting(runs[..i])
      {
        assert runs[..i + 1][..i] == runs[..i];
        if Waiting(runs[i]) { n := n + 1; }
      }
      assert runs[..|runs|] == runs;
    }

    /** At most one run is active; manual runs come first, older ones before younger. */
    method ClaimNextRun() returns (r: Option<nat>)
      modifies this`runs
      ensures r == Claimable(old(Contents())) && Contents() == Claim(old(Contents()))
    {
      hide FirstQueued;
      for i := 0 to |runs|
        invariant runs == old(runs) && forall j :: 0 <= j < i ==> runs[j].state != Active
      {
        if runs[i].state == Active { return None; }
      }
      r := ScanQueued(true);
      if r.None? { r := ScanQueued(false); }
      if r.Some? { runs := runs[r.value := runs[r.value].(state := Active)]; }
    }

    method ScanQueued(manualOnly: bool) returns (r: Option<nat>)
      ensures r == FirstQueued(runs, manualOnly, 0) && (r.Some? ==> r.value < |runs|)
    {
      for i := 0 to |runs|
        invariant FirstQueued(runs, manualOnly, i) == FirstQueued(runs, manualOnly, 0)
      {
        if runs[i].state == Queued && (manualOnly ==> runs[i].payload.trigger == Manual) { return Some(i); }
      }
      r := None;
    }

    method CancelRun(id: nat)
      requires id < |runs|
      modifies this`runs
      ensures Contents() == Cancel(old(Contents()), id)
    {
      var r := runs[id];
      match r.state {
        case Queued =>
          var days := CloseDays(r.days, Outcome.Cancelled);
          runs := runs[id := r.(state := Ended(Outcome.RunCancelled), days := days)];
        case Active => runs := runs[id := r.(cancelRequested := true)];
        case Ended(_) =>
      }
    }

    method RecoverInterruptedRuns() returns (ids: seq<nat>)
      modifies this`runs
      ensures ids == ActiveIds(old(Contents()), |old(runs)|)
      ensures Contents() == InterruptAll(old(Contents()))
    {
      ids := [];
      var before := runs;
      hide Closed;
      for i := 0 to |before|
        invariant |runs| == |before| && scheduling == old(scheduling)
        invariant ids == ActiveIds(old(Contents()), i)
        invariant forall j :: 0 <= j < |runs| ==> runs[j] == if j < i then Interrupted(before[j]) else before[j]
      {
        if runs[i].state == Active {
          var days := CloseDays(runs[i].days, Outcome.Interrupted);
          ids := ids + [i];
          runs := runs[i := runs[i].(state := Ended(Outcome.RunInterrupted), days := days)];
        }
      }
      hide Interrupted, ActiveIds;
      assert runs == InterruptAll(old(Contents())).runs;
    }

    method MaybeCreateLinkedRetry(l: Locale, id: nat, allowed: bool) returns (r: Linking)
      modifies this`runs
      ensures (Contents(), r) == LinkRetry(l, old(Contents()), id, allowed)
    {
      hide Enqueue, RetryDates, RetryPayload, HasRetry, RecoveryKey;
      if id >= |runs| { return NotLinked; }
      var run := runs[id];
      if run.cancelRequested || run.state == Ended(Outcome.RunCancelled) { return NotLinked; }
      if run.cancelCode { return NotLinked; }
      if HasRetry(runs, id) { return NotLinked; }
      if run.payload.trigger != Manual && !allowed { return NotLinked; }
      var dates: seq<string>, payload := [], RetryPayload(l, run, id);
      if run.payload.mode != Registry {
        dates := CollectUnfinished(l, run);
        if |dates| == 0 { return NotLinked; }
      }
      var intake := EnqueueRun(l, payload, RecoveryKey(id), dates, true);
      match intake
      case Created(n) => r := Linked(n);
      case Reused(n) => r := Linked(n);
      case _ =>
        r := LinkThrew;
        RefusedKeeps(l, old(Contents()), payload, RecoveryKey(id), dates, true);
    }

    method LinkEach(l: Locale, ids: seq<nat>, allowed: bool) returns (linked: seq<nat>, ok: bool)
      modifies this`runs
      ensures (Contents(), ok) == LinkAll(l, old(Contents()), ids, allowed)
    {
      linked := [];
      ghost var start := Contents();
      assert ids[..0] == [];
      hide LinkRetry;
      for i := 0 to |ids|
        invariant LinkAll(l, start, ids[..i], allowed) == (Contents(), true)
      {
        assert ids[..i + 1][..i] == ids[..i];
        var r := MaybeCreateLinkedRetry(l, ids[i], allowed);
        if r == LinkThrew {
          LinkStops(l, start, ids, allowed, i + 1);
          return linked, false;
        }
        if r.Linked? { linked := linked + [r.id]; }
      }
      assert ids[..|ids|] == ids;
      ok := true;
    }

    method RecoverDeferredRuns(l: Locale) returns (linked: seq<nat>, ok: bool)
      modifies this`runs
      ensures (Contents(), ok) == RecoverDeferred(l, old(Contents()))
    {
      var ids: seq<nat> := [];
      for i := 0 to |runs|
        invariant ids == DeferredIds(Contents(), i) && runs == old(runs)
      {
        if Deferred(State(runs, scheduling), i) { ids := ids + [i]; }
      }
      linked, ok := LinkEach(l, ids, true);
    }

    /** What start() does before taking new work. */
    method RunRecovery(l: Locale) returns (linked: seq<nat>, ok: bool)
      modifies this`runs
      ensures (Contents(), ok) == Recover(l, old(Contents()))
    {
      hide LinkAll, RecoverDeferred, InterruptAll, ActiveIds;
      var ids := RecoverInterruptedRuns();
      linked, ok := LinkEach(l, ids, scheduling);
      if ok && scheduling {
        var more;
        more, ok := RecoverDeferredRuns(l);
        linked := linked + more;
      }
    }
  }

  method InsertDays(dates: seq<string>) returns (days: seq<DayEntry>)
    ensures days == PendingDays(dates)
  {
    days := [];
    for i := 0 to |dates|
      invariant days == PendingDays(dates[..i])
    {
      days := days + [DayEntry(dates[i], Outcome.Pending)];
    }
    assert dates[..|dates|] == dates;
  }

  method CloseDays(days: seq<DayEntry>, status: Outcome.DayStatus) returns (closed: seq<DayEntry>)
    ensures closed == Closed(days, status)
  {
    closed := days;
    for i := 0 to |days|
      invariant |closed| == |days|
      invariant forall j :: 0 <= j < |days| ==>
                closed[j] == if j < i && !Outcome.Terminal(days[j].status) then days[j].(status := status) else days[j]
    {
      if !Outcome.Terminal(days[i].status) { closed := closed[i := days[i].(status := status)]; }
    }
  }

  method CollectUnfinished(l: Locale, r: Run) returns (dates: seq<string>)
    ensures dates == RetryDates(l, r)
  {
    var found: seq<string>, days := [], r.days;
    assert days[..0] == [];
    for i := 0 to |days|
      invariant found == UnfinishedDates(days[..i])
    {
      assert days[..i + 1][..i] == days[..i];
      if Unfinished(days[i]) { found := found + [days[i].date]; }
    }
    assert days[..|days|] == days;
    dates := Sort(found, l.ordinal);
  }

  lemma NewRunIs(payload: Payload, key: string, dates: seq<string>, byRecovery: bool)
    ensures NewRun(payload, key, dates, byRecovery)
            == Run(payload, key, Queued, PendingDays(dates), false, false, byRecovery)
  {
  }

  lemma RefusedKeeps(l: Locale, s: State, payload: Payload, key: string, dates: seq<string>, byRecovery: bool)
    ensures var (after, r) := Enqueue(l, s, payload, key, dates, byRecovery); r.Created? || after == s
  {
    hide CountWaiting, DatesDiffer, ParentExists, FindKey;
  }

  lemma {:induction false} LinkStops(l: Locale, s: State, ids: seq<nat>, scheduling: bool, n: nat)
    requires n <= |ids| && !LinkAll(l, s, ids[..n], scheduling).1
    ensures LinkAll(l, s, ids, scheduling) == LinkAll(l, s, ids[..n], scheduling)
    decreases |ids|
  {
    if n == |ids| {
      assert ids[..n] == ids;
    } else {
      var m := |ids| - 1;
      assert ids[..m][..n] == ids[..n];
      LinkStops(l, s, ids[..m], scheduling, n);
      hide LinkRetry;
    }
  }
}
