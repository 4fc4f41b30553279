/** Recovery over any history of intake, claims, cancels, completions, crashes, restarts and scheduling toggles. */
module Recovery {
  import opened Options
  import opened Orders
  import opened Locales
  import opened RunQueue
  import Outcome

  datatype Event =
    | Enqueueing(payload: Payload, key: string, dates: seq<string>)
    | Claiming
    | Cancelling(id: nat)
    | Completing(id: nat, status: Outcome.RunStatus, cancelCode: bool)
    | WritingDay(id: nat, i: nat, dayStatus: Outcome.DayStatus)
    | Recovering
    | RecoveringDeferred
    | Scheduling(on: bool)

  function Step(l: Locale, s: State, e: Event): State {
    match e
    case Enqueueing(payload, key, dates) => Enqueue(l, s, payload, key, dates, false).0
    case Claiming => Claim(s)
    case Cancelling(id) => Cancel(s, id)
    case Completing(id, status, cancelCode) => Complete(s, id, status, cancelCode)
    case WritingDay(id, i, status) => WriteDay(s, id, i, status)
    case Recovering => Recover(l, s).0
    case RecoveringDeferred => RecoverDeferred(l, s).0
    case Scheduling(on) => s.(scheduling := on)
  }

  function History(l: Locale, s: State, events: seq<Event>): State {
    if events == [] then s else Step(l, History(l, s, events[..|events| - 1]), events[|events| - 1])
  }

  // ---- The invariant ----

  function DatesOf(r: Run): seq<string> {
    seq(|r.days|, i requires 0 <= i < |r.days| => r.days[i].date)
  }

  predicate IsInterrupted(r: Run) { r.state == Ended(Outcome.RunInterrupted) }

  /** A retry made by recovery follows an older, interrupted, uncancelled run and takes exactly its unfinished dates. */
  ghost predicate FollowsParent(l: Locale, runs: seq<Run>, c: nat)
    requires c < |runs|
  {
    var p := runs[c].payload.resumedFrom;
    && p.Some? && p.value < c
    && IsInterrupted(runs[p.value]) && !WasCancelled(runs[p.value])
    && DatesOf(runs[c]) == if runs[p.value].payload.mode == Registry then [] else RetryDates(l, runs[p.value])
  }

  ghost predicate LinksSound(l: Locale, runs: seq<Run>) {
    && (forall c :: 0 <= c < |runs| && runs[c].payload.resumedFrom.Some? ==> runs[c].payload.resumedFrom.value < c)
    && (forall c :: 0 <= c < |runs| && runs[c].byRecovery ==> FollowsParent(l, runs, c))
  }

  /** No run has two retries made by recovery. */
  ghost predicate OneRetryEach(runs: seq<Run>) {
    forall c, d :: 0 <= c < d < |runs| && runs[c].byRecovery && runs[d].byRecovery ==>
        runs[c].payload.resumedFrom != runs[d].payload.resumedFrom
  }

  ghost predicate KeysUnique(runs: seq<Run>) {
    forall i, j :: 0 <= i < j < |runs| && runs[i].key == runs[j].key ==> runs[i].key == ""
  }

  ghost predicate OneActive(runs: seq<Run>) {
    forall i, j :: 0 <= i < j < |runs| ==> !(runs[i].state == Active && runs[j].state == Active)
  }

  ghost predicate DatesDistinct(runs: seq<Run>) {
    forall i :: 0 <= i < |runs| ==> DatesDiffer(DatesOf(runs[i]))
  }

  ghost predicate Sound(l: Locale, s: State) {
    LinksSound(l, s.runs) && OneRetryEach(s.runs) && DatesDistinct(s.runs) && KeysUnique(s.runs) && OneActive(s.runs)
        && CountWaiting(s.runs) <= QUEUE_LIMIT
  }

  // ---- Steps that change runs in place ----

  /** The same run, perhaps further along; an ended run does not change any more. */
  ghost predicate Moves(a: Run, b: Run) {
    && a.payload == b.payload && a.key == b.key && a.byRecovery == b.byRecovery && DatesOf(a) == DatesOf(b)
    && (a.state.Ended? ==> a == b)
    && (Waiting(b) ==> Waiting(a))
  }

  ghost predicate Evolves(a: seq<Run>, b: seq<Run>) {
    |a| == |b| && forall i :: 0 <= i < |a| ==> Moves(a[i], b[i])
  }

  lemma {:induction false} EvolvesCount(a: seq<Run>, b: seq<Run>)
    requires Evolves(a, b)
    ensures CountWaiting(b) <= CountWaiting(a)
  {
    if a != [] {
      EvolvesCount(a[..|a| - 1], b[..|b| - 1]);
      assert Moves(a[|a| - 1], b[|b| - 1]);
    }
  }

  lemma EvolvesKeepsLinks(l: Locale, a: seq<Run>, b: seq<Run>)
    requires Evolves(a, b)
    ensures LinksSound(l, a) ==> LinksSound(l, b)
    ensures OneRetryEach(a) ==> OneRetryEach(b)
    ensures KeysUnique(a) ==> KeysUnique(b)
    ensures DatesDistinct(a) ==> DatesDistinct(b)
  {
    hide Waiting, DatesOf, DatesDiffer, WasCancelled, RetryDates;
    assert forall i :: 0 <= i < |a| ==>
           a[i].payload == b[i].payload && a[i].key == b[i].key && a[i].byRecovery == b[i].byRecovery;
    if LinksSound(l, a) {
      forall c | 0 <= c < |b| && b[c].byRecovery ensures FollowsParent(l, b, c) {
        assert Moves(a[c], b[c]);
        assert FollowsParent(l, a, c);
        var p := a[c].payload.resumedFrom.value;
        assert Moves(a[p], b[p]);
      }
    }
  }

  lemma EvolvesSound(l: Locale, a: State, b: State)
    requires Sound(l, a) && Evolves(a.runs, b.runs) && OneActive(b.runs)
    ensures Sound(l, b)
  {
    EvolvesKeepsLinks(l, a.runs, b.runs);
    EvolvesCount(a.runs, b.runs);
    hide LinksSound, OneRetryEach, KeysUnique, DatesDistinct, OneActive, Evolves, CountWaiting;
  }

  lemma ClosedDates(days: seq<DayEntry>, status: Outcome.DayStatus)
    ensures |Closed(days, status)| == |days| && forall i :: 0 <= i < |days| ==>
            Closed(days, status)[i].date == days[i].date
  {
  }

  lemma CancelEvolves(s: State, id: nat)
    ensures Evolves(s.runs, Cancel(s, id).runs) && (OneActive(s.runs) ==> OneActive(Cancel(s, id).runs))
  {
    if id < |s.runs| { ClosedDates(s.runs[id].days, Outcome.Cancelled); }
    hide Closed;
  }

  lemma CompleteEvolves(s: State, id: nat, status: Outcome.RunStatus, cancelCode: bool)
    ensures Evolves(s.runs, Complete(s, id, status, cancelCode).runs)
            && (OneActive(s.runs) ==> OneActive(Complete(s, id, status, cancelCode).runs))
  {
  }

  lemma WriteEvolves(s: State, id: nat, i: nat, status: Outcome.DayStatus)
    ensures Evolves(s.runs, WriteDay(s, id, i, status).runs)
            && (OneActive(s.runs) ==> OneActive(WriteDay(s, id, i, status).runs))
  {
  }

  lemma {:induction false} FirstQueuedIs(runs: seq<Run>, manualOnly: bool, from: nat)
    requires from <= |runs|
    ensures var r := FirstQueued(runs, manualOnly, from);
            && (r.Some? ==>
               from <= r.value < |runs| && runs[r.value].state == Queued
               && (manualOnly ==> runs[r.value].payload.trigger == Manual))
            && (forall j :: from <= j < |runs| && (r.Some? ==> j < r.value) ==>
               !(runs[j].state == Queued && (manualOnly ==> runs[j].payload.trigger == Manual)))
    decreases |runs| - from
  {
    if from < |runs| && !(runs[from].state == Queued && (manualOnly ==> runs[from].payload.trigger == Manual)) {
      FirstQueuedIs(runs, manualOnly, from + 1);
    }
  }

  /**
   A claim takes the oldest manual run, or the oldest run when no manual one waits, and only when nothing is active.
   */
  lemma ClaimOrder(s: State)
    ensures Claimable(s).Some? ==>
              var i := Claimable(s).value;
              && i < |s.runs| && s.runs[i].state == Queued
              && (forall j :: 0 <= j < |s.runs| ==> s.runs[j].state != Active)
              && (forall j ::
                 0 <= j < |s.runs| && s.runs[j].state == Queued && s.runs[j].payload.trigger == Manual ==>
                 s.runs[i].payload.trigger == Manual && i <= j)
              && (forall j ::
                 0 <= j < |s.runs| && s.runs[j].state == Queued && s.runs[i].payload.trigger != Manual ==> i <= j)
    ensures Claimable(s).None? ==> !Idle(s.runs) || forall j :: 0 <= j < |s.runs| ==> s.runs[j].state != Queued
  {
    FirstQueuedIs(s.runs, true, 0);
    FirstQueuedIs(s.runs, false, 0);
    hide FirstQueued;
  }

  lemma ClaimEvolves(s: State)
    ensures Evolves(s.runs, Claim(s).runs) && (OneActive(s.runs) ==> OneActive(Claim(s).runs))
  {
    ClaimOrder(s);
    hide Claimable, Idle;
  }

  lemma InterruptEvolves(s: State)
    ensures Evolves(s.runs, InterruptAll(s).runs) && OneActive(InterruptAll(s).runs)
    ensures |InterruptAll(s).runs| == |s.runs|
    ensures forall i :: 0 <= i < |s.runs| ==>
            InterruptAll(s).runs[i].state != Active
            && (s.runs[i].state == Active ==> IsInterrupted(InterruptAll(s).runs[i]))
  {
    forall i | 0 <= i < |s.runs| ensures Moves(s.runs[i], Interrupted(s.runs[i])) {
      ClosedDates(s.runs[i].days, Outcome.Interrupted);
    }
    hide Closed, Moves;
  }

  // ---- Steps that add a run ----

  lemma {:induction false} FindKeyIs(runs: seq<Run>, key: string, from: nat)
    requires from <= |runs|
    ensures var r := FindKey(runs, key, from);
            && (r.Some? ==> from <= r.value < |runs| && runs[r.value].key == key)
            && (r.None? ==> forall j :: from <= j < |runs| ==> runs[j].key != key)
    decreases |runs| - from
  {
    if from < |runs| && runs[from].key != key {
      FindKeyIs(runs, key, from + 1);
    }
  }

  /** The same request, the dates to retry in any order. */
  ghost predicate SameRequest(p: Payload, q: Payload) {
    && p.(retryDates := None) == q.(retryDates := None)
    && (p.retryDates.Some? <==> q.retryDates.Some?)
    && (p.retryDates.Some? ==> multiset(p.retryDates.value) == multiset(q.retryDates.value))
  }

  lemma SameHashIff(l: Locale, p: Payload, q: Payload)
    requires Lawful(l)
    ensures Hashed(l, p) == Hashed(l, q) <==> SameRequest(p, q)
  {
    if p.retryDates.Some? && q.retryDates.Some? {
      var a, b := p.retryDates.value, q.retryDates.value;
      SortContents(a, l.ordinal);
      SortContents(b, l.ordinal);
      if multiset(a) == multiset(b) { SortForgetsOrder(a, b, l.ordinal); }
      hide Sort;
    }
  }

  /** Intake answers a known key with the run it has; otherwise it adds exactly one queued run, or nothing. */
  lemma EnqueueIs(l: Locale, s: State, payload: Payload, key: string, dates: seq<string>, byRecovery: bool)
    ensures var (after, r) := Enqueue(l, s, payload, key, dates, byRecovery);
            match r
            case Created(id) =>
              && id == |s.runs| && after == s.(runs := s.runs + [NewRun(payload, key, dates, byRecovery)])
              && CountWaiting(s.runs) < QUEUE_LIMIT && ParentExists(s, payload) && DatesDiffer(dates)
              && (key != "" ==> forall j :: 0 <= j < |s.runs| ==> s.runs[j].key != key)
            case Reused(id) =>
                after == s && id < |s.runs| && s.runs[id].key == key
                && Hashed(l, s.runs[id].payload) == Hashed(l, payload) && key != ""
            case KeyConflict => after == s && key != "" && exists id ::
                0 <= id < |s.runs| && s.runs[id].key == key && Hashed(l, s.runs[id].payload) != Hashed(l, payload)
            case QueueFull => after == s && CountWaiting(s.runs) >= QUEUE_LIMIT
            case Refused => after == s && (!ParentExists(s, payload) || !DatesDiffer(dates))
  {
    FindKeyIs(s.runs, key, 0);
    hide FindKey, CountWaiting, DatesDiffer, ParentExists, NewRun;
  }

  lemma AppendSound(l: Locale, s: State, r: Run)
    requires Sound(l, s) && r.state == Queued && CountWaiting(s.runs) < QUEUE_LIMIT && DatesDiffer(DatesOf(r))
    requires r.payload.resumedFrom.Some? ==> r.payload.resumedFrom.value < |s.runs|
    requires r.key != "" ==> forall j :: 0 <= j < |s.runs| ==> s.runs[j].key != r.key
    requires r.byRecovery ==>
             r.payload.resumedFrom.Some? && !HasRetry(s.runs, r.payload.resumedFrom.value)
             && FollowsParent(l, s.runs + [r], |s.runs|)
    ensures Sound(l, s.(runs := s.runs + [r]))
  {
    var a, b := s.runs, s.runs + [r];
    assert forall i :: 0 <= i < |a| ==> b[i] == a[i];
    AppendLinks(l, a, r);
    AppendRetries(a, r);
    assert b[..|a|] == a;
    assert CountWaiting(b) <= CountWaiting(a) + 1;
    assert OneActive(b);
    assert KeysUnique(b);
    assert DatesDistinct(b) by { hide DatesDiffer, DatesOf; }
    hide LinksSound, OneRetryEach, KeysUnique, DatesDistinct, OneActive, CountWaiting;
  }

  lemma AppendLinks(l: Locale, a: seq<Run>, r: Run)
    requires LinksSound(l, a) && (r.payload.resumedFrom.Some? ==> r.payload.resumedFrom.value < |a|)
    requires r.byRecovery ==> FollowsParent(l, a + [r], |a|)
    ensures LinksSound(l, a + [r])
  {
    hide DatesOf, WasCancelled, RetryDates, IsInterrupted;
    var b := a + [r];
    assert forall i :: 0 <= i < |a| ==> b[i] == a[i];
    forall c | 0 <= c < |b| && b[c].byRecovery ensures FollowsParent(l, b, c) {
      if c < |a| { assert FollowsParent(l, a, c); }
    }
  }

  lemma AppendRetries(a: seq<Run>, r: Run)
    requires OneRetryEach(a) && (r.byRecovery ==>
             r.payload.resumedFrom.Some? && !HasRetry(a, r.payload.resumedFrom.value))
    ensures OneRetryEach(a + [r])
  {
    var b := a + [r];
    forall c, d | 0 <= c < d < |b| && b[c].byRecovery
        && b[d].byRecovery ensures b[c].payload.resumedFrom != b[d].payload.resumedFrom {
      assert b[c] == a[c];
    }
  }

  lemma NewRunFields(payload: Payload, key: string, dates: seq<string>, byRecovery: bool)
    ensures var r := NewRun(payload, key, dates, byRecovery);
            r.state == Queued && r.payload == payload && r.key == key && r.byRecovery == byRecovery
                && DatesOf(r) == dates
  {
    assert DatesOf(NewRun(payload, key, dates, byRecovery)) == dates;
  }

  lemma EnqueueSound(l: Locale, s: State, payload: Payload, key: string, dates: seq<string>)
    requires Sound(l, s)
    ensures Sound(l, Enqueue(l, s, payload, key, dates, false).0)
  {
    EnqueueIs(l, s, payload, key, dates, false);
    NewRunFields(payload, key, dates, false);
    hide Sound, Enqueue, NewRun, CountWaiting, DatesOf;
    if Enqueue(l, s, payload, key, dates, false).1.Created? {
      AppendSound(l, s, NewRun(payload, key, dates, false));
    }
  }

  // ---- Linking ----

  /** The queued run that recovery makes for run id. */
  ghost predicate IsRetryOf(l: Locale, s: State, id: nat, n: Run) {
    && id < |s.runs| && n.state == Queued && n.byRecovery && n.payload == RetryPayload(l, s.runs[id], id)
       && n.key != "" && DatesDiffer(DatesOf(n))
    && (forall j :: 0 <= j < |s.runs| ==> s.runs[j].key != n.key)
    && DatesOf(n) == if s.runs[id].payload.mode == Registry then [] else RetryDates(l, s.runs[id])
  }

  ghost predicate Adds(a: State, b: State, n: Run) {
    b == a.(runs := a.runs + [n]) && CountWaiting(a.runs) < QUEUE_LIMIT
  }

  /** Linking does nothing, throws, or adds the retry of that run. */
  lemma LinkIs(l: Locale, s: State, id: nat, scheduling: bool)
    ensures var (after, r) := LinkRetry(l, s, id, scheduling);
            && (r.NotLinked? <==> !WantsRetry(l, s, id, scheduling))
            && (r.Linked? <==> after != s)
            && (after != s ==>
               |after.runs| == |s.runs| + 1 && Adds(s, after, after.runs[|s.runs|])
               && IsRetryOf(l, s, id, after.runs[|s.runs|]))
  {
    if WantsRetry(l, s, id, scheduling) {
      WantsIs(l, s, id, scheduling);
      var r := s.runs[id];
      var payload, key, dates := RetryPayload(l, r, id), RecoveryKey(id), if r.payload.mode == Registry then []
          else RetryDates(l, r);
      PayloadParent(l, r, id);
      assert forall j :: 0 <= j < |s.runs| ==> s.runs[j].payload != payload;
      EnqueueIs(l, s, payload, key, dates, true);
      NewRunFields(payload, key, dates, true);
      KeyNotEmpty(id);
      hide Enqueue, NewRun, RetryPayload, RetryDates, DatesOf, RecoveryKey, WantsRetry, CountWaiting, HasRetry,
           ParentExists, DatesDiffer;
    }
    hide WantsRetry;
  }

  lemma PayloadParent(l: Locale, r: Run, id: nat)
    ensures RetryPayload(l, r, id).resumedFrom == Some(id)
  {
    hide RetryDates;
  }

  lemma KeyNotEmpty(id: nat)
    ensures RecoveryKey(id) != ""
  {
    assert |RecoveryKey(id)| >= |"recovery-run-"|;
  }

  lemma LinkSound(l: Locale, s: State, id: nat, scheduling: bool)
    requires Sound(l, s) && id < |s.runs| && IsInterrupted(s.runs[id])
    ensures Sound(l, LinkRetry(l, s, id, scheduling).0) && Extends(s.runs, LinkRetry(l, s, id, scheduling).0.runs)
  {
    LinkIs(l, s, id, scheduling);
    PayloadParent(l, s.runs[id], id);
    hide Sound, LinkRetry, CountWaiting, DatesOf, RetryPayload, RetryDates, WantsRetry;
    var after := LinkRetry(l, s, id, scheduling).0;
    if after != s {
      var n := after.runs[|s.runs|];
      WantsIs(l, s, id, scheduling);
      NewFollows(l, s.runs, n, id);
      AppendSound(l, s, n);
    }
  }

  lemma WantsIs(l: Locale, s: State, id: nat, scheduling: bool)
    requires WantsRetry(l, s, id, scheduling)
    ensures id < |s.runs| && !WasCancelled(s.runs[id]) && !HasRetry(s.runs, id)
  {
  }

  lemma NewFollows(l: Locale, a: seq<Run>, n: Run, id: nat)
    requires id < |a| && IsInterrupted(a[id]) && !WasCancelled(a[id]) && n.payload.resumedFrom == Some(id)
    requires DatesOf(n) == if a[id].payload.mode == Registry then [] else RetryDates(l, a[id])
    ensures FollowsParent(l, a + [n], |a|)
  {
    hide DatesOf, WasCancelled, RetryDates, IsInterrupted;
    assert (a + [n])[id] == a[id] && (a + [n])[|a|] == n;
  }

  ghost predicate AllInterrupted(runs: seq<Run>, ids: seq<nat>) {
    forall k :: 0 <= k < |ids| ==> ids[k] < |runs| && IsInterrupted(runs[ids[k]])
  }

  /** Nothing but new runs at the end. */
  ghost predicate Extends(a: seq<Run>, b: seq<Run>) {
    |a| <= |b| && forall i :: 0 <= i < |a| ==> b[i] == a[i]
  }

  lemma LastInterrupted(a: seq<Run>, b: seq<Run>, ids: seq<nat>)
    requires AllInterrupted(a, ids) && ids != []
    ensures AllInterrupted(a, ids[..|ids| - 1])
    ensures Extends(a, b) ==> ids[|ids| - 1] < |b| && IsInterrupted(b[ids[|ids| - 1]])
  {
    hide IsInterrupted;
  }

  lemma LinkAllStep(l: Locale, s: State, ids: seq<nat>, scheduling: bool)
    requires ids != []
    ensures LinkAll(l, s, ids, scheduling) ==
              var (before, ok) := LinkAll(l, s, ids[..|ids| - 1], scheduling);
              if !ok then (before, false)
              else (LinkRetry(l, before, ids[|ids| - 1], scheduling).0,
                  LinkRetry(l, before, ids[|ids| - 1], scheduling).1 != LinkThrew)
  {
    hide LinkRetry;
  }

  lemma ExtendsTransitive(a: seq<Run>, b: seq<Run>, c: seq<Run>)
    ensures Extends(a, a)
    ensures Extends(a, b) && Extends(b, c) ==> Extends(a, c)
  {
  }

  lemma {:induction false} LinkAllSound(l: Locale, s: State, ids: seq<nat>, scheduling: bool)
    requires Sound(l, s) && AllInterrupted(s.runs, ids)
    ensures Sound(l, LinkAll(l, s, ids, scheduling).0)
    ensures Extends(s.runs, LinkAll(l, s, ids, scheduling).0.runs)
  {
    hide Sound, LinkRetry, Extends, AllInterrupted;
    var after := LinkAll(l, s, ids, scheduling).0.runs;
    if ids == [] {
      ExtendsTransitive(s.runs, after, after);
    } else {
      var n := |ids| - 1;
      var before := LinkAll(l, s, ids[..n], scheduling).0;
      LastInterrupted(s.runs, before.runs, ids);
      LinkAllSound(l, s, ids[..n], scheduling);
      LinkSound(l, before, ids[n], scheduling);
      ExtendsTransitive(s.runs, before.runs, after);
      hide LinkAll;
      LinkAllStep(l, s, ids, scheduling);
    }
  }

  lemma {:induction false} ActiveIdsAre(s: State, n: nat)
    requires n <= |s.runs|
    ensures forall k :: 0 <= k < |ActiveIds(s, n)| ==>
            ActiveIds(s, n)[k] < n && s.runs[ActiveIds(s, n)[k]].state == Active
  {
    if n > 0 { ActiveIdsAre(s, n - 1); }
  }

  lemma {:induction false} DeferredIdsAre(s: State, n: nat)
    requires n <= |s.runs|
    ensures forall k :: 0 <= k < |DeferredIds(s, n)| ==> DeferredIds(s, n)[k] < n && Deferred(s, DeferredIds(s, n)[k])
    ensures forall i: nat :: i < n && Deferred(s, i) ==> i in DeferredIds(s, n)
  {
    hide Deferred;
    if n > 0 { DeferredIdsAre(s, n - 1); }
  }

  lemma DeferredSound(l: Locale, s: State)
    requires Sound(l, s)
    ensures Sound(l, RecoverDeferred(l, s).0)
  {
    DeferredIdsAre(s, |s.runs|);
    hide Sound, LinkAll, DeferredIds;
    LinkAllSound(l, s, DeferredIds(s, |s.runs|), true);
  }

  lemma RecoverSound(l: Locale, s: State)
    requires Sound(l, s)
    ensures Sound(l, Recover(l, s).0)
  {
    ActiveIdsAre(s, |s.runs|);
    InterruptEvolves(s);
    hide LinkAll, ActiveIds, InterruptAll, RecoverDeferred, Sound, Evolves;
    EvolvesSound(l, s, InterruptAll(s));
    LinkAllSound(l, InterruptAll(s), ActiveIds(s, |s.runs|), s.scheduling);
    var (linked, ok) := LinkAll(l, InterruptAll(s), ActiveIds(s, |s.runs|), s.scheduling);
    if ok && s.scheduling { DeferredSound(l, linked); }
  }

  lemma SoundParts(l: Locale, s: State)
    ensures Sound(l, s) ==> OneActive(s.runs)
  {
  }

  lemma StepSound(l: Locale, s: State, e: Event)
    requires Sound(l, s)
    ensures Sound(l, Step(l, s, e))
  {
    SoundParts(l, s);
    hide Sound, Enqueue, Claim, Cancel, Complete, WriteDay, Recover, RecoverDeferred, Evolves, OneActive;
    match e
    case Enqueueing(payload, key, dates) => EnqueueSound(l, s, payload, key, dates);
    case Claiming => ClaimEvolves(s); EvolvesSound(l, s, Claim(s));
    case Cancelling(id) => CancelEvolves(s, id); EvolvesSound(l, s, Cancel(s, id));
    case Completing(id, status, code) =>
        CompleteEvolves(s, id, status, code); EvolvesSound(l, s, Complete(s, id, status, code));
    case WritingDay(id, i, status) => WriteEvolves(s, id, i, status); EvolvesSound(l, s, WriteDay(s, id, i, status));
    case Recovering => RecoverSound(l, s);
    case RecoveringDeferred => DeferredSound(l, s);
    case Scheduling(on) => SameRunsSound(l, s, on);
  }

  lemma SameRunsSound(l: Locale, s: State, on: bool)
    requires Sound(l, s)
    ensures Sound(l, s.(scheduling := on))
  {
  }

  /**
   Over any history: recovery makes at most one retry of a run and none of a cancelled one, a retry takes exactly
   the unfinished dates of its parent, links point to older runs, keys are unique, one run is active at most, and
   at most ten runs wait.
   */
  lemma {:induction false} HistorySound(l: Locale, s: State, events: seq<Event>)
    requires Sound(l, s)
    ensures Sound(l, History(l, s, events))
  {
    hide Sound, Step;
    if events != [] {
      HistorySound(l, s, events[..|events| - 1]);
      StepSound(l, History(l, s, events[..|events| - 1]), events[|events| - 1]);
    }
  }

  lemma FreshIsSound(l: Locale, scheduling: bool)
    ensures Sound(l, State([], scheduling))
  {
  }

  /** So it does from the empty queue. */
  lemma EveryHistoryIsSound(l: Locale, scheduling: bool, events: seq<Event>)
    ensures Sound(l, History(l, State([], scheduling), events))
  {
    FreshIsSound(l, scheduling);
    HistorySound(l, State([], scheduling), events);
    hide Sound, History;
  }
}
