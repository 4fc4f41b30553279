/** Chains of recovery retries: acyclic, shrinking, never running a finished date again, and complete. */
module RecoveryChains {
  import opened Options
  import opened Orders
  import opened Locales
  import opened RunQueue
  import opened Recovery
  import Outcome

  // ---- Ended runs are frozen ----

  /** Runs are never removed, and an ended run never changes. */
  ghost predicate Grows(a: seq<Run>, b: seq<Run>) {
    |a| <= |b| && forall i :: 0 <= i < |a| ==> Moves(a[i], b[i])
  }

  lemma MovesReflexive(r: Run)
    ensures Moves(r, r)
  {
  }

  lemma GrowsTransitive(a: seq<Run>, b: seq<Run>, c: seq<Run>)
    requires Grows(a, b) && Grows(b, c)
    ensures Grows(a, c)
  {
    forall i | 0 <= i < |a| ensures Moves(a[i], c[i]) {
      assert Moves(a[i], b[i]) && Moves(b[i], c[i]);
    }
  }

  lemma EvolvesGrows(a: seq<Run>, b: seq<Run>)
    ensures Evolves(a, b) ==> Grows(a, b)
    ensures Extends(a, b) ==> Grows(a, b)
  {
    if Extends(a, b) {
      forall i | 0 <= i < |a| ensures Moves(a[i], b[i]) { MovesReflexive(a[i]); }
    }
    hide Moves;
  }

  lemma {:induction false} LinkAllExtends(l: Locale, s: State, ids: seq<nat>, scheduling: bool)
    ensures Extends(s.runs, LinkAll(l, s, ids, scheduling).0.runs)
  {
    hide LinkRetry;
    if ids != [] {
      var n := |ids| - 1;
      LinkAllExtends(l, s, ids[..n], scheduling);
      LinkIs(l, LinkAll(l, s, ids[..n], scheduling).0, ids[n], scheduling);
      hide WantsRetry, IsRetryOf;
    }
  }

  lemma RecoverGrows(l: Locale, s: State)
    ensures Grows(s.runs, Recover(l, s).0.runs)
  {
    InterruptEvolves(s);
    var start := InterruptAll(s);
    LinkAllExtends(l, start, ActiveIds(s, |s.runs|), s.scheduling);
    var linked := LinkAll(l, start, ActiveIds(s, |s.runs|), s.scheduling).0;
    LinkAllExtends(l, linked, DeferredIds(linked, |linked.runs|), true);
    EvolvesGrows(s.runs, start.runs);
    EvolvesGrows(start.runs, linked.runs);
    EvolvesGrows(linked.runs, RecoverDeferred(l, linked).0.runs);
    hide LinkAll, InterruptAll, ActiveIds, DeferredIds, Grows, Evolves, Extends, IsInterrupted;
    GrowsTransitive(s.runs, start.runs, linked.runs);
    GrowsTransitive(s.runs, linked.runs, RecoverDeferred(l, linked).0.runs);
  }

  lemma StepGrows(l: Locale, s: State, e: Event)
    ensures Grows(s.runs, Step(l, s, e).runs)
  {
    hide Enqueue, Claim, Cancel, Complete, WriteDay, Recover, LinkAll, DeferredIds, Evolves, Extends, Grows,
         OneActive, NewRun;
    EvolvesGrows(s.runs, Step(l, s, e).runs);
    match e
    case Enqueueing(payload, key, dates) =>
        EnqueueIs(l, s, payload, key, dates, false); AppendExtends(s.runs, Step(l, s, e).runs);
    case Claiming => ClaimEvolves(s);
    case Cancelling(id) => CancelEvolves(s, id);
    case Completing(id, status, code) => CompleteEvolves(s, id, status, code);
    case WritingDay(id, i, status) => WriteEvolves(s, id, i, status);
    case Recovering => RecoverGrows(l, s);
    case RecoveringDeferred => LinkAllExtends(l, s, DeferredIds(s, |s.runs|), true);
    case Scheduling(on) => AppendExtends(s.runs, s.runs);
  }

  lemma AppendExtends(a: seq<Run>, b: seq<Run>)
    ensures a == b || (|b| == |a| + 1 && b == a + [b[|a|]]) ==> Extends(a, b)
  {
  }

  lemma {:induction false} HistoryGrows(l: Locale, s: State, events: seq<Event>)
    ensures Grows(s.runs, History(l, s, events).runs)
  {
    hide Grows, Step;
    if events == [] {
      EvolvesGrows(s.runs, s.runs);
      AppendExtends(s.runs, s.runs);
    } else {
      var before := History(l, s, events[..|events| - 1]);
      HistoryGrows(l, s, events[..|events| - 1]);
      StepGrows(l, before, events[|events| - 1]);
      GrowsTransitive(s.runs, before.runs, History(l, s, events).runs);
    }
  }

  /** An ended run, its dates and their statuses stay as they are in every later history. */
  lemma EndedIsFrozen(l: Locale, s: State, events: seq<Event>, id: nat)
    requires id < |s.runs| && s.runs[id].state.Ended?
    ensures id < |History(l, s, events).runs| && History(l, s, events).runs[id] == s.runs[id]
  {
    HistoryGrows(l, s, events);
    assert Moves(s.runs[id], History(l, s, events).runs[id]);
    hide History;
  }

  // ---- Transitions ----

  /** The documented transitions of a run; ended runs have none. */
  predicate ValidRunTransition(from: RunState, to: RunState) {
    from == to || match from
      case Queued => to == Active || to == Ended(Outcome.RunCancelled) || to == Ended(Outcome.RunInterrupted)
      case Active => to.Ended?
      case Ended(_) => false
  }

  ghost predicate Transitions(a: seq<Run>, b: seq<Run>) {
    |a| <= |b| && forall i :: 0 <= i < |a| ==> ValidRunTransition(a[i].state, b[i].state)
  }

  lemma ExtendsTransitions(a: seq<Run>, b: seq<Run>, c: seq<Run>)
    ensures Extends(a, b) ==> Transitions(a, b)
    ensures Transitions(a, b) && Extends(b, c) ==> Transitions(a, c)
  {
  }

  lemma RecoverTransitions(l: Locale, s: State)
    ensures Transitions(s.runs, Recover(l, s).0.runs)
  {
    var start := InterruptAll(s);
    assert Transitions(s.runs, start.runs) by { hide Closed; }
    LinkAllExtends(l, start, ActiveIds(s, |s.runs|), s.scheduling);
    var linked := LinkAll(l, start, ActiveIds(s, |s.runs|), s.scheduling).0;
    LinkAllExtends(l, linked, DeferredIds(linked, |linked.runs|), true);
    ExtendsTransitions(s.runs, start.runs, linked.runs);
    ExtendsTransitions(s.runs, linked.runs, RecoverDeferred(l, linked).0.runs);
    hide LinkAll, InterruptAll, ActiveIds, DeferredIds, Extends, Transitions;
  }

  /** No step of the queue makes a run change its status in any other way. */
  lemma StepsAreValidTransitions(l: Locale, s: State, e: Event)
    ensures Transitions(s.runs, Step(l, s, e).runs)
  {
    hide Recover, LinkAll, DeferredIds, Claimable, Enqueue, NewRun, Closed;
    match e
    case Enqueueing(payload, key, dates) =>
      EnqueueIs(l, s, payload, key, dates, false);
      AppendExtends(s.runs, Step(l, s, e).runs);
      ExtendsTransitions(s.runs, Step(l, s, e).runs, []);
    case Claiming => ClaimOrder(s);
    case Cancelling(id) =>
    case Completing(id, status, code) =>
    case WritingDay(id, i, status) =>
    case Recovering => RecoverTransitions(l, s);
    case RecoveringDeferred =>
      LinkAllExtends(l, s, DeferredIds(s, |s.runs|), true);
      ExtendsTransitions(s.runs, Step(l, s, e).runs, []);
    case Scheduling(on) =>
  }

  // ---- Chains ----

  ghost predicate IsRecoveryLink(runs: seq<Run>, parent: nat, child: nat) {
    child < |runs| && runs[child].byRecovery && runs[child].payload.resumedFrom == Some(parent)
  }

  /** Each run is the recovery retry of the one before. */
  ghost predicate Chain(runs: seq<Run>, ids: seq<nat>) {
    && (forall k :: 0 <= k < |ids| ==> ids[k] < |runs|)
    && (forall k :: 0 < k < |ids| ==> IsRecoveryLink(runs, ids[k - 1], ids[k]))
  }

  ghost predicate IsUnfinishedIn(r: Run, date: string) {
    exists i :: 0 <= i < |r.days| && r.days[i].date == date && Unfinished(r.days[i])
  }

  lemma {:induction false} UnfinishedDatesAre(days: seq<DayEntry>, date: string)
    ensures date in UnfinishedDates(days) <==> exists i ::
            0 <= i < |days| && days[i].date == date && Unfinished(days[i])
  {
    if days != [] {
      var n := |days| - 1;
      UnfinishedDatesAre(days[..n], date);
      hide Unfinished;
      if date in UnfinishedDates(days[..n]) {
        var i :| 0 <= i < n && days[..n][i].date == date && Unfinished(days[..n][i]);
        assert days[i] == days[..n][i];
      }
      if exists i :: 0 <= i < |days| && days[i].date == date && Unfinished(days[i]) {
        var i :| 0 <= i < |days| && days[i].date == date && Unfinished(days[i]);
        if i < n { assert days[..n][i] == days[i]; }
      }
    }
  }

  /** The dates of a retry are exactly the interrupted or pending dates of its parent. */
  lemma RetryTakesUnfinished(l: Locale, s: State, c: nat, date: string)
    requires Sound(l, s) && c < |s.runs| && s.runs[c].byRecovery
    ensures var p := s.runs[c].payload.resumedFrom;
            && p.Some? && p.value < c && IsInterrupted(s.runs[p.value]) && !WasCancelled(s.runs[p.value])
            && (s.runs[p.value].payload.mode != Registry ==>
               (date in DatesOf(s.runs[c]) <==> IsUnfinishedIn(s.runs[p.value], date)))
            && (s.runs[p.value].payload.mode == Registry ==> s.runs[c].days == [])
  {
    assert FollowsParent(l, s.runs, c);
    var p := s.runs[c].payload.resumedFrom.value;
    UnfinishedDatesAre(s.runs[p].days, date);
    SortMembers(UnfinishedDates(s.runs[p].days), l.ordinal);
    NoDatesNoDays(s.runs[c]);
    hide Sound, DatesOf, Unfinished, UnfinishedDates, Sort, IsInterrupted, WasCancelled;
  }

  lemma NoDatesNoDays(r: Run)
    ensures DatesOf(r) == [] <==> r.days == []
  {
  }

  lemma UnfinishedIsDate(r: Run, date: string)
    requires IsUnfinishedIn(r, date)
    ensures date in DatesOf(r)
  {
    var i :| 0 <= i < |r.days| && r.days[i].date == date && Unfinished(r.days[i]);
    assert DatesOf(r)[i] == date;
  }

  /** Along a chain ids grow, and every date of a later link is still unfinished in each earlier one. */
  lemma {:induction false} ChainShrinks(l: Locale, s: State, ids: seq<nat>, i: nat, j: nat, date: string)
    requires Sound(l, s) && Chain(s.runs, ids) && i < j < |ids|
    ensures ids[i] < ids[j]
    ensures date in DatesOf(s.runs[ids[j]]) ==> IsUnfinishedIn(s.runs[ids[i]], date)
    decreases j - i
  {
    hide Sound, DatesOf, IsUnfinishedIn, IsInterrupted, WasCancelled;
    assert IsRecoveryLink(s.runs, ids[j - 1], ids[j]);
    RetryTakesUnfinished(l, s, ids[j], date);
    EmptyRetry(s.runs[ids[j]], date);
    if i < j - 1 {
      ChainShrinks(l, s, ids, i, j - 1, date);
      if IsUnfinishedIn(s.runs[ids[j - 1]], date) { UnfinishedIsDate(s.runs[ids[j - 1]], date); }
    }
  }

  lemma EmptyRetry(r: Run, date: string)
    ensures r.days == [] ==> date !in DatesOf(r)
  {
  }

  /** A date that one link of a chain finished is not run by any later link. */
  lemma FinishedIsNeverRerun(l: Locale, s: State, ids: seq<nat>, i: nat, j: nat, k: nat)
    requires Sound(l, s) && Chain(s.runs, ids) && i < j < |ids|
    requires k < |s.runs[ids[i]].days| && !Unfinished(s.runs[ids[i]].days[k])
    ensures s.runs[ids[i]].days[k].date !in DatesOf(s.runs[ids[j]])
  {
    var date := s.runs[ids[i]].days[k].date;
    ChainShrinks(l, s, ids, i, j, date);
    OneRowPerDate(l, s, ids[i], k);
    hide Sound, DatesOf, Unfinished;
  }

  lemma OneRowPerDate(l: Locale, s: State, id: nat, k: nat)
    requires Sound(l, s) && id < |s.runs| && k < |s.runs[id].days| && !Unfinished(s.runs[id].days[k])
    ensures !IsUnfinishedIn(s.runs[id], s.runs[id].days[k].date)
  {
    var dates := DatesOf(s.runs[id]);
    assert DatesDiffer(dates);
    hide LinksSound, OneRetryEach, KeysUnique, OneActive, CountWaiting;
    assert forall i :: 0 <= i < |dates| && dates[i] == dates[k] ==> i == k;
    assert forall i :: 0 <= i < |dates| ==> dates[i] == s.runs[id].days[i].date;
  }

  // ---- Recovery misses nothing ----

  lemma {:induction false} LinkAllLinks(l: Locale, s: State, ids: seq<nat>, scheduling: bool, k: nat)
    requires k < |ids| && LinkAll(l, s, ids, scheduling).1 && WantsRetry(l, s, ids[k], scheduling)
    ensures HasRetry(LinkAll(l, s, ids, scheduling).0.runs, ids[k])
  {
    hide LinkRetry, WantsRetry, HasRetry;
    var n := |ids| - 1;
    var before, after := LinkAll(l, s, ids[..n], scheduling).0, LinkAll(l, s, ids, scheduling).0;
    LinkIs(l, before, ids[n], scheduling);
    LinkAllExtends(l, s, ids[..n], scheduling);
    if k < n {
      LinkAllLinks(l, s, ids[..n], scheduling, k);
      if after != before { StillHasRetry(before.runs, after.runs, ids[k]); }
    } else if WantsRetry(l, before, ids[n], scheduling) {
      LinkedHasRetry(l, before, after, ids[n]);
    } else {
      OnlyRetryCanMiss(l, s, before, ids[n], scheduling);
    }
  }

  lemma StillHasRetry(a: seq<Run>, b: seq<Run>, id: nat)
    requires HasRetry(a, id) && |a| <= |b| && forall i :: 0 <= i < |a| ==> b[i] == a[i]
    ensures HasRetry(b, id)
  {
    var i :| 0 <= i < |a| && a[i].payload.resumedFrom == Some(id);
    assert b[i].payload.resumedFrom == Some(id);
  }

  lemma LinkedHasRetry(l: Locale, a: State, b: State, id: nat)
    requires |b.runs| == |a.runs| + 1 && IsRetryOf(l, a, id, b.runs[|a.runs|])
    ensures HasRetry(b.runs, id)
  {
    PayloadParent(l, a.runs[id], id);
    hide RetryPayload, RetryDates, DatesOf;
    assert b.runs[|a.runs|].payload.resumedFrom == Some(id);
  }

  lemma OnlyRetryCanMiss(l: Locale, a: State, b: State, id: nat, scheduling: bool)
    requires WantsRetry(l, a, id, scheduling) && !WantsRetry(l, b, id, scheduling) && Extends(a.runs, b.runs)
    ensures HasRetry(b.runs, id)
  {
    hide RetryDates, HasRetry, WasCancelled;
  }

  /** When deferred recovery ends without an exception, every interrupted run that wants a retry has one. */
  lemma DeferredIsComplete(l: Locale, s: State, id: nat)
    requires RecoverDeferred(l, s).1 && WantsRetry(l, s, id, true) && IsInterrupted(s.runs[id])
    ensures HasRetry(RecoverDeferred(l, s).0.runs, id)
  {
    DeferredIdsAre(s, |s.runs|);
    DeferredWhenWanted(l, s, id);
    var ids := DeferredIds(s, |s.runs|);
    var k :| 0 <= k < |ids| && ids[k] == id;
    hide DeferredIds, LinkAll, WantsRetry, HasRetry;
    LinkAllLinks(l, s, ids, true, k);
  }

  lemma DeferredWhenWanted(l: Locale, s: State, id: nat)
    requires WantsRetry(l, s, id, true) && IsInterrupted(s.runs[id])
    ensures Deferred(s, id) && id < |s.runs|
  {
    hide RetryDates, HasRetry;
  }

  // ---- Intake is idempotent ----

  /**
   The same request with the same key, its dates in any order and at any later time, gets the run it got before and
   adds none.
   */
  lemma IntakeIsIdempotent(l: Locale, s: State, payload: Payload, again: Payload, key: string, dates: seq<string>,
                           events: seq<Event>)
    requires Lawful(l) && Sound(l, s) && key != "" && SameRequest(payload, again)
    requires var r := Enqueue(l, s, payload, key, dates, false).1; r.Created? || r.Reused?
    ensures var (s1, r) := Enqueue(l, s, payload, key, dates, false);
            Enqueue(l, History(l, s1, events), again, key, dates, false) == (History(l, s1, events), Reused(r.id))
  {
    var (s1, r) := Enqueue(l, s, payload, key, dates, false);
    EnqueueIs(l, s, payload, key, dates, false);
    NewRunFields(payload, key, dates, false);
    EnqueueSound(l, s, payload, key, dates);
    SameHashIff(l, payload, again);
    hide Enqueue, History, Sound, NewRun, DatesOf, Hashed, SameRequest;
    assert r.id < |s1.runs| && s1.runs[r.id].key == key && Hashed(l, s1.runs[r.id].payload) == Hashed(l, again);
    var s2 := History(l, s1, events);
    HistoryGrows(l, s1, events);
    HistorySound(l, s1, events);
    assert Moves(s1.runs[r.id], s2.runs[r.id]);
    SameHashIff(l, s2.runs[r.id].payload, again);
    SameKeySameAnswer(l, s2, r.id, again, key, dates);
  }

  /** A request whose key is known is answered by that run: reused for the same request, a conflict for any other. */
  lemma SameKeySameAnswer(l: Locale, s: State, id: nat, payload: Payload, key: string, dates: seq<string>)
    requires Lawful(l) && Sound(l, s) && id < |s.runs| && s.runs[id].key == key && key != ""
    ensures Enqueue(l, s, payload, key, dates, false)
            == (s, if SameRequest(s.runs[id].payload, payload) then Reused(id) else KeyConflict)
  {
    FindKeyIs(s.runs, key, 0);
    SameHashIff(l, s.runs[id].payload, payload);
    hide LinksSound, OneRetryEach, DatesDistinct, OneActive, CountWaiting, FindKey, DatesDiffer, ParentExists,
         Hashed, SameRequest;
    var found := FindKey(s.runs, key, 0);
    assert forall j :: 0 <= j < |s.runs| && s.runs[j].key == key ==> j == id;
  }
}
