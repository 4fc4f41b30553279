/** What recovery has done when it ends, and exactly when it ends with an exception. */
module RecoveryEnds {
  import opened Orders
  import opened Rearrange
  import opened Locales
  import opened RunQueue
  import opened Recovery
  import opened RecoveryChains
  import opened QueueSteps
  import Calendar

  /** The retry of the run cannot be queued: its key is in use, or ten runs are waiting. */
  ghost predicate Stuck(s: State, id: nat) {
    || (exists i :: 0 <= i < |s.runs| && s.runs[i].key == "recovery-run-" + Calendar.Decimal(id))
    || |set i | 0 <= i < |s.runs| && (s.runs[i].state == Queued || s.runs[i].state == Active)| >= 10
  }

  // ---- One link ----

  lemma {:induction false} UnfinishedDiffer(days: seq<DayEntry>)
    requires forall i, j :: 0 <= i < j < |days| ==> days[i].date != days[j].date
    ensures DistinctBy(UnfinishedDates(days), (d: string) => d)
  {
    if days != [] {
      var n := |days| - 1;
      UnfinishedDiffer(days[..n]);
      UnfinishedDatesAre(days[..n], days[n].date);
      var init := UnfinishedDates(days[..n]);
      assert days[n].date !in init;
      assert forall i :: 0 <= i < |init| ==> init[i] in init;
    }
  }

  lemma RetryDatesDiffer(l: Locale, r: Run)
    requires DatesDiffer(DatesOf(r))
    ensures forall i, j :: 0 <= i < j < |RetryDates(l, r)| ==> RetryDates(l, r)[i] != RetryDates(l, r)[j]
  {
    var dates := UnfinishedDates(r.days);
    assert forall i :: 0 <= i < |r.days| ==> DatesOf(r)[i] == r.days[i].date;
    UnfinishedDiffer(r.days);
    SortContents(dates, l.ordinal);
    DistinctByPermuted(dates, RetryDates(l, r), (d: string) => d);
    hide UnfinishedDates, Sort;
  }

  /** Linking throws exactly for a run that needs a retry which cannot be queued. */
  lemma LinkThrewIff(l: Locale, s: State, id: nat, scheduling: bool)
    requires Lawful(l) && Sound(l, s)
    ensures LinkRetry(l, s, id, scheduling).1 == LinkThrew <==> NeedsRetry(s, id, scheduling) && Stuck(s, id)
  {
    hide *;
    NeedsRetryIs(l, s, id, scheduling);
    if WantsRetry(l, s, id, scheduling) {
      WantsIs(l, s, id, scheduling);
      var r := s.runs[id];
      var dates := if r.payload.mode == Registry then [] else RetryDates(l, r);
      SoundDates(l, s, id);
      RetryDatesDiffer(l, r);
      PayloadParent(l, r, id);
      KeyNotEmpty(id);
      IntakeMeans(l, s, RetryPayload(l, r, id), RecoveryKey(id), dates, true);
      LinkIs(l, s, id, scheduling);
      LinkAnswer(l, s, id, scheduling);
      StuckIs(s, id);
    } else {
      LinkIs(l, s, id, scheduling);
    }
  }

  lemma SoundDates(l: Locale, s: State, id: nat)
    requires Sound(l, s) && id < |s.runs|
    ensures DatesDiffer(DatesOf(s.runs[id]))
  {
    hide LinksSound, OneRetryEach, KeysUnique, OneActive, CountWaiting, DatesOf, DatesDiffer;
  }

  lemma StuckIs(s: State, id: nat)
    ensures Stuck(s, id) <==>
            || (exists i :: 0 <= i < |s.runs| && s.runs[i].key == RecoveryKey(id))
            || |set i | 0 <= i < |s.runs| && (s.runs[i].state == Queued || s.runs[i].state == Active)| >= 10
  {
    hide Calendar.Decimal;
  }

  lemma LinkAnswer(l: Locale, s: State, id: nat, scheduling: bool)
    requires WantsRetry(l, s, id, scheduling) && id < |s.runs|
    ensures var r := s.runs[id];
            var (after, intake) := Enqueue(l, s, RetryPayload(l, r, id), RecoveryKey(id),
                                           if r.payload.mode == Registry then [] else RetryDates(l, r), true);
            && (LinkRetry(l, s, id, scheduling).1 == LinkThrew <==> !intake.Created? && !intake.Reused?)
            && (intake.Reused? ==> LinkRetry(l, s, id, scheduling).0 == s)
            && (LinkRetry(l, s, id, scheduling).1 == LinkThrew ==> LinkRetry(l, s, id, scheduling).0 == s)
  {
    EnqueueIs(l, s, RetryPayload(l, s.runs[id], id), RecoveryKey(id),
              if s.runs[id].payload.mode == Registry then [] else RetryDates(l, s.runs[id]), true);
    hide Enqueue, WantsRetry, RetryPayload, RetryDates, RecoveryKey, NewRun, CountWaiting, Hashed,
         ParentExists, DatesDiffer;
  }

  // ---- All links ----

  /** Nothing but a retry ends the need for one, and it stays. */
  lemma NeedEnds(a: State, b: State, id: nat, scheduling: bool)
    requires Extends(a.runs, b.runs) && id < |a.runs| && NeedsRetry(b, id, scheduling)
    ensures NeedsRetry(a, id, scheduling)
  {
    hide LeftOpen;
  }

  lemma LinkedNeedsNone(l: Locale, s: State, id: nat, scheduling: bool)
    requires LinkRetry(l, s, id, scheduling).1 != LinkThrew
    ensures !NeedsRetry(LinkRetry(l, s, id, scheduling).0, id, scheduling)
    ensures Extends(s.runs, LinkRetry(l, s, id, scheduling).0.runs)
  {
    var after := LinkRetry(l, s, id, scheduling).0;
    LinkIs(l, s, id, scheduling);
    NeedsRetryIs(l, s, id, scheduling);
    NeedsRetryIs(l, after, id, scheduling);
    hide LinkRetry, NeedsRetry, CountWaiting;
    if after != s {
      LinkedHasRetry(l, s, after, id);
      hide IsRetryOf;
    }
    hide HasRetry, RetryDates;
  }

  ghost predicate NoneNeeds(s: State, ids: seq<nat>, scheduling: bool) {
    forall id :: id in ids ==> !NeedsRetry(s, id, scheduling)
  }

  ghost predicate OneStuck(s: State, ids: seq<nat>, scheduling: bool) {
    exists id :: id in ids && NeedsRetry(s, id, scheduling) && Stuck(s, id)
  }

  /**
   The loop ends without an exception when no run of the list needs a retry any more, and stops at one that is
   stuck.
   */
  lemma {:induction false} LinkAllEnds(l: Locale, s: State, ids: seq<nat>, scheduling: bool)
    requires Lawful(l) && Sound(l, s) && AllInterrupted(s.runs, ids)
    ensures var (after, ok) := LinkAll(l, s, ids, scheduling);
            if ok then NoneNeeds(after, ids, scheduling) else OneStuck(after, ids, scheduling)
  {
    if ids != [] {
      hide *;
      var n := |ids| - 1;
      LastInterrupted(s.runs, s.runs, ids);
      LinkAllEnds(l, s, ids[..n], scheduling);
      LinkAllSound(l, s, ids[..n], scheduling);
      LinkAllStep(l, s, ids, scheduling);
      var (before, ok) := LinkAll(l, s, ids[..n], scheduling);
      if ok {
        LinkThrewIff(l, before, ids[n], scheduling);
        ThrewKeeps(l, before, ids[n], scheduling);
        if LinkRetry(l, before, ids[n], scheduling).1 != LinkThrew {
          LinkedNeedsNone(l, before, ids[n], scheduling);
          NoneMore(s, before, LinkRetry(l, before, ids[n], scheduling).0, ids, scheduling);
        } else {
          LastStuck(before, ids, scheduling);
        }
      } else {
        StuckBefore(before, ids, scheduling);
      }
    }
  }

  lemma NoneMore(s: State, before: State, after: State, ids: seq<nat>, scheduling: bool)
    requires ids != [] && AllInterrupted(s.runs, ids) && Extends(s.runs, before.runs)
             && Extends(before.runs, after.runs)
    requires NoneNeeds(before, ids[..|ids| - 1], scheduling) && !NeedsRetry(after, ids[|ids| - 1], scheduling)
    ensures NoneNeeds(after, ids, scheduling)
  {
    hide NeedsRetry, IsInterrupted;
    forall id | id in ids ensures !NeedsRetry(after, id, scheduling) {
      var k :| 0 <= k < |ids| && ids[k] == id;
      if k < |ids| - 1 {
        assert ids[..|ids| - 1][k] == id;
        if NeedsRetry(after, id, scheduling) { NeedEnds(before, after, id, scheduling); }
      }
    }
  }

  lemma LastStuck(s: State, ids: seq<nat>, scheduling: bool)
    requires ids != [] && NeedsRetry(s, ids[|ids| - 1], scheduling) && Stuck(s, ids[|ids| - 1])
    ensures OneStuck(s, ids, scheduling)
  {
    hide NeedsRetry, Stuck;
  }

  lemma StuckBefore(s: State, ids: seq<nat>, scheduling: bool)
    requires ids != [] && OneStuck(s, ids[..|ids| - 1], scheduling)
    ensures OneStuck(s, ids, scheduling)
  {
    hide NeedsRetry, Stuck;
  }

  lemma ThrewKeeps(l: Locale, s: State, id: nat, scheduling: bool)
    ensures LinkRetry(l, s, id, scheduling).1 == LinkThrew ==> LinkRetry(l, s, id, scheduling).0 == s
  {
    hide Enqueue, WantsRetry, RetryPayload, RetryDates, RecoveryKey;
  }

  // ---- A whole recovery ----

  lemma {:induction false} ActiveIdsComplete(s: State, n: nat)
    requires n <= |s.runs|
    ensures forall i: nat :: i < n && s.runs[i].state == Active ==> i in ActiveIds(s, n)
  {
    if n > 0 { ActiveIdsComplete(s, n - 1); }
  }

  /** Deferred recovery ends well exactly when no interrupted run needs a retry any more. */
  lemma DeferredEnds(l: Locale, s: State)
    requires Lawful(l) && Sound(l, s)
    ensures var (after, ok) := RecoverDeferred(l, s);
            && Sound(l, after) && Extends(s.runs, after.runs)
            && (ok ==> forall id: nat :: id < |after.runs| && IsInterrupted(after.runs[id]) ==>
               !NeedsRetry(after, id, true))
            && (!ok ==> exists id: nat ::
                  id < |after.runs| && IsInterrupted(after.runs[id]) && NeedsRetry(after, id, true) && Stuck(after, id))
  {
    hide *;
    var ids := DeferredIds(s, |s.runs|);
    DeferredIdsAre(s, |s.runs|);
    DeferredInterrupted(s, ids);
    LinkAllEnds(l, s, ids, true);
    LinkAllSound(l, s, ids, true);
    DeferredIs(l, s);
    var (after, ok) := LinkAll(l, s, ids, true);
    if ok {
      forall id: nat | id < |after.runs| && IsInterrupted(after.runs[id]) ensures !NeedsRetry(after, id, true) {
        NewAreQueued(l, s, ids, true);
        NoneOf(after, ids, id, true);
        if NeedsRetry(after, id, true) { StillDeferred(s, after, id); }
      }
    } else {
      var id := SomeStuck(after, ids, true);
      StillInterrupted(s.runs, after.runs, ids, id);
    }
  }

  lemma DeferredIs(l: Locale, s: State)
    ensures RecoverDeferred(l, s) == LinkAll(l, s, DeferredIds(s, |s.runs|), true)
  {
    hide LinkAll, DeferredIds;
  }

  lemma DeferredInterrupted(s: State, ids: seq<nat>)
    requires forall k :: 0 <= k < |ids| ==> ids[k] < |s.runs| && Deferred(s, ids[k])
    ensures AllInterrupted(s.runs, ids)
  {
    hide HasRetry;
  }

  lemma StillInterrupted(a: seq<Run>, b: seq<Run>, ids: seq<nat>, id: nat)
    requires AllInterrupted(a, ids) && Extends(a, b) && id in ids
    ensures id < |b| && IsInterrupted(b[id])
  {
    hide IsInterrupted;
  }

  lemma NoneOf(s: State, ids: seq<nat>, id: nat, scheduling: bool)
    requires NoneNeeds(s, ids, scheduling)
    ensures id in ids ==> !NeedsRetry(s, id, scheduling)
  {
    hide NeedsRetry;
  }

  lemma SomeStuck(s: State, ids: seq<nat>, scheduling: bool) returns (id: nat)
    requires OneStuck(s, ids, scheduling)
    ensures id in ids && NeedsRetry(s, id, scheduling) && Stuck(s, id)
  {
    hide NeedsRetry, Stuck;
    id :| id in ids && NeedsRetry(s, id, scheduling) && Stuck(s, id);
  }

  /** An interrupted run of the end was one at the start, and deferred if it still needs a retry. */
  lemma StillDeferred(s: State, after: State, id: nat)
    requires Extends(s.runs, after.runs) && NeedsRetry(after, id, true) && id < |after.runs|
             && IsInterrupted(after.runs[id])
    requires forall i :: |s.runs| <= i < |after.runs| ==> after.runs[i].state == Queued
    ensures id < |s.runs| && Deferred(s, id)
  {
    hide LeftOpen;
  }

  lemma {:induction false} NewAreQueued(l: Locale, s: State, ids: seq<nat>, scheduling: bool)
    ensures var after := LinkAll(l, s, ids, scheduling).0;
            |s.runs| <= |after.runs| && forall i :: |s.runs| <= i < |after.runs| ==> after.runs[i].state == Queued
  {
    hide LinkRetry;
    if ids != [] {
      var n := |ids| - 1;
      NewAreQueued(l, s, ids[..n], scheduling);
      LinkIs(l, LinkAll(l, s, ids[..n], scheduling).0, ids[n], scheduling);
      hide WantsRetry, RetryPayload, RetryDates, DatesOf, DatesDiffer, CountWaiting;
    }
  }

  /**
   Recovery ends well exactly when afterwards no run that it interrupted needs a retry, nor any other interrupted run
   while scheduling is on; otherwise it ends at an interrupted run whose retry cannot be queued.
   */
  lemma RecoveryEndsWell(l: Locale, s: State)
    requires Lawful(l) && Sound(l, s)
    ensures var (after, ok) := Recover(l, s);
            && (ok ==> forall id: nat ::
                  id < |s.runs| && (s.runs[id].state == Active || (s.scheduling && IsInterrupted(s.runs[id]))) ==>
                    !NeedsRetry(after, id, s.scheduling))
            && (!ok ==> exists id: nat ::
                  id < |after.runs| && IsInterrupted(after.runs[id]) && NeedsRetry(after, id, s.scheduling)
                  && Stuck(after, id))
  {
    hide *;
    var start, ids := InterruptAll(s), ActiveIds(s, |s.runs|);
    InterruptEvolves(s);
    SoundParts(l, s);
    EvolvesSound(l, s, start);
    ActiveIdsAre(s, |s.runs|);
    ActiveIdsComplete(s, |s.runs|);
    IdsInterrupted(s, start, ids);
    LinkAllEnds(l, start, ids, s.scheduling);
    LinkAllSound(l, start, ids, s.scheduling);
    RecoverIs(l, s);
    var (linked, ok) := LinkAll(l, start, ids, s.scheduling);
    if ok {
      forall id: nat | id < |s.runs| && s.runs[id].state == Active ensures !NeedsRetry(linked, id, s.scheduling) {
        NoneOf(linked, ids, id, s.scheduling);
      }
      if s.scheduling {
        DeferredEnds(l, linked);
        var after := RecoverDeferred(l, linked).0;
        forall id: nat | id < |s.runs| && (s.runs[id].state == Active || IsInterrupted(s.runs[id]))
          ensures id < |after.runs| && IsInterrupted(after.runs[id])
        {
          StaysInterrupted(s, start, id);
          ExtendsAt(start.runs, linked.runs, id);
          ExtendsAt(linked.runs, after.runs, id);
        }
      }
    } else {
      var id := SomeStuck(linked, ids, s.scheduling);
      StillInterrupted(start.runs, linked.runs, ids, id);
    }
  }

  lemma RecoverIs(l: Locale, s: State)
    ensures var (linked, ok) := LinkAll(l, InterruptAll(s), ActiveIds(s, |s.runs|), s.scheduling);
            Recover(l, s) == if ok && s.scheduling then RecoverDeferred(l, linked) else (linked, ok)
  {
    hide LinkAll, InterruptAll, ActiveIds, RecoverDeferred;
  }

  lemma IdsInterrupted(s: State, start: State, ids: seq<nat>)
    requires |start.runs| == |s.runs|
    requires forall i :: 0 <= i < |s.runs| && s.runs[i].state == Active ==> IsInterrupted(start.runs[i])
    requires forall k :: 0 <= k < |ids| ==> ids[k] < |s.runs| && s.runs[ids[k]].state == Active
    ensures AllInterrupted(start.runs, ids)
  {
    hide IsInterrupted;
  }

  lemma StaysInterrupted(s: State, start: State, id: nat)
    requires Evolves(s.runs, start.runs) && id < |s.runs|
    requires s.runs[id].state == Active ==> IsInterrupted(start.runs[id])
    requires s.runs[id].state == Active || IsInterrupted(s.runs[id])
    ensures id < |start.runs| && IsInterrupted(start.runs[id])
  {
    assert Moves(s.runs[id], start.runs[id]);
    hide DatesOf, Waiting;
  }

  lemma ExtendsAt(a: seq<Run>, b: seq<Run>, i: nat)
    requires Extends(a, b) && i < |a|
    ensures i < |b| && b[i] == a[i]
  {
  }
}
