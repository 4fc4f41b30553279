/** The sliding-window limiter behind login attempts and client registrations. */
module RateLimiter {

  // ---- One key ----

  /** Attempts inside the window that ends now. */
  function Recent(log: seq<int>, now: int, window: int): seq<int> {
    if log == [] then []
    else Recent(log[..|log| - 1], now, window) + if log[|log| - 1] > now - window then [log[|log| - 1]] else []
  }

  /** The list that the limiter keeps after calls at the given times. */
  function Pruned(times: seq<int>, limit: nat, window: int): seq<int> {
    if times == [] then []
    else
      var now := times[|times| - 1];
      var recent := Recent(Pruned(times[..|times| - 1], limit, window), now, window);
      if |recent| >= limit then recent else recent + [now]
  }

  predicate PrunedAllows(before: seq<int>, now: int, limit: nat, window: int) {
    |Recent(Pruned(before, limit, window), now, window)| < limit
  }

  /** The reference: a limiter that forgets nothing. Its log holds the time of every allowed call. */
  function FullLog(times: seq<int>, limit: nat, window: int): seq<int> {
    if times == [] then []
    else
      var now, before := times[|times| - 1], FullLog(times[..|times| - 1], limit, window);
      if |Recent(before, now, window)| < limit then before + [now] else before
  }

  predicate FullAllows(before: seq<int>, now: int, limit: nat, window: int) {
    |Recent(FullLog(before, limit, window), now, window)| < limit
  }

  ghost predicate Nondecreasing(times: seq<int>) {
    forall i, j :: 0 <= i < j < |times| ==> times[i] <= times[j]
  }

  lemma {:induction false} RecentAppend(a: seq<int>, b: seq<int>, now: int, window: int)
    ensures Recent(a + b, now, window) == Recent(a, now, window) + Recent(b, now, window)
  {
    if b == [] {
      assert a + b == a;
    } else {
      assert (a + b)[..|a + b| - 1] == a + b[..|b| - 1];
      RecentAppend(a, b[..|b| - 1], now, window);
    }
  }

  /**
   No attempt that one call prunes is inside the window of a later call: the clock may go back, but not so far that
   something dropped in between becomes recent again.
   */
  ghost predicate NothingReturns(times: seq<int>, window: int) {
    forall i, j, k :: 0 <= i < j < k < |times| && times[i] <= times[j] - window ==> times[i] <= times[k] - window
  }

  lemma NondecreasingReturnsNothing(times: seq<int>, window: int)
    requires Nondecreasing(times)
    ensures NothingReturns(times, window)
  {
  }

  lemma ReturnsLess(times: seq<int>, now: int, later: int, window: int)
    requires NothingReturns(times + [now] + [later], window)
    ensures NothingReturns(times + [now], window) && NothingReturns(times + [later], window)
    ensures forall x :: x in times && x <= now - window ==> x <= later - window
  {
    var all := times + [now] + [later];
    var n := |times|;
    assert forall i :: 0 <= i < n ==> all[i] == times[i];
    assert all[n] == now && all[n + 1] == later;
    forall i, j, k | 0 <= i < j < k < n + 1 && (times + [later])[i] <= (times + [later])[j] - window
      ensures (times + [later])[i] <= (times + [later])[k] - window
    {
      assert all[i] == times[i] && all[j] == times[j] && (times + [later])[k] == all[if k < n then k else n + 1];
    }
    forall x | x in times && x <= now - window ensures x <= later - window {
      var i :| 0 <= i < n && times[i] == x;
      assert all[i] <= all[n] - window;
    }
  }

  /** Pruning at one time loses nothing that another window sees, if nothing returns. */
  lemma {:induction false} RecentTwice(log: seq<int>, now: int, later: int, window: int)
    requires forall x :: x in log && x <= now - window ==> x <= later - window
    ensures Recent(Recent(log, now, window), later, window) == Recent(log, later, window)
  {
    if log != [] {
      var init, x := log[..|log| - 1], log[|log| - 1];
      assert x in log && forall y :: y in init ==> y in log;
      RecentTwice(init, now, later, window);
      RecentAppend(Recent(init, now, window), if x > now - window then [x] else [], later, window);
    }
  }

  lemma {:induction false} RecentMembers(log: seq<int>, now: int, window: int)
    ensures forall x :: x in Recent(log, now, window) ==> x in log
  {
    if log != [] { RecentMembers(log[..|log| - 1], now, window); }
  }

  lemma {:induction false} PrunedMembers(times: seq<int>, limit: nat, window: int)
    ensures forall x :: x in Pruned(times, limit, window) ==> x in times
  {
    if times != [] {
      var init := times[..|times| - 1];
      PrunedMembers(init, limit, window);
      RecentMembers(Pruned(init, limit, window), times[|times| - 1], window);
    }
  }

  lemma {:induction false} PrunedSeesTheLog(times: seq<int>, later: int, limit: nat, window: int)
    requires NothingReturns(times + [later], window)
    ensures Recent(Pruned(times, limit, window), later, window) == Recent(FullLog(times, limit, window), later, window)
  {
    if times != [] {
      var init, now := times[..|times| - 1], times[|times| - 1];
      assert times == init + [now];
      ReturnsLess(init, now, later, window);
      PrunedMembers(init, limit, window);
      hide NothingReturns;
      PrunedSeesTheLog(init, later, limit, window);
      PrunedSeesTheLog(init, now, limit, window);
      var kept, log := Pruned(init, limit, window), FullLog(init, limit, window);
      RecentTwice(kept, now, later, window);
      RecentAppend(Recent(kept, now, window), [now], later, window);
      RecentAppend(log, [now], later, window);
    }
  }

  /**
   Pruning never changes an answer when nothing pruned returns. Otherwise it depends on the limit whether the
   attempts that are missing make a difference.
   */
  lemma PruningIsHarmless(before: seq<int>, now: int, limit: nat, window: int)
    requires NothingReturns(before + [now], window)
    ensures PrunedAllows(before, now, limit, window) <==> FullAllows(before, now, limit, window)
  {
    PrunedSeesTheLog(before, now, limit, window);
  }

  /** In particular with times that do not decrease. */
  lemma PruningChangesNoAnswer(before: seq<int>, now: int, limit: nat, window: int)
    requires Nondecreasing(before + [now])
    ensures PrunedAllows(before, now, limit, window) <==> FullAllows(before, now, limit, window)
  {
    NondecreasingReturnsNothing(before + [now], window);
    PruningIsHarmless(before, now, limit, window);
  }

  lemma RecentAfter(log: seq<int>, x: int, now: int, window: int)
    ensures Recent(log + [x], now, window) == Recent(log, now, window) + if x > now - window then [x] else []
  {
    assert (log + [x])[..|log|] == log;
  }

  lemma CallAfter(times: seq<int>, now: int, limit: nat, window: int)
    ensures Pruned(times + [now], limit, window)
         == var recent := Recent(Pruned(times, limit, window), now, window);
             if |recent| >= limit then recent else recent + [now]
    ensures FullLog(times + [now], limit, window)
         == var log := FullLog(times, limit, window); if |Recent(log, now, window)| < limit then log + [now] else log
  {
    assert (times + [now])[..|times|] == times;
  }

  lemma NothingYet(limit: nat, window: int)
    ensures Pruned([], limit, window) == [] && FullLog([], limit, window) == []
    ensures forall now :: Recent([], now, window) == []
  {
  }

  lemma TwoCalls(a: int, b: int, window: int)
    ensures Pruned([a, b], 2, window) == if a > b - window then [a, b] else [b]
    ensures FullLog([a, b], 2, window) == [a, b]
  {
    assert [] + [a] == [a] && [a] + [b] == [a, b];
    NothingYet(2, window);
    CallAfter([], a, 2, window);
    CallAfter([a], b, 2, window);
    RecentAfter([], a, b, window);
  }

  lemma RecentOfTwo(a: int, b: int, now: int, window: int)
    ensures Recent([a, b], now, window) == (if a > now - window then [a] else []) + if b > now - window then [b] else []
    ensures Recent([b], now, window) == if b > now - window then [b] else []
  {
    assert [] + [a] == [a] && [a] + [b] == [a, b] && [] + [b] == [b];
    NothingYet(2, window);
    RecentAfter([], a, now, window);
    RecentAfter([a], b, now, window);
    RecentAfter([], b, now, window);
  }

  /** An attempt that one call prunes and a later one sees again: with limit 2 one call too many gets through. */
  lemma ReturningAttemptDisagrees(a: int, b: int, now: int, window: nat)
    requires a <= b - window && a > now - window
    ensures PrunedAllows([a, b], now, 2, window) && !FullAllows([a, b], now, 2, window)
  {
    TwoCalls(a, b, window);
    RecentOfTwo(a, b, now, window);
    hide Pruned, FullLog, Recent;
  }

  /** The positions of some of the calls, in order. */
  ghost predicate Positions(positions: seq<nat>, n: nat) {
    && (forall i :: 0 <= i < |positions| ==> positions[i] < n)
    && (forall i, j :: 0 <= i < j < |positions| ==> positions[i] < positions[j])
  }

  ghost function At(times: seq<int>, positions: seq<nat>): seq<int>
    requires Positions(positions, |times|)
  {
    seq(|positions|, i requires 0 <= i < |positions| => times[positions[i]])
  }

  /** The last of the calls gets the answer of the full log. */
  ghost predicate Agrees(calls: seq<int>, limit: nat, window: int) {
    calls == [] || (PrunedAllows(calls[..|calls| - 1], calls[|calls| - 1], limit, window)
               <==> FullAllows(calls[..|calls| - 1], calls[|calls| - 1], limit, window))
  }

  /** Whichever of the calls are made, and for every limit. */
  ghost predicate AlwaysAgrees(times: seq<int>, window: int) {
    forall positions, limit :: Positions(positions, |times|) ==> Agrees(At(times, positions), limit, window)
  }

  lemma FewerReturnNothing(times: seq<int>, positions: seq<nat>, window: int)
    requires NothingReturns(times, window) && Positions(positions, |times|)
    ensures NothingReturns(At(times, positions), window)
  {
    var calls := At(times, positions);
    forall i, j, k | 0 <= i < j < k < |calls| && calls[i] <= calls[j] - window ensures calls[i] <= calls[k] - window {
      assert times[positions[i]] <= times[positions[j]] - window;
    }
  }

  /**
   Pruning is harmless at the given clock readings, whichever calls are made and for every limit, exactly when
   nothing returns.
   */
  lemma HarmlessIff(times: seq<int>, window: nat)
    ensures NothingReturns(times, window) <==> AlwaysAgrees(times, window)
  {
    hide PrunedAllows, FullAllows;
    if NothingReturns(times, window) {
      forall positions, limit: nat | Positions(positions, |times|) ensures Agrees(At(times, positions), limit, window) {
        var calls := At(times, positions);
        FewerReturnNothing(times, positions, window);
        if calls != [] {
          assert calls[..|calls| - 1] + [calls[|calls| - 1]] == calls;
          PruningIsHarmless(calls[..|calls| - 1], calls[|calls| - 1], limit, window);
        }
      }
    } else {
      var i: nat, j: nat, k: nat :| i < j < k < |times| && times[i] <= times[j] - window
          && times[i] > times[k] - window;
      var positions := [i, j, k];
      assert At(times, positions)[..2] == [times[i], times[j]];
      ReturningAttemptDisagrees(times[i], times[j], times[k], window);
      assert !Agrees(At(times, positions), 2, window);
    }
  }

  /** When pruned attempts return one call too many gets through: here the call at 100 has pruned those at 0. */
  lemma DecreasingTimesDisagree()
    ensures PrunedAllows([0, 0, 100], 0, 2, 10) && !FullAllows([0, 0, 100], 0, 2, 10)
  {
    assert [0, 0, 100] == [0, 0] + [100];
    TwoCalls(0, 0, 10);
    CallAfter([0, 0], 100, 2, 10);
    RecentOfTwo(0, 0, 100, 10);
    RecentOfTwo(0, 0, 0, 10);
    RecentAfter([], 100, 0, 10);
    RecentAfter([0, 0], 100, 0, 10);
  }

  // ---- The bound ----

  /** Allowed calls in the window (end - window, end]. */
  function InWindow(log: seq<int>, end: int, window: int): nat {
    if log == [] then 0
    else InWindow(log[..|log| - 1], end, window) + if end - window < log[|log| - 1] <= end then 1 else 0
  }

  lemma {:induction false} WindowWithinRecent(log: seq<int>, now: int, end: int, window: int)
    requires now <= end
    ensures InWindow(log, end, window) <= |Recent(log, now, window)|
  {
    if log != [] {
      WindowWithinRecent(log[..|log| - 1], now, end, window);
    }
  }

  /** Whatever the calls, no window contains more allowed calls than the limit. */
  lemma {:induction false} AtMostLimitPerWindow(times: seq<int>, end: int, limit: nat, window: int)
    ensures InWindow(FullLog(times, limit, window), end, window) <= limit
  {
    if times != [] {
      var init, now := times[..|times| - 1], times[|times| - 1];
      AtMostLimitPerWindow(init, end, limit, window);
      var log := FullLog(init, limit, window);
      assert (log + [now])[..|log|] == log;
      if end - window < now <= end {
        WindowWithinRecent(log, now, end, window);
      }
    }
  }

  /** The calls that the pruning limiter lets through. */
  function AllowedTimes(times: seq<int>, limit: nat, window: int): seq<int> {
    if times == [] then []
    else
      var init, now := times[..|times| - 1], times[|times| - 1];
      AllowedTimes(init, limit, window) + if PrunedAllows(init, now, limit, window) then [now] else []
  }

  lemma {:induction false} AllowedAreTheLog(times: seq<int>, limit: nat, window: int)
    requires NothingReturns(times, window)
    ensures AllowedTimes(times, limit, window) == FullLog(times, limit, window)
  {
    if times != [] {
      var n := |times| - 1;
      AllowedAreTheLog(times[..n], limit, window);
      assert times[..n] + [times[n]] == times;
      PruningIsHarmless(times[..n], times[n], limit, window);
    }
  }

  /** Between clears, as long as nothing pruned returns, no window sees more than the limit of allowed calls. */
  lemma LimiterBound(times: seq<int>, end: int, limit: nat, window: int)
    requires NothingReturns(times, window)
    ensures InWindow(AllowedTimes(times, limit, window), end, window) <= limit
  {
    AllowedAreTheLog(times, limit, window);
    AtMostLimitPerWindow(times, end, limit, window);
  }

  lemma AllowedAfter(times: seq<int>, now: int, limit: nat, window: int)
    ensures AllowedTimes(times + [now], limit, window)
         == AllowedTimes(times, limit, window) + if PrunedAllows(times, now, limit, window) then [now] else []
  {
    assert (times + [now])[..|times|] == times;
  }

  lemma WindowAfter(log: seq<int>, x: int, end: int, window: int)
    ensures InWindow(log + [x], end, window) == InWindow(log, end, window) + if end - window < x <= end then 1 else 0
  {
    assert (log + [x])[..|log|] == log;
  }

  /** And the bound fails there: three calls in a window of at most two. */
  lemma DecreasingTimesBreakTheBound()
    ensures InWindow(AllowedTimes([0, 0, 100, 0], 2, 10), 0, 10) == 3
  {
    hide *;
    var one, two, three: seq<int> := [] + [0], [] + [0] + [0], [] + [0] + [0] + [100];
    assert three == [0, 0, 100] && [0, 0, 100, 0] == three + [0];
    DecreasingTimesDisagree();
    FirstThreePass();
    NothingAllowed(2, 10);
    AllowedAfter([], 0, 2, 10);
    AllowedAfter(one, 0, 2, 10);
    AllowedAfter(two, 100, 2, 10);
    AllowedAfter(three, 0, 2, 10);
    WindowAfter([], 0, 0, 10);
    WindowAfter(one, 0, 0, 10);
    WindowAfter(two, 100, 0, 10);
    WindowAfter(three, 0, 0, 10);
  }

  lemma NothingAllowed(limit: nat, window: int)
    ensures AllowedTimes([], limit, window) == [] && InWindow([], 0, window) == 0
  {
  }

  lemma FirstThreePass()
    ensures PrunedAllows([], 0, 2, 10) && PrunedAllows([] + [0], 0, 2, 10) && PrunedAllows([] + [0] + [0], 100, 2, 10)
  {
    CallAfter([], 0, 2, 10);
    CallAfter([] + [0], 0, 2, 10);
    RecentAfter([], 0, 0, 10);
    RecentAfter([], 0, 100, 10);
    RecentAfter([0], 0, 100, 10);
  }

  // ---- All keys ----

  datatype Call = Allow(key: string, now: int) | Clear(key: string) | Reset

  function Listed(attempts: map<string, seq<int>>, key: string): seq<int> {
    if key in attempts then attempts[key] else []
  }

  class AttemptLimiter {
    const limit: nat
    const window: int
    var attempts: map<string, seq<int>>

    constructor (limit: nat, window: int)
      ensures this.limit == limit && this.window == window && attempts == map[]
    {
      this.limit, this.window, attempts := limit, window, map[];
    }

    method AllowCall(key: string, now: int) returns (allowed: bool)
      modifies this
      ensures allowed <==> |Recent(Listed(old(attempts), key), now, window)| < limit
      ensures attempts == old(attempts)[key := Recent(Listed(old(attempts), key), now, window) + if allowed
              then [now] else []]
    {
      var log := Listed(attempts, key);
      var recent: seq<int> := [];
      assert log[..0] == [];
      for i := 0 to |log|
        invariant recent == Recent(log[..i], now, window) && attempts == old(attempts)
      {
        assert log[..i + 1][..i] == log[..i];
        if log[i] > now - window { recent := recent + [log[i]]; }
      }
      assert log[..|log|] == log;
      allowed := |recent| < limit;
      if allowed { recent := recent + [now]; } else { assert recent + [] == recent; }
      attempts := attempts[key := recent];
    }

    method ClearKey(key: string)
      modifies this
      ensures attempts == old(attempts) - {key}
    {
      attempts := attempts - {key};
    }

    method ResetAll()
      modifies this
      ensures attempts == map[]
    {
      attempts := map[];
    }

    /** A history of calls; answers holds the result of each, true for clears. */
    method Play(calls: seq<Call>) returns (answers: seq<bool>)
      requires attempts == map[]
      modifies this
      ensures |answers| == |calls|
      ensures forall i :: 0 <= i < |calls| && calls[i].Allow? ==>
                (answers[i] <==> PrunedAllows(Since(calls[..i], calls[i].key), calls[i].now, limit, window))
      ensures forall key :: Listed(attempts, key) == Pruned(Since(calls, key), limit, window)
    {
      answers := [];
      hide PrunedAllows, Pruned, Recent;
      NothingListed(limit, window);
      for i := 0 to |calls|
        invariant |answers| == i
        invariant forall j :: 0 <= j < i && calls[j].Allow? ==>
                    (answers[j] <==> PrunedAllows(Since(calls[..j], calls[j].key), calls[j].now, limit, window))
        invariant forall key :: Listed(attempts, key) == Pruned(Since(calls[..i], key), limit, window)
      {
        ghost var before := attempts;
        assert calls[..i + 1][..i] == calls[..i] && calls[..i + 1][i] == calls[i];
        match calls[i] {
          case Allow(key, now) =>
            var allowed := AllowCall(key, now);
            answers := answers + [allowed];
            PrunedStep(Since(calls[..i], key), now, limit, window);
          case Clear(key) =>
            ClearKey(key);
            answers := answers + [true];
            NothingListed(limit, window);
          case Reset =>
            ResetAll();
            answers := answers + [true];
            NothingListed(limit, window);
        }
      }
      assert calls[..|calls|] == calls;
    }
  }

  /** The times at which a key was tried since it was last cleared. */
  function Since(calls: seq<Call>, key: string): seq<int> {
    if calls == [] then []
    else match calls[|calls| - 1]
      case Allow(k, now) =>
          if k == key then Since(calls[..|calls| - 1], key) + [now] else Since(calls[..|calls| - 1], key)
      case Clear(k) => if k == key then [] else Since(calls[..|calls| - 1], key)
      case Reset => []
  }

  /** The call forgets the attempts of the key. */
  predicate Forgets(call: Call, key: string) {
    call == Clear(key) || call == Reset
  }

  /** The times of all calls for the key, whatever happened between them. */
  function TimesOf(calls: seq<Call>, key: string): seq<int> {
    if calls == [] then []
    else TimesOf(calls[..|calls| - 1], key)
         + match calls[|calls| - 1] case Allow(k, now) => (if k == key then [now] else []) case _ => []
  }

  /** They are the times of the calls behind the last one that forgets the key. */
  lemma {:induction false} SinceMeans(calls: seq<Call>, key: string) returns (start: nat)
    ensures start <= |calls| && (start > 0 ==> Forgets(calls[start - 1], key))
    ensures forall i :: start <= i < |calls| ==> !Forgets(calls[i], key)
    ensures Since(calls, key) == TimesOf(calls[start..], key)
  {
    start := 0;
    if calls != [] {
      var n := |calls| - 1;
      if Forgets(calls[n], key) {
        start := n + 1;
      } else {
        start := SinceMeans(calls[..n], key);
        assert calls[start..][..n - start] == calls[..n][start..];
      }
    }
  }

  lemma NothingListed(limit: nat, window: int)
    ensures Pruned([], limit, window) == []
  {
  }

  lemma PrunedStep(before: seq<int>, now: int, limit: nat, window: int)
    ensures var recent := Recent(Pruned(before, limit, window), now, window);
            && (PrunedAllows(before, now, limit, window) <==> |recent| < limit)
            && Pruned(before + [now], limit, window) == recent + if |recent| < limit then [now] else []
  {
    assert (before + [now])[..|before|] == before;
  }
}
