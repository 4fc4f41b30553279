/** Repeated catch-up runs close every gap. */
module CatchupProgress {
  import opened Calendar
  import opened Catchup

  /** The dates that one run selects. */
  function Selected(q: Request): seq<string> {
    if q.maxDates < |Candidates(q)| then Candidates(q)[..q.maxDates] else Candidates(q)
  }

  /** The dates that wait at a start-up: they come after the gaps, and may be others every time. */
  datatype Waiting = Waiting(failed: seq<FailedDate>, unfinished: seq<string>)

  /** The next start-up on the same day, after the selected dates have been archived. */
  function NextStart(q: Request, w: Waiting): Request {
    q.(archive := q.archive + Selected(q), failed := w.failed, unfinished := w.unfinished)
  }

  /** The start-up after as many runs as there are entries in the list. */
  function AfterRuns(q: Request, waiting: seq<Waiting>): Request {
    if waiting == [] then q else NextStart(AfterRuns(q, waiting[..|waiting| - 1]), waiting[|waiting| - 1])
  }

  /** Uncovered candidates; today and yesterday are not counted, every run offers them again. */
  function Gaps(q: Request): int {
    |GapCandidates(q)| - 2
  }

  /** The scope of the scan does not depend on the archive. */
  ghost predicate FixedScope(q: Request) {
    && Usable(q)
    && ((q.coverageStart.Some? && IsValidDateString(q.coverageStart.value))
       || (q.watermark.Some? && IsValidDateString(q.watermark.value)))
  }

  ghost function Members(s: seq<string>): set<string> {
    set d | d in s
  }

  lemma {:induction false} DistinctSize(s: seq<string>)
    requires Distinct(s)
    ensures |Members(s)| == |s|
  {
    if s != [] {
      var init := s[..|s| - 1];
      DistinctSize(init);
      assert Members(s) == Members(init) + {s[|s| - 1]};
    }
  }

  lemma ScopeIsFixed(q: Request, w: Waiting)
    requires FixedScope(q)
    ensures var r := NextStart(q, w);
            && FixedScope(r) && GapDates(r) == GapDates(q)
            && r.today == q.today && r.maxDates == q.maxDates && r.policyDays == q.policyDays
               && r.archive == q.archive + Selected(q) && Usable(q) && Usable(r)
  {
    hide Candidates, Selected, IsValidDateString, UtcDay, Regular, Nth, DayString, Less, EarliestOf;
  }

  lemma SelectedIsPrefix(q: Request)
    ensures Selected(q) == if q.maxDates < |Candidates(q)| then Candidates(q)[..q.maxDates] else Candidates(q)
  {
    hide Candidates;
  }

  lemma MembersAre(s: seq<string>)
    ensures forall d :: d in Members(s) <==> d in s
  {
  }

  /** What remains after a run is what the run did not select. */
  lemma RunRemovesSelected(q: Request, w: Waiting)
    requires FixedScope(q)
    ensures var t, y := q.today, DayString(UtcDay(q.today) - 1);
            Members(GapCandidates(NextStart(q, w))) == {t, y} + (Members(GapCandidates(q)) - Members(Selected(q)))
  {
    hide *;
    var r := NextStart(q, w);
    ScopeIsFixed(q, w);
    GapCandidateMembers(q);
    GapCandidateMembers(r);
    MembersAre(GapCandidates(q));
    MembersAre(GapCandidates(r));
    MembersAre(Selected(q));
    RecentIsValid(q);
  }

  lemma RecentIsValid(q: Request)
    requires Usable(q)
    ensures IsValidDateString(q.today) && IsValidDateString(DayString(UtcDay(q.today) - 1))
  {
    hide *;
    UsableIsValid(q);
    TodayIsRegular(q);
    RegularDay(q.today);
    DayStringIsRegular(UtcDay(q.today) - 1);
    RegularDay(DayString(UtcDay(q.today) - 1));
  }

  /** Cutting a list whose front is the given one removes a front of that one. */
  lemma KeptAfter(front: seq<string>, all: seq<string>, max: nat)
    requires Distinct(front) && front <= all
    ensures var k := if max < |front| then max else |front|;
            Members(front) - Members(if max < |all| then all[..max] else all) == Members(front[k..])
                && Distinct(front[k..])
  {
    var cut := if max < |all| then all[..max] else all;
    var k := if max < |front| then max else |front|;
    assert front == front[..k] + front[k..];
    assert front[..k] <= cut;
    if max < |front| {
      assert cut == front[..k];
    } else {
      assert forall d :: d in front ==> d in cut;
    }
  }

  lemma TwoMore(c: seq<string>, m: nat)
    requires Distinct(c) && 2 <= m <= |c|
    ensures |{c[0], c[1]} + Members(c[m..])| == 2 + |Members(c[m..])|
  {
    var rest := Members(c[m..]);
    assert c[0] !in rest && c[1] !in rest && c[0] != c[1];
    assert {c[0], c[1]} !! rest;
    assert |{c[0], c[1]}| == 2;
  }

  lemma GapsAre(q: Request)
    ensures Gaps(q) == |GapCandidates(q)| - 2
  {
    hide GapCandidates;
  }

  /** Whatever waits, a run closes maxDates - 2 gaps, or all of them. */
  lemma RunClosesGaps(q: Request, w: Waiting)
    requires FixedScope(q) && q.maxDates >= 2
    ensures Gaps(NextStart(q, w)) == if Gaps(q) > q.maxDates - 2 then Gaps(q) - (q.maxDates - 2) else 0
  {
    hide *;
    var g, r := GapCandidates(q), NextStart(q, w);
    var k := if q.maxDates < |g| then q.maxDates else |g|;
    ScopeIsFixed(q, w);
    GapCandidateMembers(q);
    GapCandidateMembers(r);
    assert g[0] == q.today && g[1] == DayString(UtcDay(q.today) - 1);
    RunRemovesSelected(q, w);
    SelectedIsPrefix(q);
    KeptAfter(g, Candidates(q), q.maxDates);
    assert Members(GapCandidates(r)) == {g[0], g[1]} + Members(g[k..]);
    DistinctSize(GapCandidates(r));
    DistinctSize(g[k..]);
    TwoMore(g, k);
    GapsAre(q);
    GapsAre(r);
  }

  lemma {:induction false} RunsCloseGaps(q: Request, waiting: seq<Waiting>)
    requires FixedScope(q) && q.maxDates >= 2 && Gaps(q) >= 0
    ensures FixedScope(AfterRuns(q, waiting)) && AfterRuns(q, waiting).maxDates == q.maxDates
            && AfterRuns(q, waiting).today == q.today
    ensures var n := |waiting|;
            Gaps(AfterRuns(q, waiting)) == if Gaps(q) > n * (q.maxDates - 2) then Gaps(q) - n * (q.maxDates - 2) else 0
  {
    var n := |waiting|;
    hide GapCandidates, Usable, FixedScope, Gaps, Selected, NextStart;
    if n > 0 {
      var before := AfterRuns(q, waiting[..n - 1]);
      RunsCloseGaps(q, waiting[..n - 1]);
      ScopeIsFixed(before, waiting[n - 1]);
      RunClosesGaps(before, waiting[n - 1]);
      OneMoreRun(Gaps(q), q.maxDates - 2, n - 1);
    }
  }

  lemma OneMoreRun(gaps: nat, step: nat, n: nat)
    ensures var left, more := if gaps > n * step then gaps - n * step else 0, (n + 1) * step;
            (if left > step then left - step else 0) == if gaps > more then gaps - more else 0
  {
    assert (n + 1) * step == n * step + step;
  }

  /**
   All gaps close within ceil(gaps / (maxDates - 2)) runs, for maxDates of 3 or more; only waiting dates are left to
   select.
   */
  lemma AllGapsClose(q: Request, waiting: seq<Waiting>)
    requires FixedScope(q) && q.maxDates >= 3
    requires |waiting| >= (Gaps(q) + q.maxDates - 3) / (q.maxDates - 2)
    ensures var r := AfterRuns(q, waiting);
            && Gaps(r) == 0
            && forall d :: d in Candidates(r) <==> d == q.today || d == DayString(UtcDay(q.today) - 1) || Waits(r, d)
  {
    hide *;
    var r, t, y := AfterRuns(q, waiting), q.today, DayString(UtcDay(q.today) - 1);
    FixedIsUsable(q);
    GapCandidateMembers(q);
    GapsAre(q);
    EnoughRuns(Gaps(q), q.maxDates - 2, |waiting|);
    RunsCloseGaps(q, waiting);
    FixedIsUsable(r);
    GapCandidateMembers(r);
    GapsAre(r);
    assert GapCandidates(r) == [t, y];
    CandidateMembers(r);
    RecentIsValid(r);
    assert forall d :: d in GapCandidates(r) <==> d == t || d == y;
    EligibleWaits(r);
  }

  lemma EligibleWaits(q: Request)
    ensures forall d :: Waits(q, d) ==> IsValidDateString(d)
  {
    hide IsValidDateString;
  }

  lemma FixedIsUsable(q: Request)
    requires FixedScope(q)
    ensures Usable(q)
  {
  }

  lemma EnoughRuns(gaps: nat, step: nat, n: nat)
    requires step >= 1 && n >= (gaps + step - 1) / step
    ensures gaps <= n * step
  {
    var k := (gaps + step - 1) / step;
    assert k * step + (gaps + step - 1) % step == gaps + step - 1;
    assert n * step >= k * step;
  }
}
