/**
 Selection of the dates to synchronise at start-up: today and yesterday, the recent
 policy window, older gaps in coverage, and unfinished or due failed dates.
 */
module Catchup {
  import opened Options
  import opened Orders
  import opened Calendar

  datatype FailedDate = FailedDate(date: string, nextRetryAt: Option<string>, retryAt: Option<string>)

  datatype Request = Request(archive: seq<string>, watermark: Option<string>, coverageStart: Option<string>,
                             coverageEnd: Option<string>,
                             failed: seq<FailedDate>, unfinished: seq<string>, policyDays: int, maxDates: nat,
                             today: string, nowMs: int, parseMs: string -> Option<int>)

  /**
   Today lies in the calendar that Date.UTC reads literally, and so do yesterday and the day before the policy window.
   A window of less than a day makes the gap scan run on to today or beyond.
   */
  ghost predicate Usable(q: Request) {
    && Regular(q.today) && IsValidDateString(q.today) && FIRST_DAY < UtcDay(q.today)
    && FIRST_DAY <= UtcDay(q.today) - q.policyDays < LAST_DAY
  }

  // ---- The candidates ----

  function Push(candidates: seq<string>, d: string): seq<string> {
    if IsValidDateString(d) && d !in candidates then candidates + [d] else candidates
  }

  function PushAll(candidates: seq<string>, dates: seq<string>): seq<string> {
    if dates == [] then candidates
    else Push(PushAll(candidates, dates[..|dates| - 1]), dates[|dates| - 1])
  }

  /** The dates that are not archived, in order. */
  function Missing(dates: seq<string>, archive: seq<string>): seq<string> {
    if dates == [] then []
    else Missing(dates[..|dates| - 1], archive)
         + if dates[|dates| - 1] in archive then [] else [dates[|dates| - 1]]
  }

  /** today - (policyDays - 1) up to today - 2, oldest first. */
  function WindowDates(today: string, policyDays: int): seq<string> {
    seq(if policyDays >= 2 then policyDays - 2 else 0, i => DayString(UtcDay(today) - (policyDays - 1 - i)))
  }

  /** The least valid date by string order. */
  function EarliestOf(dates: seq<string>): Option<string> {
    if dates == [] then None
    else
      var d := dates[|dates| - 1];
      var before := EarliestOf(dates[..|dates| - 1]);
      if IsValidDateString(d) && (before.None? || Less(d, before.value)) then Some(d) else before
  }

  function Earliest(q: Request): Option<string> {
    if q.coverageStart.Some? && IsValidDateString(q.coverageStart.value) then q.coverageStart
    else if q.watermark.Some? && IsValidDateString(q.watermark.value) then q.watermark
    else EarliestOf(q.archive)
  }

  /** The last date of the gap scan. */
  function OlderEnd(q: Request): string {
    var end := ScanEnd(q);
    if q.coverageEnd.Some? && IsValidDateString(q.coverageEnd.value)
        && Less(q.coverageEnd.value, end) then q.coverageEnd.value else end
  }

  /** Every date from the earliest one to the end of the scan. */
  function GapDates(q: Request): seq<string> {
    var first := Earliest(q);
    if first.None? || !IsValidDateString(first.value) || !IsValidDateString(OlderEnd(q)) then []
    else
      var n := UtcDay(OlderEnd(q)) - UtcDay(first.value) + 1;
      seq(if n > 0 then n else 0, i requires 0 <= i => Nth(first.value, i))
  }

  /** Retry metadata that is present must parse and lie in the past. */
  predicate Due(q: Request, f: FailedDate) {
    var due := if f.nextRetryAt.Some? then f.nextRetryAt else f.retryAt;
    due.None? || due.value == "" || (q.parseMs(due.value).Some? && q.parseMs(due.value).value <= q.nowMs)
  }

  predicate EligibleUnfinished(q: Request, d: string) {
    IsValidDateString(d) && !Less(q.today, d)
  }

  predicate EligibleFailure(q: Request, f: FailedDate) {
    IsValidDateString(f.date) && !Less(q.today, f.date) && Due(q, f)
  }

  /** The date is unfinished, or its failure is due. */
  ghost predicate Waits(q: Request, d: string) {
    (d in q.unfinished && EligibleUnfinished(q, d)) || exists f :: f in q.failed && f.date == d && EligibleFailure(q, f)
  }

  /** Unfinished dates and due failures that are not candidates yet, each once. */
  function OlderWork(q: Request, candidates: seq<string>, unfinished: seq<string>,
                     failed: seq<FailedDate>): seq<string> {
    if failed != [] then
      var f := failed[|failed| - 1];
      var work := OlderWork(q, candidates, unfinished, failed[..|failed| - 1]);
      if EligibleFailure(q, f) && f.date !in candidates && f.date !in work then work + [f.date] else work
    else if unfinished != [] then
      var d := unfinished[|unfinished| - 1];
      var work := OlderWork(q, candidates, unfinished[..|unfinished| - 1], []);
      if EligibleUnfinished(q, d) && d !in candidates && d !in work then work + [d] else work
    else []
  }

  function DateOrder(): (string, string) -> bool {
    (a, b) => !Less(b, a)
  }

  function GapCandidates(q: Request): seq<string> {
    var recent := PushAll([], [q.today, DayString(UtcDay(q.today) - 1)]);
    PushAll(PushAll(recent, Missing(WindowDates(q.today, q.policyDays), q.archive)), Missing(GapDates(q), q.archive))
  }

  function Candidates(q: Request): seq<string> {
    var gaps := GapCandidates(q);
    PushAll(gaps, Sort(OlderWork(q, gaps, q.unfinished, q.failed), DateOrder()))
  }

  // ---- The selector ----

  datatype Selection = Selection(datesToSync: seq<string>, remainingGapsCount: nat, nextCursor: Option<string>)

  class Queue {
    var ordered: seq<string>
    var added: set<string>

    constructor ()
      ensures Valid() && ordered == []
    {
      ordered, added := [], {};
    }

    ghost predicate Valid()
      reads this
    {
      forall d :: d in added <==> d in ordered
    }

    method PushCandidate(d: string)
      requires Valid()
      modifies this
      ensures Valid() && ordered == Push(old(ordered), d)
    {
      hide IsValidDateString;
      if IsValidDateString(d) && d !in added {
        added := added + {d};
        ordered := ordered + [d];
      }
    }
  }

  lemma PushMissingStep(candidates: seq<string>, dates: seq<string>, d: string, archive: seq<string>)
    ensures PushAll(candidates, Missing(dates + [d], archive)) ==
            if d in archive then PushAll(candidates, Missing(dates, archive))
            else Push(PushAll(candidates, Missing(dates, archive)), d)
  {
    hide Push;
    var missing := Missing(dates, archive);
    assert (dates + [d])[..|dates|] == dates;
    assert missing + [] == missing && (missing + [d])[..|missing|] == missing;
  }

  lemma NothingMissing(candidates: seq<string>, archive: seq<string>)
    ensures PushAll(candidates, Missing([], archive)) == candidates
  {
  }

  /** The window loop: i counts down from policyDays - 1 to 2. */
  method PushWindow(queue: Queue, q: Request)
    requires queue.Valid() && Usable(q)
    modifies queue
    ensures queue.Valid() && queue.ordered
            == PushAll(old(queue.ordered), Missing(WindowDates(q.today, q.policyDays), q.archive))
  {
    hide *;
    UsableIsValid(q);
    var i := q.policyDays - 1;
    ghost var before := queue.ordered;
    WindowStarts(q.today, q.policyDays);
    NothingMissing(before, q.archive);
    while i >= 2
      invariant i <= q.policyDays - 1 && (i >= 1 || i == q.policyDays - 1)
      invariant queue.Valid() && queue.ordered
                == PushAll(before, Missing(WindowDatesDownTo(q.today, q.policyDays, i), q.archive))
    {
      SumIs(q.today, -i);
      var d := AddDays(q.today, -i).value;
      WindowStep(q.today, q.policyDays, i);
      PushMissingStep(before, WindowDatesDownTo(q.today, q.policyDays, i), d, q.archive);
      if d !in q.archive {
        queue.PushCandidate(d);
      }
      i := i - 1;
    }
    WindowEnds(q.today, q.policyDays, i);
  }

  /** The part of the window already visited when the countdown has reached i. */
  ghost function WindowDatesDownTo(today: string, policyDays: int, i: int): seq<string> {
    seq(if policyDays - 1 >= i then policyDays - 1 - i else 0, k => DayString(UtcDay(today) - (policyDays - 1 - k)))
  }

  lemma WindowStarts(today: string, policyDays: int)
    ensures WindowDatesDownTo(today, policyDays, policyDays - 1) == []
  {
    hide DayString, UtcDay, IsValidDateString;
  }

  lemma WindowStep(today: string, policyDays: int, i: int)
    requires i <= policyDays - 1
    ensures WindowDatesDownTo(today, policyDays, i - 1)
            == WindowDatesDownTo(today, policyDays, i) + [DayString(UtcDay(today) - i)]
    ensures DayString(UtcDay(today) - i) == DayString(UtcDay(today) + -i)
  {
    hide DayString, UtcDay, IsValidDateString;
  }

  lemma WindowEnds(today: string, policyDays: int, i: int)
    requires i < 2 && (i >= 1 || i == policyDays - 1) && i <= policyDays - 1
    ensures WindowDatesDownTo(today, policyDays, i) == WindowDates(today, policyDays)
  {
    hide DayString, UtcDay, IsValidDateString;
  }

  lemma UsableIsValid(q: Request)
    requires Usable(q)
    ensures IsValidDateString(q.today) && FIRST_DAY < UtcDay(q.today)
            && FIRST_DAY <= UtcDay(q.today) - q.policyDays < LAST_DAY
  {
    hide IsValidDateString, UtcDay, Regular;
  }

  lemma TodayIsRegular(q: Request)
    requires Usable(q)
    ensures Regular(q.today) && UtcDay(q.today) <= LAST_DAY
  {
    hide IsValidDateString, UtcDay, Regular;
    RegularDay(q.today);
  }

  /** The scan for the earliest date in scope. */
  method FindEarliest(q: Request) returns (earliest: Option<string>)
    ensures earliest == Earliest(q)
  {
    hide IsValidDateString, Less;
    if q.coverageStart.Some? && IsValidDateString(q.coverageStart.value) { return q.coverageStart; }
    if q.watermark.Some? && IsValidDateString(q.watermark.value) { return q.watermark; }
    earliest := None;
    assert q.archive[..0] == [];
    for i := 0 to |q.archive|
      invariant earliest == EarliestOf(q.archive[..i])
    {
      assert q.archive[..i + 1][..i] == q.archive[..i];
      if IsValidDateString(q.archive[i]) && (earliest.None? || Less(q.archive[i], earliest.value)) {
        earliest := Some(q.archive[i]);
      }
    }
    assert q.archive[..|q.archive|] == q.archive;
  }

  lemma {:induction false} EarliestIsValid(dates: seq<string>)
    ensures EarliestOf(dates).Some? ==> IsValidDateString(EarliestOf(dates).value)
  {
    hide IsValidDateString, Less;
    if dates != [] { EarliestIsValid(dates[..|dates| - 1]); }
  }

  lemma EarliestValid(q: Request)
    ensures Earliest(q).Some? ==> IsValidDateString(Earliest(q).value)
  {
    hide IsValidDateString;
    EarliestIsValid(q.archive);
  }

  /** The end of the scan before a coverage end bounds it. */
  function ScanEnd(q: Request): string {
    DayString(UtcDay(q.today) - q.policyDays)
  }

  lemma ScanEndIs(q: Request)
    ensures ScanEnd(q) == DayString(UtcDay(q.today) - q.policyDays)
  {
  }

  lemma ScanEndIsRegular(q: Request)
    requires Usable(q)
    ensures Regular(ScanEnd(q)) && IsValidDateString(ScanEnd(q)) && UtcDay(ScanEnd(q)) < LAST_DAY
  {
    hide *;
    UsableIsValid(q);
    TodayIsRegular(q);
    ScanEndIs(q);
    DayStringIsRegular(UtcDay(q.today) - q.policyDays);
    RegularDay(ScanEnd(q));
  }

  lemma ScanEndSteps(q: Request)
    requires Usable(q)
    ensures AddDays(q.today, -(q.policyDays - 1)).Some?
    ensures AddDays(AddDays(q.today, -(q.policyDays - 1)).value, -1) == Some(ScanEnd(q))
  {
    hide *;
    UsableIsValid(q);
    TodayIsRegular(q);
    ScanEndIs(q);
    SumIsRegular(q.today, -(q.policyDays - 1));
    SumIs(AddDays(q.today, -(q.policyDays - 1)).value, -1);
    assert UtcDay(q.today) + -(q.policyDays - 1) + -1 == UtcDay(q.today) - q.policyDays;
  }

  lemma OlderEndIs(q: Request)
    ensures OlderEnd(q) == if q.coverageEnd.Some? && IsValidDateString(q.coverageEnd.value)
            && Less(q.coverageEnd.value, ScanEnd(q))
                           then q.coverageEnd.value else ScanEnd(q)
  {
    hide IsValidDateString, Less, DayString, UtcDay;
  }

  /** The part of the gap scan already visited. */
  ghost function GapPrefix(first: string, n: nat): seq<string> {
    seq(n, i requires 0 <= i => Nth(first, i))
  }

  lemma GapStep(first: string, n: nat)
    ensures GapPrefix(first, n + 1) == GapPrefix(first, n) + [Nth(first, n)]
  {
    hide Nth, IsValidDateString;
  }

  lemma GapDatesAre(q: Request, first: string)
    requires Earliest(q) == Some(first) && IsValidDateString(first) && IsValidDateString(OlderEnd(q))
    ensures var n := UtcDay(OlderEnd(q)) - UtcDay(first) + 1;
            GapDates(q) == GapPrefix(first, if n > 0 then n else 0)
  {
    hide Earliest, OlderEnd, IsValidDateString, UtcDay, Nth, Usable;
  }

  lemma NoGapDates(q: Request)
    requires Earliest(q).None?
    ensures GapDates(q) == []
  {
    hide Earliest, OlderEnd, IsValidDateString, UtcDay, Nth, Usable;
  }

  /** The gap loop: from the earliest date in scope to the end of the scan. */
  method PushGaps(queue: Queue, q: Request)
    requires queue.Valid() && Usable(q)
    modifies queue
    ensures queue.Valid() && queue.ordered == PushAll(old(queue.ordered), Missing(GapDates(q), q.archive))
  {
    hide *;
    EarliestValid(q);
    OlderEndIs(q);
    BeforeTheEnd(q);
    ScanEndSteps(q);
    ghost var before := queue.ordered;
    var earliest := FindEarliest(q);
    var policyStart := AddDays(q.today, -(q.policyDays - 1)).value;
    var olderEnd := AddDays(policyStart, -1).value;
    if q.coverageEnd.Some? && IsValidDateString(q.coverageEnd.value) && Less(q.coverageEnd.value, olderEnd) {
      olderEnd := q.coverageEnd.value;
    }
    NothingMissing(before, q.archive);
    if earliest.None? {
      NoGapDates(q);
      return;
    }
    var first := earliest.value;
    GapDatesAre(q, first);
    DifferenceIs(first, olderEnd);
    if DifferenceInDays(first, olderEnd).value >= 0 {
      var cur := first;
      ghost var i: nat := 0;
      GapStarts(first);
      while DifferenceInDays(cur, olderEnd).value >= 0
        invariant i <= UtcDay(olderEnd) - UtcDay(first) + 1
        invariant cur == Nth(first, i) && IsValidDateString(cur) && UtcDay(cur) == UtcDay(first) + i
        invariant DifferenceInDays(cur, olderEnd) == Some(UtcDay(olderEnd) - UtcDay(cur))
        invariant queue.Valid() && queue.ordered == PushAll(before, Missing(GapPrefix(first, i), q.archive))
        decreases UtcDay(olderEnd) - UtcDay(first) + 1 - i
      {
        GapStep(first, i);
        PushMissingStep(before, GapPrefix(first, i), cur, q.archive);
        if cur !in q.archive {
          queue.PushCandidate(cur);
        }
        NextDay(first, olderEnd, i);
        NextGap(q, first, olderEnd, i);
        cur := AddDays(cur, 1).value;
        DifferenceIs(cur, olderEnd);
        i := i + 1;
      }
    } else {
      GapStarts(first);
    }
  }

  lemma GapStarts(first: string)
    ensures GapPrefix(first, 0) == [] && Nth(first, 0) == first
  {
  }

  lemma NextGap(q: Request, first: string, olderEnd: string, i: nat)
    requires Usable(q) && IsValidDateString(first) && IsValidDateString(olderEnd) && olderEnd == OlderEnd(q)
    requires i <= UtcDay(olderEnd) - UtcDay(first)
    ensures IsValidDateString(Nth(first, i + 1)) && UtcDay(Nth(first, i + 1)) == UtcDay(first) + i + 1
  {
    hide *;
    BeforeTheEnd(q);
    UtcBounds(first);
    NthOf(first, i + 1);
    DayStringIsRegular(UtcDay(first) + i + 1);
    RegularDay(DayString(UtcDay(first) + i + 1));
  }

  /** The gap scan stops before the last representable date. */
  lemma BeforeTheEnd(q: Request)
    requires Usable(q)
    ensures IsValidDateString(OlderEnd(q)) && UtcDay(OlderEnd(q)) < LAST_DAY
  {
    hide *;
    OlderEndIs(q);
    ScanEndIsRegular(q);
    if OlderEnd(q) != ScanEnd(q) {
      EarlierUtcDay(OlderEnd(q), ScanEnd(q));
    }
  }

  /** A date whose string precedes a regular one lies before the last representable day. */
  lemma EarlierUtcDay(a: string, b: string)
    requires IsValidDateString(a) && Regular(b) && Less(a, b)
    ensures UtcDay(a) < LAST_DAY
  {
    hide *;
    RegularDay(b);
    if Regular(a) {
      StringOrderIsChronological(a, b);
      DifferenceIs(a, b);
    } else {
      RemappedDay(a);
    }
  }

  /** Steps 3b and 3c: the set of unfinished and due failed dates, in order of insertion. */
  method CollectOlderWork(q: Request, candidates: seq<string>) returns (work: seq<string>)
    ensures work == OlderWork(q, candidates, q.unfinished, q.failed)
  {
    hide EligibleUnfinished, EligibleFailure;
    work := [];
    assert q.unfinished[..0] == [] && q.failed[..0] == [];
    for i := 0 to |q.unfinished|
      invariant work == OlderWork(q, candidates, q.unfinished[..i], [])
    {
      assert q.unfinished[..i + 1][..i] == q.unfinished[..i];
      var d := q.unfinished[i];
      if EligibleUnfinished(q, d) && d !in candidates && d !in work {
        work := work + [d];
      }
    }
    assert q.unfinished[..|q.unfinished|] == q.unfinished;
    for i := 0 to |q.failed|
      invariant work == OlderWork(q, candidates, q.unfinished, q.failed[..i])
    {
      assert q.failed[..i + 1][..i] == q.failed[..i];
      var f := q.failed[i];
      if EligibleFailure(q, f) && f.date !in candidates && f.date !in work {
        work := work + [f.date];
      }
    }
    assert q.failed[..|q.failed|] == q.failed;
  }

  method PushSorted(queue: Queue, dates: seq<string>)
    requires queue.Valid()
    modifies queue
    ensures queue.Valid() && queue.ordered == PushAll(old(queue.ordered), dates)
  {
    hide Push;
    assert dates[..0] == [];
    for i := 0 to |dates|
      invariant queue.Valid() && queue.ordered == PushAll(old(queue.ordered), dates[..i])
    {
      assert dates[..i + 1][..i] == dates[..i];
      queue.PushCandidate(dates[i]);
    }
    assert dates[..|dates|] == dates;
  }

  /**
   The selection that the ordered candidates give: the first maxDates of them, the rest counted, the next one
   remembered.
   */
  ghost predicate IsSelection(r: Selection, candidates: seq<string>, maxDates: nat) {
    exists rest :: candidates == r.datesToSync + rest
                   && |r.datesToSync| <= maxDates
                   && (rest != [] ==> |r.datesToSync| == maxDates)
                   && r.remainingGapsCount == |rest|
                   && r.nextCursor == if rest == [] then None else Some(rest[0])
  }

  lemma FirstTwo(q: Request)
    ensures PushAll([], [q.today, DayString(UtcDay(q.today) - 1)])
            == Push(Push([], q.today), DayString(UtcDay(q.today) - 1))
  {
    hide DayString, UtcDay, Push;
    var dates := [q.today, DayString(UtcDay(q.today) - 1)];
    assert dates[..1] == [q.today] && [q.today][..0] == [];
    assert PushAll([], [q.today]) == Push(PushAll([], []), q.today);
  }

  /** selectStartupCatchupDates. */
  method SelectStartupCatchupDates(q: Request) returns (r: Selection)
    requires Usable(q)
    ensures IsSelection(r, Candidates(q), q.maxDates) && Distinct(r.datesToSync)
  {
    hide *;
    UsableIsValid(q);
    FirstTwo(q);
    CandidatesAre(q);
    SumIs(q.today, -1);
    var queue := new Queue();
    queue.PushCandidate(q.today);
    queue.PushCandidate(AddDays(q.today, -1).value);
    PushWindow(queue, q);
    PushGaps(queue, q);
    var work := CollectOlderWork(q, queue.ordered);
    PushSorted(queue, Sort(work, DateOrder()));
    r := Cut(queue.ordered, q.maxDates);
    CandidateMembers(q);
    SelectionIsDistinct(r, Candidates(q), q.maxDates);
  }

  lemma SelectionIsDistinct(r: Selection, candidates: seq<string>, maxDates: nat)
    requires IsSelection(r, candidates, maxDates) && Distinct(candidates)
    ensures Distinct(r.datesToSync)
  {
    var rest :| candidates == r.datesToSync + rest;
    assert forall i :: 0 <= i < |r.datesToSync| ==> candidates[i] == r.datesToSync[i];
  }

  method Cut(ordered: seq<string>, maxDates: nat) returns (r: Selection)
    ensures IsSelection(r, ordered, maxDates)
  {
    var selected := if maxDates < |ordered| then ordered[..maxDates] else ordered;
    var remaining := |ordered| - |selected|;
    r := Selection(selected, remaining, if remaining > 0 then Some(ordered[maxDates]) else None);
    assert ordered == selected + ordered[|selected|..];
  }

  lemma CandidatesAre(q: Request)
    ensures var recent := PushAll([], [q.today, DayString(UtcDay(q.today) - 1)]);
            var window := PushAll(recent, Missing(WindowDates(q.today, q.policyDays), q.archive));
            var gaps := PushAll(window, Missing(GapDates(q), q.archive));
            GapCandidates(q) == gaps && Candidates(q)
                == PushAll(gaps, Sort(OlderWork(q, gaps, q.unfinished, q.failed), DateOrder()))
    ensures DayString(UtcDay(q.today) - 1) == DayString(UtcDay(q.today) + -1)
  {
    hide DayString, UtcDay, PushAll, Missing, WindowDates, GapDates, OlderWork, Sort;
  }

  // ---- What is selected ----

  ghost predicate Distinct(dates: seq<string>) {
    forall i, j :: 0 <= i < j < |dates| ==> dates[i] != dates[j]
  }

  lemma PushMembers(candidates: seq<string>, date: string)
    ensures forall d :: d in Push(candidates, date) <==> d in candidates || (d == date && IsValidDateString(d))
    ensures Distinct(candidates) ==> Distinct(Push(candidates, date))
    ensures candidates <= Push(candidates, date)
  {
    hide IsValidDateString;
  }

  lemma {:induction false} PushAllMembers(candidates: seq<string>, dates: seq<string>)
    ensures forall d :: d in PushAll(candidates, dates) <==> d in candidates || (d in dates && IsValidDateString(d))
    ensures Distinct(candidates) ==> Distinct(PushAll(candidates, dates))
    ensures candidates <= PushAll(candidates, dates)
  {
    hide IsValidDateString, Push, Distinct;
    if dates != [] {
      var init, last := dates[..|dates| - 1], dates[|dates| - 1];
      PushAllMembers(candidates, init);
      PushMembers(PushAll(candidates, init), last);
      assert dates == init + [last];
    }
  }

  lemma {:induction false} MissingMembers(dates: seq<string>, archive: seq<string>)
    ensures forall d :: d in Missing(dates, archive) <==> d in dates && d !in archive
  {
    if dates != [] {
      MissingMembers(dates[..|dates| - 1], archive);
      assert dates == dates[..|dates| - 1] + [dates[|dates| - 1]];
    }
  }

  lemma {:induction false} OlderWorkMembers(q: Request, candidates: seq<string>, unfinished: seq<string>,
                                            failed: seq<FailedDate>)
    ensures forall d :: d in OlderWork(q, candidates, unfinished, failed) <==>
                        d !in candidates && ((d in unfinished && EligibleUnfinished(q, d)) || exists f ::
                            f in failed && f.date == d && EligibleFailure(q, f))
    decreases |unfinished| + |failed|
  {
    hide EligibleUnfinished, EligibleFailure;
    if failed != [] {
      var init, f := failed[..|failed| - 1], failed[|failed| - 1];
      OlderWorkMembers(q, candidates, unfinished, init);
      assert failed == init + [f];
      assert forall g :: g in failed <==> g in init || g == f;
    } else if unfinished != [] {
      var init := unfinished[..|unfinished| - 1];
      OlderWorkMembers(q, candidates, init, []);
      assert unfinished == init + [unfinished[|unfinished| - 1]];
    }
  }

  /** The recent and the uncovered dates come first, each once. */
  lemma GapCandidateMembers(q: Request)
    requires Usable(q)
    ensures Distinct(GapCandidates(q)) && GapCandidates(q) <= Candidates(q)
    ensures [q.today, DayString(UtcDay(q.today) - 1)] <= GapCandidates(q)
    ensures forall d :: d in GapCandidates(q) <==>
              IsValidDateString(d) &&
              (d == q.today || d == DayString(UtcDay(q.today) - 1)
               || (d !in q.archive && (d in WindowDates(q.today, q.policyDays) || d in GapDates(q))))
  {
    hide *;
    CandidatesAre(q);
    var yesterday := DayString(UtcDay(q.today) - 1);
    var recent := PushAll([], [q.today, yesterday]);
    var missingWindow, missingGaps := Missing(WindowDates(q.today, q.policyDays), q.archive),
        Missing(GapDates(q), q.archive);
    var window := PushAll(recent, missingWindow);
    var gaps := PushAll(window, missingGaps);
    NothingIsDistinct();
    RecentAre(q);
    PushAllMembers([], [q.today, yesterday]);
    PushAllMembers(recent, missingWindow);
    PushAllMembers(window, missingGaps);
    PushAllMembers(gaps, Sort(OlderWork(q, gaps, q.unfinished, q.failed), DateOrder()));
    MissingMembers(WindowDates(q.today, q.policyDays), q.archive);
    MissingMembers(GapDates(q), q.archive);
  }

  lemma RecentAre(q: Request)
    requires Usable(q)
    ensures PushAll([], [q.today, DayString(UtcDay(q.today) - 1)]) == [q.today, DayString(UtcDay(q.today) - 1)]
  {
    hide *;
    var yesterday := DayString(UtcDay(q.today) - 1);
    UsableIsValid(q);
    TodayIsRegular(q);
    RegularDay(q.today);
    FirstTwo(q);
    DayStringIsRegular(UtcDay(q.today) - 1);
    RegularDay(yesterday);
    PushTwo(q.today, yesterday);
  }

  lemma PushTwo(a: string, b: string)
    requires a != b && IsValidDateString(a) && IsValidDateString(b)
    ensures PushAll([], [a, b]) == [a, b]
  {
    hide IsValidDateString;
    assert [a, b][..1] == [a] && [a][..0] == [];
    assert PushAll([], [a]) == [a];
  }

  /**
   The candidates are distinct, and they are exactly the recent dates, the uncovered ones and the eligible older
   work.
   */
  lemma CandidateMembers(q: Request)
    requires Usable(q)
    ensures Distinct(Candidates(q))
    ensures forall d :: d in Candidates(q) <==>
              IsValidDateString(d) &&
              (d == q.today || d == DayString(UtcDay(q.today) - 1)
               || (d !in q.archive && (d in WindowDates(q.today, q.policyDays) || d in GapDates(q)))
               || Waits(q, d))
  {
    hide *;
    CandidatesAre(q);
    GapCandidateMembers(q);
    var gaps := GapCandidates(q);
    var work := OlderWork(q, gaps, q.unfinished, q.failed);
    PushAllMembers(gaps, Sort(work, DateOrder()));
    SortMembers(work, DateOrder());
    OlderWorkMembers(q, gaps, q.unfinished, q.failed);
    WaitsIs(q);
    EligibleIsValid(q);
  }

  lemma WaitsIs(q: Request)
    ensures forall d :: Waits(q, d) <==>
              (d in q.unfinished && EligibleUnfinished(q, d)) || exists f ::
                  f in q.failed && f.date == d && EligibleFailure(q, f)
  {
    hide EligibleUnfinished, EligibleFailure;
  }

  lemma NothingIsDistinct()
    ensures Distinct([])
  {
  }

  lemma EligibleIsValid(q: Request)
    ensures forall d :: EligibleUnfinished(q, d) ==> IsValidDateString(d)
    ensures forall f :: EligibleFailure(q, f) ==> IsValidDateString(f.date)
  {
    hide IsValidDateString;
  }

  /** The dates of the scan are those from the earliest one to its end. */
  lemma InGapDates(q: Request, first: string, d: string)
    requires Usable(q) && Earliest(q) == Some(first) && Regular(first) && Regular(d)
    requires UtcDay(first) <= UtcDay(d) <= UtcDay(OlderEnd(q))
    ensures d in GapDates(q)
  {
    hide *;
    RegularDay(first);
    RegularDay(d);
    BeforeTheEnd(q);
    GapDatesAre(q, first);
    NthIs(first, OlderEnd(q), UtcDay(d) - UtcDay(first));
    InGapPrefix(first, UtcDay(OlderEnd(q)) - UtcDay(first) + 1, UtcDay(d) - UtcDay(first));
  }

  lemma InGapPrefix(first: string, n: nat, i: nat)
    requires i < n
    ensures Nth(first, i) in GapPrefix(first, n)
  {
    hide Nth;
    assert GapPrefix(first, n)[i] == Nth(first, i);
  }

  lemma InWindow(today: string, policyDays: int, n: int)
    requires UtcDay(today) - (policyDays - 1) <= n <= UtcDay(today) - 2
    ensures DayString(n) in WindowDates(today, policyDays)
  {
    hide DayString, UtcDay;
    var i := n - (UtcDay(today) - (policyDays - 1));
    assert WindowDates(today, policyDays)[i] == DayString(UtcDay(today) - (policyDays - 1 - i));
    assert UtcDay(today) - (policyDays - 1 - i) == n;
  }

  /**
   With a fixed coverage start and no coverage end, every unarchived date from the start to today is a candidate.
   */
  lemma EveryGapIsOffered(q: Request, d: string)
    requires Usable(q) && q.coverageStart.Some? && Regular(q.coverageStart.value) && q.coverageEnd.None?
    requires Regular(d) && !Less(d, q.coverageStart.value) && !Less(q.today, d) && d !in q.archive
    ensures d in Candidates(q)
  {
    hide *;
    var first, n := q.coverageStart.value, UtcDay(d);
    CandidateMembers(q);
    UsableIsValid(q);
    TodayIsRegular(q);
    RegularDay(d);
    RegularDay(first);
    OnOrAfter(first, d);
    OnOrAfter(d, q.today);
    OlderEndIs(q);
    ScanEndIs(q);
    UsesCoverageStart(q);
    TodayIsRegular(q);
    RegularDay(q.today);
    if n >= UtcDay(q.today) - 1 {
    } else if n >= UtcDay(q.today) - (q.policyDays - 1) {
      InWindow(q.today, q.policyDays, n);
    } else {
      DayStringIsRegular(UtcDay(q.today) - q.policyDays);
      InGapDates(q, first, d);
    }
  }

  lemma UsesCoverageStart(q: Request)
    requires q.coverageStart.Some? && IsValidDateString(q.coverageStart.value)
    ensures Earliest(q) == q.coverageStart
  {
    hide IsValidDateString, EarliestOf;
  }

  lemma OnOrAfter(a: string, b: string)
    requires Regular(a) && Regular(b) && !Less(b, a)
    ensures UtcDay(a) <= UtcDay(b)
  {
    hide *;
    RegularDay(a);
    RegularDay(b);
    StringOrderIsChronological(b, a);
    DifferenceIs(b, a);
  }
}
