/** Which dates a start-up offers, said of the request itself, and the order in which it offers them. */
module CatchupCandidates {
  import opened Options
  import opened Orders
  import opened Calendar
  import opened Catchup

  // ---- Failed and unfinished dates ----

  /** A retry instant that is missing or empty allows the retry; otherwise it must parse and not lie in the future. */
  ghost predicate Allows(q: Request, instant: Option<string>) {
    match instant
    case None => true
    case Some(t) => t == "" || (q.parseMs(t).Some? && q.parseMs(t).value <= q.nowMs)
  }

  /** The failure may be retried now; the second source of its retry instant counts only without the first. */
  ghost predicate MayRetry(q: Request, f: FailedDate) {
    Allows(q, if f.nextRetryAt == None then f.retryAt else f.nextRetryAt)
  }

  /** The dates that older work consists of. */
  lemma WaitsMeans(q: Request, d: string)
    ensures Waits(q, d) <==>
            IsValidDateString(d) && !Less(q.today, d)
            && (d in q.unfinished || exists f :: f in q.failed && f.date == d && MayRetry(q, f))
  {
    hide IsValidDateString, Less;
    assert forall f :: MayRetry(q, f) <==> Due(q, f);
  }

  /**
   A valid failed date up to today that is neither recent nor uncovered nor unfinished is offered exactly when one of
   its failures may be retried.
   */
  lemma FailedDates(q: Request, d: string)
    requires Usable(q) && IsValidDateString(d) && !Less(q.today, d) && d !in GapCandidates(q) && d !in q.unfinished
    ensures d in Candidates(q) <==> exists f :: f in q.failed && f.date == d && MayRetry(q, f)
  {
    hide *;
    GapCandidateMembers(q);
    CandidateMembers(q);
    WaitsMeans(q, d);
  }

  /** Such a date is selected only then, and exactly then if there is room for all candidates. */
  lemma SelectedFailures(q: Request, r: Selection, d: string)
    requires Usable(q) && IsSelection(r, Candidates(q), q.maxDates)
    requires IsValidDateString(d) && !Less(q.today, d) && d !in GapCandidates(q) && d !in q.unfinished
    ensures d in r.datesToSync ==> exists f :: f in q.failed && f.date == d && MayRetry(q, f)
    ensures |Candidates(q)| <= q.maxDates ==>
              (d in r.datesToSync <==> exists f :: f in q.failed && f.date == d && MayRetry(q, f))
  {
    hide *;
    FailedDates(q, d);
    SelectedAreCandidates(r, Candidates(q), q.maxDates);
    if |Candidates(q)| <= q.maxDates { AllSelected(r, Candidates(q), q.maxDates); }
  }

  lemma SelectedAreCandidates(r: Selection, candidates: seq<string>, maxDates: nat)
    requires IsSelection(r, candidates, maxDates)
    ensures forall d :: d in r.datesToSync ==> d in candidates
  {
  }

  lemma AllSelected(r: Selection, candidates: seq<string>, maxDates: nat)
    requires IsSelection(r, candidates, maxDates) && |candidates| <= maxDates
    ensures r.datesToSync == candidates
  {
    var rest :| candidates == r.datesToSync + rest && (rest != [] ==> |r.datesToSync| == maxDates);
  }

  /** Later on the same day, with the same archive, every date that was offered is offered still. */
  lemma OfferedStays(q: Request, later: int, d: string)
    requires Usable(q) && q.nowMs <= later && d in Candidates(q)
    ensures d in Candidates(q.(nowMs := later))
  {
    hide *;
    var r := q.(nowMs := later);
    LaterIsUsable(q, later);
    CandidateMembers(q);
    CandidateMembers(r);
    WaitsMeans(q, d);
    WaitsMeans(r, d);
    RetriesStay(q, later);
  }

  lemma RetriesStay(q: Request, later: int)
    requires q.nowMs <= later
    ensures forall f :: MayRetry(q, f) ==> MayRetry(q.(nowMs := later), f)
  {
  }

  lemma LaterIsUsable(q: Request, later: int)
    requires Usable(q)
    ensures var r := q.(nowMs := later);
            Usable(r) && GapDates(r) == GapDates(q) && r.archive == q.archive && r.today == q.today
                && r.policyDays == q.policyDays
            && r.unfinished == q.unfinished && r.failed == q.failed
  {
    hide IsValidDateString, Regular, UtcDay, DayString, Less, EarliestOf, Nth;
  }

  // ---- Uncovered dates ----

  /** Where the scan starts: the coverage start, else the watermark, else the first date of the archive. */
  ghost predicate StartsAt(q: Request, first: string) {
    if q.coverageStart.Some? && IsValidDateString(q.coverageStart.value) then first == q.coverageStart.value
    else if q.watermark.Some? && IsValidDateString(q.watermark.value) then first == q.watermark.value
    else first in q.archive && IsValidDateString(first)
         && forall d :: d in q.archive && IsValidDateString(d) ==> !Less(d, first)
  }

  /** Where it ends: the day before the policy window, or an earlier coverage end. */
  ghost predicate EndsAt(q: Request, last: string) {
    var scanEnd := DayString(UtcDay(q.today) - q.policyDays);
    last == if q.coverageEnd.Some? && IsValidDateString(q.coverageEnd.value) && Less(q.coverageEnd.value, scanEnd)
            then q.coverageEnd.value else scanEnd
  }

  lemma {:induction false} EarliestOfMeans(dates: seq<string>)
    ensures EarliestOf(dates).None? <==> forall d :: d in dates ==> !IsValidDateString(d)
    ensures EarliestOf(dates).Some? ==>
              var e := EarliestOf(dates).value;
              e in dates && IsValidDateString(e) && forall d :: d in dates && IsValidDateString(d) ==> !Less(d, e)
  {
    if dates != [] {
      var init, d := dates[..|dates| - 1], dates[|dates| - 1];
      EarliestOfMeans(init);
      assert dates == init + [d];
      LessIrreflexive(d);
      var e := EarliestOf(init);
      if e.Some? && IsValidDateString(d) {
        forall x | x in init && IsValidDateString(x) && Less(d, e.value) ensures !Less(x, d) {
          ValidOrder(x, d, e.value);
        }
      }
      hide IsValidDateString, Less;
    }
  }

  lemma ValidOrder(a: string, b: string, c: string)
    requires IsValidDateString(a) && IsValidDateString(b) && IsValidDateString(c)
    ensures Less(a, b) && Less(b, c) ==> Less(a, c)
    ensures Less(a, b) || Less(b, a) || a == b
  {
    ValidHasShape(a);
    ValidHasShape(b);
    ValidHasShape(c);
    LessIsBefore(a, b);
    LessIsBefore(b, c);
    LessIsBefore(a, c);
    LessIsBefore(b, a);
    hide IsValidDateString, Less, Parts, HasDateShape;
  }

  lemma StartsAtIs(q: Request, first: string)
    ensures StartsAt(q, first) <==> Earliest(q) == Some(first)
  {
    EarliestOfMeans(q.archive);
    var e := EarliestOf(q.archive);
    if e.Some? && IsValidDateString(first) { ValidOrder(e.value, first, first); }
    hide IsValidDateString, Less, EarliestOf;
  }

  /** The scan covers exactly the dates from its start to its end. */
  lemma ScanMeans(q: Request, first: string, last: string, d: string)
    requires Usable(q) && StartsAt(q, first) && EndsAt(q, last) && Regular(first)
    ensures d in GapDates(q) <==> Regular(d) && !Less(d, first) && IsValidDateString(last) && UtcDay(d) <= UtcDay(last)
  {
    hide *;
    StartsAtIs(q, first);
    EndsAtIs(q, last);
    BeforeTheEnd(q);
    RegularDay(first);
    GapDatesAre(q, first);
    var n := UtcDay(last) - UtcDay(first) + 1;
    if d in GapDates(q) {
      var i := PrefixPlace(first, if n > 0 then n else 0, d);
      NthIs(first, last, i);
      DayStringIsRegular(UtcDay(first) + i);
      RegularDay(d);
      OrderOfDays(d, first);
    }
    if Regular(d) && !Less(d, first) && UtcDay(d) <= UtcDay(last) {
      RegularDay(d);
      OrderOfDays(d, first);
      InGapDates(q, first, d);
    }
  }

  lemma EndsAtIs(q: Request, last: string)
    requires EndsAt(q, last)
    ensures last == OlderEnd(q)
  {
    hide IsValidDateString, Less, DayString, UtcDay;
  }

  lemma OrderOfDays(a: string, b: string)
    requires Regular(a) && Regular(b)
    ensures Less(a, b) <==> UtcDay(a) < UtcDay(b)
  {
    hide *;
    RegularDay(a);
    RegularDay(b);
    StringOrderIsChronological(a, b);
    DifferenceIs(a, b);
  }

  lemma PrefixPlace(first: string, n: nat, d: string) returns (i: nat)
    requires d in GapPrefix(first, n)
    ensures i < n && d == Nth(first, i)
  {
    hide Nth;
    i :| 0 <= i < |GapPrefix(first, n)| && GapPrefix(first, n)[i] == d;
  }

  /** The policy window has the days before yesterday up to the given number of days back, today included. */
  lemma WindowMeans(q: Request, d: string)
    requires Usable(q)
    ensures d in WindowDates(q.today, q.policyDays) <==>
            Regular(d) && UtcDay(q.today) - q.policyDays < UtcDay(d) <= UtcDay(q.today) - 2
  {
    hide *;
    UsableIsValid(q);
    TodayIsRegular(q);
    if d in WindowDates(q.today, q.policyDays) {
      var i := WindowPlace(q.today, q.policyDays, d);
      DayStringIsRegular(UtcDay(q.today) - (q.policyDays - 1 - i));
    }
    if Regular(d) && UtcDay(q.today) - q.policyDays < UtcDay(d) <= UtcDay(q.today) - 2 {
      RegularDay(d);
      InWindow(q.today, q.policyDays, UtcDay(d));
    }
  }

  lemma WindowPlace(today: string, policyDays: int, d: string) returns (i: nat)
    requires d in WindowDates(today, policyDays)
    ensures i < policyDays - 2 && d == DayString(UtcDay(today) - (policyDays - 1 - i))
  {
    hide DayString, UtcDay;
    i :| 0 <= i < |WindowDates(today, policyDays)| && WindowDates(today, policyDays)[i] == d;
  }

  /** Every candidate, said of the request: recent dates, uncovered ones of the window or the scan, and older work. */
  lemma CandidatesMean(q: Request, first: string, last: string, d: string)
    requires Usable(q) && StartsAt(q, first) && EndsAt(q, last) && Regular(first)
    ensures d in Candidates(q) <==>
            || d == q.today || d == DayString(UtcDay(q.today) - 1)
            || (d !in q.archive
                && Regular(d)
                && (|| UtcDay(q.today) - q.policyDays < UtcDay(d) <= UtcDay(q.today) - 2
                    || (!Less(d, first) && IsValidDateString(last) && UtcDay(d) <= UtcDay(last))))
            || (IsValidDateString(d) && !Less(q.today, d)
                && (d in q.unfinished || exists f :: f in q.failed && f.date == d && MayRetry(q, f)))
  {
    hide *;
    CandidateMembers(q);
    WaitsMeans(q, d);
    ScanMeans(q, first, last, d);
    WindowMeans(q, d);
    RecentValid(q);
    if Regular(d) { RegularDay(d); }
  }

  lemma RecentValid(q: Request)
    requires Usable(q)
    ensures IsValidDateString(q.today) && IsValidDateString(DayString(UtcDay(q.today) - 1))
  {
    hide *;
    UsableIsValid(q);
    TodayIsRegular(q);
    RegularDay(q.today);
    DayStringIsRegular(UtcDay(q.today) - 1);
    RegularDay(DayString(UtcDay(q.today) - 1));
  }

  /** Without a start, nothing but recent dates, the window and older work. */
  lemma NothingToScan(q: Request)
    requires forall first :: !StartsAt(q, first)
    ensures GapDates(q) == []
  {
    if Earliest(q).Some? { StartsAtIs(q, Earliest(q).value); }
    hide Earliest, OlderEnd, IsValidDateString, UtcDay;
  }

  // ---- Order ----

  /** Each date is before all later ones. */
  ghost predicate Rising(dates: seq<string>) {
    forall i, j :: 0 <= i < j < |dates| ==> Less(dates[i], dates[j])
  }

  lemma RisingEnd(dates: seq<string>, d: string)
    requires Rising(dates) && forall x :: x in dates ==> Less(x, d)
    ensures Rising(dates + [d])
  {
    hide Less;
  }

  lemma RisingInit(dates: seq<string>)
    requires Rising(dates) && dates != []
    ensures var init, d := dates[..|dates| - 1], dates[|dates| - 1];
            Rising(init) && forall x :: x in init ==> Less(x, d)
  {
    hide Less;
  }

  lemma {:induction false} MissingRises(dates: seq<string>, archive: seq<string>)
    requires Rising(dates)
    ensures Rising(Missing(dates, archive))
  {
    if dates != [] {
      var init, d := dates[..|dates| - 1], dates[|dates| - 1];
      RisingInit(dates);
      MissingRises(init, archive);
      MissingMembers(init, archive);
      RisingEnd(Missing(init, archive), d);
      assert Missing(init, archive) + [] == Missing(init, archive);
      hide Less, Rising;
    }
  }

  lemma {:induction false} LessTransitive(a: string, b: string, c: string)
    ensures Less(a, b) && Less(b, c) ==> Less(a, c)
    ensures Less(a, b) || Less(b, a) || a == b
  {
    LessIrreflexive(a);
    if a != "" && b != "" {
      LessTransitive(a[1..], b[1..], if c != "" then c[1..] else c);
      assert a == [a[0]] + a[1..] && b == [b[0]] + b[1..];
    }
  }

  lemma RisingIsSorted(dates: seq<string>)
    requires Rising(dates)
    ensures Sorted(dates, DateOrder())
  {
    forall i, j | 0 <= i < j < |dates| ensures !Less(dates[j], dates[i]) {
      LessTransitive(dates[i], dates[j], dates[i]);
      LessIrreflexive(dates[i]);
    }
    hide Less;
  }

  lemma SortedInit(dates: seq<string>)
    requires Sorted(dates, DateOrder()) && dates != []
    ensures var init, d := dates[..|dates| - 1], dates[|dates| - 1];
            Sorted(init, DateOrder()) && forall x :: x in init && x != d ==> Less(x, d)
  {
    var init, d := dates[..|dates| - 1], dates[|dates| - 1];
    forall x | x in init && x != d ensures Less(x, d) {
      var i :| 0 <= i < |init| && init[i] == x;
      assert DateOrder()(dates[i], d);
      LessTransitive(x, d, d);
    }
    hide Less;
  }

  /** Pushing dates in order appends rising dates. */
  lemma {:induction false} PushedRises(candidates: seq<string>, dates: seq<string>) returns (more: seq<string>)
    requires Sorted(dates, DateOrder())
    ensures PushAll(candidates, dates) == candidates + more && Rising(more) && forall d :: d in more ==> d in dates
  {
    if dates == [] {
      more := [];
    } else {
      var init, d := dates[..|dates| - 1], dates[|dates| - 1];
      SortedInit(dates);
      more := PushedRises(candidates, init);
      assert dates == init + [d];
      hide Less, Rising, IsValidDateString, DateOrder;
      if IsValidDateString(d) && d !in candidates + more {
        RisingEnd(more, d);
        assert candidates + more + [d] == candidates + (more + [d]);
        more := more + [d];
      }
    }
  }

  lemma DateOrderIsPreorder()
    ensures Preorder(DateOrder())
  {
    forall a, b, c ensures Less(a, b) && Less(b, c) ==> Less(a, c) { LessTransitive(a, b, c); }
    forall a, b ensures Less(a, b) || Less(b, a) || a == b { LessTransitive(a, b, b); }
    forall a ensures !Less(a, a) { LessIrreflexive(a); }
    hide Less;
  }

  lemma WindowRises(q: Request)
    requires Usable(q)
    ensures Rising(WindowDates(q.today, q.policyDays))
  {
    var dates := WindowDates(q.today, q.policyDays);
    hide *;
    UsableIsValid(q);
    TodayIsRegular(q);
    forall i, j | 0 <= i < j < |dates| ensures Less(dates[i], dates[j]) {
      WindowAt(q.today, q.policyDays, i);
      WindowAt(q.today, q.policyDays, j);
      DayStringIsRegular(UtcDay(q.today) - (q.policyDays - 1 - i));
      DayStringIsRegular(UtcDay(q.today) - (q.policyDays - 1 - j));
      OrderOfDays(dates[i], dates[j]);
    }
    RisingMeans(dates);
  }

  lemma WindowAt(today: string, policyDays: int, i: nat)
    requires i < |WindowDates(today, policyDays)|
    ensures i < policyDays - 2 && WindowDates(today, policyDays)[i] == DayString(UtcDay(today) - (policyDays - 1 - i))
  {
    hide DayString, UtcDay;
  }

  lemma RisingMeans(dates: seq<string>)
    requires forall i, j :: 0 <= i < j < |dates| ==> Less(dates[i], dates[j])
    ensures Rising(dates)
  {
    hide Less;
  }

  lemma ScanRises(q: Request)
    requires Usable(q) && (Earliest(q).Some? ==> Regular(Earliest(q).value))
    ensures Rising(GapDates(q))
  {
    hide *;
    if Earliest(q).None? {
      NoScan(q);
    } else {
      var first, last := Earliest(q).value, OlderEnd(q);
      BeforeTheEnd(q);
      RegularDay(first);
      GapDatesAre(q, first);
      var n := UtcDay(last) - UtcDay(first) + 1;
      var dates := GapPrefix(first, if n > 0 then n else 0);
      forall i, j | 0 <= i < j < |dates| ensures Less(dates[i], dates[j]) {
        PrefixAt(first, if n > 0 then n else 0, i);
        PrefixAt(first, if n > 0 then n else 0, j);
        NthIs(first, last, i);
        NthIs(first, last, j);
        DayStringIsRegular(UtcDay(first) + i);
        DayStringIsRegular(UtcDay(first) + j);
        OrderOfDays(dates[i], dates[j]);
      }
      RisingMeans(dates);
    }
  }

  lemma NoScan(q: Request)
    requires Earliest(q).None?
    ensures Rising(GapDates(q))
  {
    hide Earliest, OlderEnd, Less;
  }

  lemma PrefixAt(first: string, n: nat, i: nat)
    requires i < |GapPrefix(first, n)|
    ensures i < n && GapPrefix(first, n)[i] == Nth(first, i)
  {
    hide Nth;
  }

  /**
   The order of the candidates: today and yesterday, then the uncovered dates of the window, those of the scan, and
   older work, each of the three oldest first.
   */
  lemma OldestFirst(q: Request) returns (window: seq<string>, scan: seq<string>, older: seq<string>)
    requires Usable(q) && (Earliest(q).Some? ==> Regular(Earliest(q).value))
    ensures Candidates(q) == [q.today, DayString(UtcDay(q.today) - 1)] + window + scan + older
    ensures Rising(window) && Rising(scan) && Rising(older)
    ensures forall d :: d in window ==> d in WindowDates(q.today, q.policyDays) && d !in q.archive
    ensures forall d :: d in scan ==> d in GapDates(q) && d !in q.archive
    ensures forall d :: d in older ==> Waits(q, d)
  {
    hide *;
    CandidatesAre(q);
    RecentAre(q);
    var recent := [q.today, DayString(UtcDay(q.today) - 1)];
    var missingWindow, missingGaps := Missing(WindowDates(q.today, q.policyDays), q.archive),
        Missing(GapDates(q), q.archive);
    WindowRises(q);
    ScanRises(q);
    MissingRises(WindowDates(q.today, q.policyDays), q.archive);
    MissingRises(GapDates(q), q.archive);
    MissingMembers(WindowDates(q.today, q.policyDays), q.archive);
    MissingMembers(GapDates(q), q.archive);
    RisingIsSorted(missingWindow);
    RisingIsSorted(missingGaps);
    window := PushedRises(recent, missingWindow);
    scan := PushedRises(recent + window, missingGaps);
    var gaps := recent + window + scan;
    var work := OlderWork(q, gaps, q.unfinished, q.failed);
    DateOrderIsPreorder();
    SortSorted(work, DateOrder());
    SortMembers(work, DateOrder());
    OlderWorkMembers(q, gaps, q.unfinished, q.failed);
    WaitsIs(q);
    older := PushedRises(gaps, Sort(work, DateOrder()));
  }
}
