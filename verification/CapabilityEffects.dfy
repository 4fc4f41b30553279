/** What a recorded event means for later attempts, said of the attempts and the reasons given for holding them back. */
module CapabilityEffects {
  import opened Options
  import opened Capabilities
  import Calendar

  /** A date is recent from six days before today on; days last 86400000 milliseconds. */
  lemma RecentMeans(date: string, now: int)
    ensures IsRecent(date, now) <==>
            Calendar.IsValidDateString(date) && now < (Calendar.DayNumber(Calendar.Parts(date)) + 7) * 86400000
  {
    var day := now / 86400000;
    assert 86400000 * day <= now < 86400000 * (day + 1);
    hide Calendar.IsValidDateString, Calendar.DayNumber, Calendar.Parts;
  }

  ghost function FreshAfter(events: seq<Event>): State {
    History(FRESH, events)
  }

  lemma OneMore(events: seq<Event>, e: Event)
    ensures FreshAfter(events + [e]) == Step(FreshAfter(events), e)
  {
    assert (events + [e])[..|events|] == events;
    hide Step;
  }

  lemma HasRecord(events: seq<Event>, c: Capability)
    ensures c in FreshAfter(events).records
  {
    FreshIsSound();
    HistoryIsSound(FRESH, events);
    hide History, Step;
  }

  /** A success opens the endpoint for its date and for every date without a restriction of its own, at all times. */
  lemma AfterSuccess(events: seq<Event>, c: Capability, date: Option<string>, asked: Option<string>, t: int)
    requires asked == date || asked.None? || !HasDateRule(FreshAfter(events), c, asked)
    ensures var s := FreshAfter(events + [Success(c, date)]);
            ShouldAttempt(s, c, asked, t) && HoldReason(s, c, asked, t).None?
  {
    OneMore(events, Success(c, date));
    HasRecord(events, c);
    hide FreshAfter;
  }

  ghost predicate Named(date: Option<string>) {
    date.Some? && date.value != ""
  }

  /** A 402 or 403 holds its own date back for the interval, under its status code. */
  lemma AfterRestriction(events: seq<Event>, c: Capability, code: int, date: Option<string>, now: int,
                         interval: int, t: int)
    requires Named(date)
    ensures var s := FreshAfter(events + [Restrict(c, code, date, now, interval)]);
            HeldBy(s, c, date, t, now + interval, DateHold(code, now + interval))
  {
    OneMore(events, Restrict(c, code, date, now, interval));
    hide FreshAfter, IsRecent;
  }

  /**
   It speaks for every date without a restriction of its own if it came for a recent date or for none; otherwise
   the others are decided as before.
   */
  lemma RestrictionSpreads(events: seq<Event>, c: Capability, code: int, date: Option<string>, now: int, interval: int,
                           asked: Option<string>, t: int)
    requires code == 402 || code == 403
    requires asked.None? || (asked != date && !HasDateRule(FreshAfter(events), c, asked))
    ensures var before, s := FreshAfter(events), FreshAfter(events + [Restrict(c, code, date, now, interval)]);
            if Named(date) && !IsRecent(date.value, now) then SameAnswers(s, before, c, asked, t)
            else HeldBy(s, c, asked, t, now + interval, GlobalHold(code, Some(now + interval)))
  {
    hide *;
    OneMore(events, Restrict(c, code, date, now, interval));
    HasRecord(events, c);
    RestrictedView(FreshAfter(events), c, code, date, now, interval, asked, t);
  }

  ghost predicate SameAnswers(s: State, s': State, c: Capability, asked: Option<string>, t: int) {
    ShouldAttempt(s, c, asked, t) == ShouldAttempt(s', c, asked, t)
        && HoldReason(s, c, asked, t) == HoldReason(s', c, asked, t)
  }

  /** Attempts wait for the time, and until then that is the reason given. */
  ghost predicate HeldBy(s: State, c: Capability, asked: Option<string>, t: int, until: int, why: Hold) {
    (ShouldAttempt(s, c, asked, t) <==> t >= until) && (t < until ==> HoldReason(s, c, asked, t) == Some(why))
  }

  lemma RestrictedView(s: State, c: Capability, code: int, date: Option<string>, now: int, interval: int,
                       asked: Option<string>, t: int)
    requires (code == 402 || code == 403) && c in s.records
    requires asked.None? || (asked != date && !HasDateRule(s, c, asked))
    ensures var s' := Step(s, Restrict(c, code, date, now, interval));
            if Named(date) && !IsRecent(date.value, now) then SameAnswers(s', s, c, asked, t)
            else HeldBy(s', c, asked, t, now + interval, GlobalHold(code, Some(now + interval)))
  {
    var s' := Step(s, Restrict(c, code, date, now, interval));
    assert !HasDateRule(s', c, asked) && !HasDateRule(s, c, asked);
    assert !Blocked(s', c, asked, t) && !Blocked(s, c, asked, t);
    hide HasDateRule, Blocked;
    assert "HTTP_402"[7] != "HTTP_403"[7] && "HTTP_402"[0] != "RETRY_AFTER"[0] && "HTTP_403"[0] != "RETRY_AFTER"[0];
    hide IsRecent;
  }

  /** A deferral and an error hold every date without a restriction of its own back until their time. */
  lemma AfterFailure(events: seq<Event>, c: Capability, retryAt: int, now: int, interval: int,
                     asked: Option<string>, t: int)
    requires asked.None? || !HasDateRule(FreshAfter(events), c, asked)
    ensures var s := FreshAfter(events + [Defer(c, retryAt)]);
            HeldBy(s, c, asked, t, retryAt, ThrottleHold(retryAt))
    ensures var s := FreshAfter(events + [Fail(c, now, interval)]);
            HeldBy(s, c, asked, t, now + interval, ErrorHold(now + interval))
  {
    OneMore(events, Defer(c, retryAt));
    OneMore(events, Fail(c, now, interval));
    HasRecord(events, c);
    hide FreshAfter;
  }

  /** Events of one endpoint decide nothing about another. */
  lemma OthersStay(events: seq<Event>, e: Event, c: Capability, asked: Option<string>, t: int)
    requires c != e.cap
    ensures SameAnswers(FreshAfter(events + [e]), FreshAfter(events), c, asked, t)
  {
    hide *;
    OneMore(events, e);
    StepIsLocal(FreshAfter(events), e, c, asked, t);
  }

  /** The same record and the same restriction of the date. */
  ghost predicate SameFacts(s: State, s': State, c: Capability, asked: Option<string>) {
    && (c in s.records <==> c in s'.records) && (c in s.records && c in s'.records ==> s.records[c] == s'.records[c])
    && (HasDateRule(s, c, asked) <==> HasDateRule(s', c, asked))
    && (HasDateRule(s, c, asked) && HasDateRule(s', c, asked) ==>
       s.dates[(asked.value, c)] == s'.dates[(asked.value, c)])
  }

  lemma StepIsLocal(s: State, e: Event, c: Capability, asked: Option<string>, t: int)
    requires c != e.cap
    ensures SameAnswers(Step(s, e), s, c, asked, t)
  {
    FactsStay(s, e, c, asked);
    FactsDecide(Step(s, e), s, c, asked, t);
    hide *;
  }

  lemma FactsStay(s: State, e: Event, c: Capability, asked: Option<string>)
    requires c != e.cap
    ensures SameFacts(Step(s, e), s, c, asked)
  {
    RecordStays(s, e, c);
    if asked.Some? { DateStays(s, e, c, asked.value); }
    hide Step;
  }

  lemma RecordStays(s: State, e: Event, c: Capability)
    requires c != e.cap
    ensures c in s.records <==> c in Step(s, e).records
    ensures c in s.records ==> Step(s, e).records[c] == s.records[c]
  {
    hide IsRecent, HasDateRule;
  }

  lemma DateStays(s: State, e: Event, c: Capability, date: string)
    requires c != e.cap
    ensures (date, c) in s.dates <==> (date, c) in Step(s, e).dates
    ensures (date, c) in s.dates ==> Step(s, e).dates[(date, c)] == s.dates[(date, c)]
  {
    hide IsRecent, HasDateRule;
  }

  lemma FactsDecide(s: State, s': State, c: Capability, asked: Option<string>, t: int)
    requires SameFacts(s, s', c, asked)
    ensures SameAnswers(s, s', c, asked, t)
  {
    assert Blocked(s, c, asked, t) <==> Blocked(s', c, asked, t);
  }

  /** A restricted date waits for its own time, whatever else happens to the endpoint. */
  lemma RestrictedDatesStay(events: seq<Event>, e: Event, c: Capability, asked: Option<string>, t: int)
    requires HasDateRule(FreshAfter(events), c, asked) && (e.Defer? || e.Fail? || e.date != asked)
    ensures ShouldAttempt(FreshAfter(events + [e]), c, asked, t) == ShouldAttempt(FreshAfter(events), c, asked, t)
  {
    hide *;
    OneMore(events, e);
    StepKeepsDate(FreshAfter(events), e, c, asked, t);
  }

  lemma StepKeepsDate(s: State, e: Event, c: Capability, asked: Option<string>, t: int)
    requires HasDateRule(s, c, asked) && (e.Defer? || e.Fail? || e.date != asked)
    ensures ShouldAttempt(Step(s, e), c, asked, t) == ShouldAttempt(s, c, asked, t)
  {
    hide IsRecent;
    var s' := Step(s, e);
    assert HasDateRule(s', c, asked) && s.dates[(asked.value, c)] == s'.dates[(asked.value, c)];
    hide Step;
  }

  /** A probe is due exactly for what was never tried, and for what is held back once the time has come. */
  lemma ProbeMeans(events: seq<Event>, c: Capability, asked: Option<string>, t: int)
    ensures var s := FreshAfter(events);
            && (HasDateRule(s, c, asked) ==> (ShouldReprobe(s, c, asked, t) <==> ShouldAttempt(s, c, asked, t)))
            && (!HasDateRule(s, c, asked) ==>
                  (ShouldReprobe(s, c, asked, t) <==>
                   ShouldAttempt(s, c, asked, t) && s.records[c].status != Available))
  {
    HasRecord(events, c);
    hide FreshAfter;
  }

  /** Before any event every endpoint is attempted for every date. */
  lemma FreshAttempts(c: Capability, asked: Option<string>, t: int)
    ensures ShouldAttempt(FRESH, c, asked, t) && ShouldReprobe(FRESH, c, asked, t)
            && HoldReason(FRESH, c, asked, t).None?
  {
    FreshIsSound();
  }

  /** The hold says that it ends at the instant. */
  ghost predicate EndsAt(h: Hold, instant: int) {
    match h
    case DateHold(_, release) => release == instant
    case GlobalHold(_, until) => until == Some(instant)
    case ThrottleHold(release) => release == instant
    case ErrorHold(release) => release == instant
  }

  /** A refused attempt is told the instant from which on, and not before, the attempt is allowed. */
  lemma HeldUntil(events: seq<Event>, c: Capability, asked: Option<string>, now: int) returns (end: int)
    requires !ShouldAttempt(FreshAfter(events), c, asked, now)
    ensures var h := HoldReason(FreshAfter(events), c, asked, now);
            h.Some? && EndsAt(h.value, end) && now < end
    ensures forall t :: ShouldAttempt(FreshAfter(events), c, asked, t) <==> t >= end
  {
    FreshIsSound();
    HistoryIsSound(FRESH, events);
    hide History;
    var s := FreshAfter(events);
    end := if HasDateRule(s, c, asked) then s.dates[(asked.value, c)].next else s.records[c].next.value;
  }

  /** Without a record an endpoint is probed and not attempted, and no reason is given for that. */
  lemma UnknownEndpoint(s: State, c: Capability, asked: Option<string>, t: int)
    requires c !in s.records && !HasDateRule(s, c, asked)
    ensures ShouldReprobe(s, c, asked, t) && !ShouldAttempt(s, c, asked, t) && HoldReason(s, c, asked, t).None?
  {
  }

  /** An empty date is no date. */
  lemma EmptyDate(s: State, c: Capability, code: int, now: int, interval: int, t: int)
    ensures ShouldAttempt(s, c, Some(""), t) == ShouldAttempt(s, c, None, t)
    ensures ShouldReprobe(s, c, Some(""), t) == ShouldReprobe(s, c, None, t)
    ensures HoldReason(s, c, Some(""), t) == HoldReason(s, c, None, t)
    ensures Step(s, Success(c, Some(""))) == Step(s, Success(c, None))
    ensures Step(s, Restrict(c, code, Some(""), now, interval)) == Step(s, Restrict(c, code, None, now, interval))
  {
    hide IsRecent;
  }
}
