/**
 The capability policy: which endpoint is attempted for which date, and why one is held back. Instants are epoch
 milliseconds.
 */
module Capabilities {
  import opened Options
  import Calendar

  datatype Capability = Summaries | Durations | Heartbeats
  datatype Status = Untested | Available | Restricted | Throttled | Errored
  datatype Record = Record(status: Status, next: Option<int>, code: string)
  datatype Restriction = Restriction(statusCode: int, next: int)
  datatype State = State(records: map<Capability, Record>, dates: map<(string, Capability), Restriction>)
  datatype Hold = DateHold(statusCode: int, release: int) | GlobalHold(statusCode: int, until: Option<int>)
                | ThrottleHold(release: int) | ErrorHold(release: int)

  const WINDOW_DAYS := 7
  const DAY_MS := 86400000

  /** isDateWithinFreeWindow with the default window; there is no upper end. */
  predicate IsRecent(date: string, now: int) {
    Calendar.IsValidDateString(date) && Calendar.DayNumber(Calendar.Parts(date)) >= now / DAY_MS - (WINDOW_DAYS - 1)
  }

  predicate Blocked(s: State, c: Capability, date: Option<string>, now: int) {
    date.Some? && date.value != "" && (date.value, c) in s.dates && now < s.dates[(date.value, c)].next
  }

  predicate HasDateRule(s: State, c: Capability, date: Option<string>) {
    date.Some? && date.value != "" && (date.value, c) in s.dates
  }

  predicate ShouldReprobe(s: State, c: Capability, date: Option<string>, now: int) {
    if HasDateRule(s, c, date) then now >= s.dates[(date.value, c)].next
    else if c !in s.records then true
    else match s.records[c].status
      case Untested => true
      case Available => false
      case _ => s.records[c].next.None? || now >= s.records[c].next.value
  }

  predicate ShouldAttempt(s: State, c: Capability, date: Option<string>, now: int) {
    if HasDateRule(s, c, date) then ShouldReprobe(s, c, date, now)
    else if c !in s.records then false
    else match s.records[c].status
      case Untested => true
      case Available => true
      case _ => ShouldReprobe(s, c, None, now)
  }

  function HoldReason(s: State, c: Capability, date: Option<string>, now: int): Option<Hold> {
    if Blocked(s, c, date, now) then Some(DateHold(s.dates[(date.value, c)].statusCode, s.dates[(date.value, c)].next))
    else if c !in s.records then None
    else
      var r := s.records[c];
      var waiting := r.next.Some? && now < r.next.value;
      if r.status == Restricted && (r.next.None? || waiting)
          then Some(GlobalHold(if r.code == "HTTP_402" then 402 else 403, r.next))
      else if (r.status == Throttled || r.code == "RETRY_AFTER") && waiting then Some(ThrottleHold(r.next.value))
      else if r.status == Errored && waiting then Some(ErrorHold(r.next.value))
      else None
  }

  predicate ReleasesAfter(h: Hold, now: int) {
    match h
    case DateHold(_, release) => now < release
    case GlobalHold(_, until) => until.Some? && now < until.value
    case ThrottleHold(release) => now < release
    case ErrorHold(release) => now < release
  }

  // ---- The recorded events ----

  datatype Event =
    | Success(cap: Capability, date: Option<string>)
    | Restrict(cap: Capability, statusCode: int, date: Option<string>, now: int, interval: int)
    | Defer(cap: Capability, retryAt: int)
    | Fail(cap: Capability, now: int, interval: int)

  function Put(s: State, c: Capability, r: Record): State {
    if c in s.records then s.(records := s.records[c := r]) else s
  }

  function Step(s: State, e: Event): State {
    match e
    case Success(c, date) =>
      var cleared := if HasDateRule(s, c, date) then s.(dates := s.dates - {(date.value, c)}) else s;
      Put(cleared, c, Record(Available, None, ""))
    case Restrict(c, code, date, now, interval) =>
      var dated := if date.Some? && date.value != ""
          then s.(dates := s.dates[(date.value, c) := Restriction(code, now + interval)]) else s;
      if date.Some? && date.value != "" && !IsRecent(date.value, now) then dated
      else Put(dated, c, Record(Restricted, Some(now + interval), if code == 402 then "HTTP_402" else "HTTP_403"))
    case Defer(c, retryAt) => Put(s, c, Record(Throttled, Some(retryAt), "RETRY_AFTER"))
    case Fail(c, now, interval) => Put(s, c, Record(Errored, Some(now + interval), ""))
  }

  function History(s: State, events: seq<Event>): State {
    if events == [] then s else Step(History(s, events[..|events| - 1]), events[|events| - 1])
  }

  const FRESH := State(map[Summaries := Record(Untested, None, ""), Durations := Record(Untested, None, ""),
      Heartbeats := Record(Untested, None, "")], map[])

  class CapabilityPolicy {
    var records: map<Capability, Record>
    var dates: map<(string, Capability), Restriction>
    const reprobeInterval: int
    const retryInterval: int

    ghost function Contents(): State
      reads this
    {
      State(records, dates)
    }

    constructor (reprobeInterval: int, retryInterval: int)
      ensures Contents() == FRESH && this.reprobeInterval == reprobeInterval && this.retryInterval == retryInterval
    {
      this.reprobeInterval, this.retryInterval := reprobeInterval, retryInterval;
      records := map[Summaries := Record(Untested, None, ""), Durations := Record(Untested, None, ""),
          Heartbeats := Record(Untested, None, "")];
      dates := map[];
    }

    method RecordSuccess(c: Capability, date: Option<string>)
      modifies this
      ensures Contents() == Step(old(Contents()), Success(c, date))
    {
      if date.Some? && date.value != "" { dates := dates - {(date.value, c)}; }
      if c in records { records := records[c := Record(Available, None, "")]; }
    }

    method RecordRestriction(c: Capability, statusCode: int, date: Option<string>, now: int, interval: Option<int>)
      requires statusCode == 402 || statusCode == 403
      modifies this
      ensures Contents() == Step(old(Contents()), Restrict(c, statusCode, date, now, Or(interval, reprobeInterval)))
    {
      hide IsRecent;
      var next := now + Or(interval, reprobeInterval);
      if date.Some? && date.value != "" {
        dates := dates[(date.value, c) := Restriction(statusCode, next)];
        if !IsRecent(date.value, now) { return; }
      }
      if c in records {
        records := records[c := Record(Restricted, Some(next), if statusCode == 402 then "HTTP_402" else "HTTP_403")];
      }
    }

    method RecordDeferredRetry(c: Capability, retryAt: int)
      modifies this
      ensures Contents() == Step(old(Contents()), Defer(c, retryAt))
    {
      if c in records { records := records[c := Record(Throttled, Some(retryAt), "RETRY_AFTER")]; }
    }

    /** An error that carries a retry time is a deferral. */
    method RecordError(c: Capability, retryAt: Option<int>, now: int, interval: Option<int>)
      modifies this
      ensures Contents() == Step(old(Contents()), if retryAt.Some? then Defer(c, retryAt.value)
              else Fail(c, now, Or(interval, retryInterval)))
    {
      if retryAt.Some? {
        RecordDeferredRetry(c, retryAt.value);
      } else if c in records {
        records := records[c := Record(Errored, Some(now + Or(interval, retryInterval)), "")];
      }
    }
  }

  // ---- Properties ----

  /** Every capability has a record; only failures carry a retry code, and a restriction knows its end. */
  ghost predicate Sound(s: State) {
    forall c: Capability :: c in s.records
                            && (s.records[c].code == "RETRY_AFTER" ==> s.records[c].status == Throttled)
                            && (s.records[c].status == Restricted ==> s.records[c].next.Some?)
  }

  lemma StepIsSound(s: State, e: Event)
    requires Sound(s)
    ensures Sound(Step(s, e))
  {
    assert "HTTP_402"[0] != "RETRY_AFTER"[0] && "HTTP_403"[0] != "RETRY_AFTER"[0];
    hide IsRecent, HasDateRule;
    match e
    case Success(_, _) =>
    case Restrict(_, _, _, _, _) =>
    case Defer(_, _) =>
    case Fail(_, _, _) =>
  }

  lemma {:induction false} HistoryIsSound(s: State, events: seq<Event>)
    requires Sound(s)
    ensures Sound(History(s, events))
  {
    hide Sound, Step;
    if events != [] {
      HistoryIsSound(s, events[..|events| - 1]);
      StepIsSound(History(s, events[..|events| - 1]), events[|events| - 1]);
    }
  }

  /**
   In every reachable state a refused attempt has a hold reason that releases strictly later, and a hold reason means
   a refusal, except that an expired date restriction overrides a global hold.
   */
  lemma RefusedIffHeld(events: seq<Event>, c: Capability, date: Option<string>, now: int)
    ensures var s := History(FRESH, events);
            && (!ShouldAttempt(s, c, date, now) ==>
               HoldReason(s, c, date, now).Some? && ReleasesAfter(HoldReason(s, c, date, now).value, now))
            && (HoldReason(s, c, date, now).Some? ==>
               (ShouldAttempt(s, c, date, now) <==> HasDateRule(s, c, date) && !Blocked(s, c, date, now)))
  {
    FreshIsSound();
    HistoryIsSound(FRESH, events);
    hide History;
  }

  lemma FreshIsSound()
    ensures Sound(FRESH)
  {
    forall c: Capability ensures c in FRESH.records && FRESH.records[c] == Record(Untested, None, "") {
      match c
      case Summaries =>
      case Durations =>
      case Heartbeats =>
    }
  }

  /** A 402 or 403 on another date that is too old to speak for the endpoint. */
  predicate Irrelevant(e: Event, date: string) {
    e.Restrict? && e.date.Some? && e.date.value != "" && e.date.value != date && !IsRecent(e.date.value, e.now)
  }

  function Erased(events: seq<Event>, date: string): seq<Event> {
    if events == [] then []
    else Erased(events[..|events| - 1], date) + if Irrelevant(events[|events| - 1], date) then []
        else [events[|events| - 1]]
  }

  /** What decides about a date: the records, and the restrictions of that date. */
  ghost predicate SameView(a: State, b: State, date: string) {
    && a.records == b.records
    && forall c: Capability ::
       ((date, c) in a.dates <==> (date, c) in b.dates)
       && ((date, c) in a.dates && (date, c) in b.dates ==> a.dates[(date, c)] == b.dates[(date, c)])
  }

  lemma StepKeepsView(a: State, b: State, e: Event, date: string)
    requires SameView(a, b, date)
    ensures if Irrelevant(e, date) then SameView(Step(a, e), b, date) else SameView(Step(a, e), Step(b, e), date)
  {
    hide IsRecent;
    match e
    case Success(_, _) =>
    case Restrict(_, _, _, _, _) =>
    case Defer(_, _) =>
    case Fail(_, _, _) =>
  }

  lemma {:induction false} ErasedKeepsView(s: State, events: seq<Event>, date: string)
    ensures SameView(History(s, events), History(s, Erased(events, date)), date)
  {
    if events != [] {
      var n := |events| - 1;
      var rest := Erased(events[..n], date);
      ErasedKeepsView(s, events[..n], date);
      StepKeepsView(History(s, events[..n]), History(s, rest), events[n], date);
      assert (rest + [events[n]])[..|rest|] == rest && rest + [] == rest;
      hide Step, Irrelevant, SameView;
    }
  }

  /** Old restrictions of other dates never change a decision about a date. */
  lemma OldRestrictionsDoNotSpread(events: seq<Event>, c: Capability, date: string, now: int)
    ensures ShouldAttempt(History(FRESH, events), c, Some(date), now)
            <==> ShouldAttempt(History(FRESH, Erased(events, date)), c, Some(date), now)
    ensures HoldReason(History(FRESH, events), c, Some(date), now)
            == HoldReason(History(FRESH, Erased(events, date)), c, Some(date), now)
  {
    ErasedKeepsView(FRESH, events, date);
    hide History, Erased;
  }
}
