/**
 The archived days and what one reconciliation makes of them, as functions of the values involved.
 Project rows are never renamed or merged, so a project's name stands for its row id.
 */
module ArchiveModel {
  import opened Options
  import opened SliceTypes
  import opened Text
  import opened Orders
  import opened Rearrange
  import opened SummaryDay
  import Calendar

  // ---- What is archived for one date ----

  datatype Key = Key(project: string, entity: string, entityType: EntityType, kind: SliceKind)
  datatype SliceRow = SliceRow(id: nat, seconds: real, rootCount: Option<nat>, metrics: Metrics, version: nat)
  datatype Choice = WorkTime | PersonalTime
  datatype Allocation = Allocation(id: string, key: Key, choice: Choice, seconds: real, active: bool)
  datatype DailyTotal = DailyTotal(timezone: string, seconds: real, projectSum: real, metrics: Metrics)
  datatype Accepted = Accepted(version: nat, content: Day, evidenceMatches: bool)
  datatype Beat = Beat(id: string, hash: string)
  datatype Evidence = Evidence(version: nat, content: seq<Beat>, members: set<string>, matches: bool)
  datatype DayArchive = DayArchive(rows: map<Key, SliceRow>, total: Option<DailyTotal>, dimensions: seq<Row>,
                                   allocations: seq<Allocation>, accepted: Option<Accepted>,
                                   evidence: Option<Evidence>, downgraded: bool)

  /** Heartbeats are immutable observations shared by all dates: external id to canonical hash. */
  datatype State = State(days: map<string, DayArchive>, beats: map<string, string>, nextId: nat, generation: nat)

  const NOTHING_ARCHIVED := DayArchive(map[], None, [], [], None, None, false)

  function DayAt(s: State, date: string): DayArchive {
    if date in s.days then s.days[date] else NOTHING_ARCHIVED
  }

  // ---- What one call gets and returns ----

  datatype SummaryLayer = Complete(day: Day) | Restricted(code: string) | Failed(code: string) | Skipped
  datatype HeartbeatLayer =
    | Beats(beats: seq<Beat>, conflicts: nat)
    | BeatsRestricted(code: string)
    | BeatsFailed(code: string)
    | BeatsSkipped
  datatype Candidate = Candidate(date: string, generation: nat, timezone: string, summaries: SummaryLayer,
                                 heartbeats: HeartbeatLayer)
  datatype FailurePoint = NoFailure | AfterSlices | AfterAllocations | BeforeCommit
  /** The exact text in which a heartbeat arrived. */
  datatype RawBeat = RawBeat(id: string, hash: string, json: string)
  datatype CallOptions = CallOptions(expected: Option<nat>, cancelled: bool, pinned: Option<string>, today: string,
                                     failure: FailurePoint, rawBeats: seq<RawBeat>)

  datatype Disposition = Updated | Unchanged | Preserved | Rejected
  datatype DayStatus = DaySucceeded | DayPartial | DayFailed | DaySkipped
  datatype ReconcileCode =
    | MissingDate | MathematicalViolation | NegativeSlice | Overcount | RunCancelled | StaleGeneration | OtherTimezone
    | StaleVersion | Provisional | DetailDowngrade | ZeroAccepted | PayloadConflict | LayerCode(text: string)
  datatype Report = Report(disposition: Disposition, status: DayStatus, codes: seq<ReconcileCode>)
  datatype Outcome = Returned(report: Report) | Threw

  function CodeOr(code: string, default: string): ReconcileCode {
    LayerCode(if code == "" then default else code)
  }

  // ---- The guards ----

  /** Layer kinds and arithmetic, before the transaction starts. */
  function Refusal(c: Candidate): Option<Report> {
    if !Calendar.IsValidDateString(c.date) then Some(Report(Rejected, DayFailed, [MissingDate]))
    else match c.summaries
      case Restricted(code) => Some(Report(Preserved, DaySkipped, [CodeOr(code, "SUMMARIES_RESTRICTED")]))
      case Failed(code) => Some(Report(Rejected, DayFailed, [CodeOr(code, "SUMMARIES_FAILED")]))
      case Skipped => Some(Report(Preserved, DaySkipped, []))
      case Complete(day) => ArithmeticRefusal(day)
  }

  function RawKey(b: RawBeat): (string, string) {
    (b.id, b.hash)
  }

  /** One heartbeat arrived in two texts. */
  predicate RawConflict(raw: seq<RawBeat>) {
    exists i, j | 0 <= i < j < |raw| :: RawKey(raw[i]) == RawKey(raw[j]) && raw[i].json != raw[j].json
  }

  /** With a complete summary of a valid date, such texts are an exception, before its arithmetic is looked at. */
  predicate Aborts(c: Candidate, o: CallOptions) {
    Calendar.IsValidDateString(c.date) && c.summaries.Complete? && RawConflict(o.rawBeats)
  }

  predicate HasNegative(slices: seq<NormalizedSlice>) {
    exists i | 0 <= i < |slices| :: slices[i].seconds < 0.0
  }

  function ArithmeticRefusal(day: Day): Option<Report> {
    var delta := SumBy(day.slices, SLICE_SECONDS) - day.totalSeconds;
    if day.totalSeconds < -TOLERANCE then Some(Report(Rejected, DayFailed, [MathematicalViolation]))
    else if HasNegative(day.slices) then Some(Report(Rejected, DayFailed, [NegativeSlice, MathematicalViolation]))
    else if delta > TOLERANCE then Some(Report(Rejected, DayFailed, [Overcount, MathematicalViolation]))
    else if delta < -TOLERANCE then Some(Report(Rejected, DayFailed, [MathematicalViolation]))
    else None
  }

  function Version(d: DayArchive): nat {
    if d.accepted.Some? then d.accepted.value.version else 0
  }

  /** The checks at the start of the transaction. */
  function StaleCall(d: DayArchive, generation: nat, c: Candidate, o: CallOptions): Option<Report> {
    if o.cancelled then Some(Report(Preserved, DaySkipped, [RunCancelled]))
    else if c.generation != generation then Some(Report(Rejected, DayFailed, [StaleGeneration]))
    else if o.pinned.Some? && o.pinned.value != "" && c.timezone != o.pinned.value
    then Some(Report(Rejected, DayFailed, [OtherTimezone]))
    else if o.expected.Some? && Version(d) != o.expected.value then Some(Report(Rejected, DayFailed, [StaleVersion]))
    else None
  }

  function Today(c: Candidate, o: CallOptions): seq<ReconcileCode> {
    if c.date == o.today then [Provisional] else []
  }

  predicate SameContent(d: DayArchive, day: Day) {
    d.accepted.Some? && d.accepted.value.content == day
  }

  predicate VerifiedZeroDay(day: Day) {
    day.fidelity == VerifiedZero || day.isVerifiedZero
  }

  // ---- Loss of detail ----

  predicate HasSlice(day: Day, kind: SliceKind) {
    exists i | 0 <= i < |day.slices| :: day.slices[i].kind == kind
  }

  predicate HasProjectSlice(day: Day, project: string, kind: SliceKind) {
    exists i | 0 <= i < |day.slices| :: day.slices[i].projectName == project && day.slices[i].kind == kind
  }

  /** The names that every object inherits (ECMA-262, section 20.1.3): a lookup of one always finds something. */
  const INHERITED := {
    "constructor", "hasOwnProperty", "isPrototypeOf", "propertyIsEnumerable", "toLocaleString", "toString", "valueOf",
    "__proto__", "__defineGetter__", "__defineSetter__", "__lookupGetter__", "__lookupSetter__"
  }

  const PROTO := "__proto__"

  /** The fields of a scope record. */
  const SCOPE_FIELDS := {"projectName", "totalSeconds", "entityDetailState", "entityCount"}

  /**
   Storing the scope of a project named `__proto__` makes that record the prototype of the scopes, so its fields are
   found too; a zero among them counts as missing.
   */
  predicate FieldOfListed(day: Day, project: string) {
    && PROTO in day.scopes && project in SCOPE_FIELDS
    && (project == "totalSeconds" ==> day.scopes[PROTO].seconds != 0.0)
    && (project == "entityCount" ==> day.scopes[PROTO].entityCount != 0)
  }

  /** The summary does not list the project, yet the lookup of its scope finds something that is not a scope. */
  predicate FoundUnlisted(day: Day, project: string) {
    project !in day.scopes && (project in INHERITED || FieldOfListed(day, project))
  }

  /** The summary has no entities to offer for a project that is archived with entities. */
  predicate LosesProject(day: Day, project: string) {
    || (project !in day.scopes && !FoundUnlisted(day, project))
    || (project in day.scopes && day.scopes[project].state == Absent)
    || (HasProjectSlice(day, project, ProjectSummary) && !HasProjectSlice(day, project, EntitySlice))
  }

  predicate HadDetail(d: DayArchive) {
    exists k | k in d.rows.Keys :: k.kind == EntitySlice
  }

  predicate LosesDetail(d: DayArchive, day: Day) {
    || (d.accepted.Some? && d.accepted.value.content.fidelity == EntityDetail && day.fidelity == CoarseProject)
    || (HadDetail(d) && !HasSlice(day, EntitySlice) && !VerifiedZeroDay(day))
    || (d.rows != map[] && day.totalSeconds == 0.0 && !VerifiedZeroDay(day))
    || (!VerifiedZeroDay(day) && exists k | k in d.rows.Keys :: k.kind == EntitySlice && LosesProject(day, k.project))
  }

  // ---- Replacing the slices ----

  /**
   The project a slice is stored under; a nameless one goes to the unattributed project unless such a project was
   listed.
   */
  function Home(day: Day, s: NormalizedSlice): string {
    if s.isUnattributed then UNATTRIBUTED
    else if s.projectName == "" && !(exists i | 0 <= i < |day.projects| :: day.projects[i].name == "") then UNATTRIBUTED
    else s.projectName
  }

  function SliceRowKey(text: TextOps, day: Day, s: NormalizedSlice): Key {
    Key(Home(day, s), NormalizeEntity(text, s.entity, s.entityType), s.entityType, s.kind)
  }

  function RowsKeys(text: TextOps, day: Day): seq<Key> {
    seq(|day.slices|, i requires 0 <= i < |day.slices| => SliceRowKey(text, day, day.slices[i]))
  }

  function KeySet(ks: seq<Key>): set<Key> {
    set k | k in ks
  }

  datatype Work = Work(rows: map<Key, SliceRow>, nextId: nat)

  function Written(id: nat, s: NormalizedSlice, version: nat): SliceRow {
    SliceRow(id, s.seconds, s.rootCount, s.metrics, version)
  }

  /** Updates the row archived under the key, or inserts one; None when the insert meets a key inserted before. */
  function Upsert(archived: set<Key>, w: Work, k: Key, s: NormalizedSlice, version: nat): Option<Work> {
    if k in archived && k in w.rows then Some(w.(rows := w.rows[k := Written(w.rows[k].id, s, version)]))
    else if k in w.rows then None
    else Some(Work(w.rows[k := Written(w.nextId, s, version)], w.nextId + 1))
  }

  function UpsertAll(w: Work, keys: seq<Key>, slices: seq<NormalizedSlice>, version: nat): Option<Work> {
    if keys == [] || |keys| != |slices| then Some(w)
    else
      var before := UpsertAll(w, keys[..|keys| - 1], slices[..|slices| - 1], version);
      if before.None? then None else Upsert(w.rows.Keys, before.value, keys[|keys| - 1], slices[|slices| - 1], version)
  }

  // ---- Allocations ----

  /** The seconds of the first slice with the key. */
  function SecondsFor(keys: seq<Key>, slices: seq<NormalizedSlice>, k: Key): Option<real> {
    if keys == [] || |keys| != |slices| then None
    else if keys[0] == k then Some(slices[0].seconds)
    else SecondsFor(keys[1..], slices[1..], k)
  }

  function Overlaid(a: Allocation, seconds: Option<real>): Allocation {
    if seconds.None? then a.(active := false)
    else if !a.active || Abs(a.seconds - seconds.value) > TOLERANCE then a.(active := true, seconds := seconds.value)
    else a
  }

  /** The database refuses an active allocation whose seconds differ from its slice. */
  predicate RefusedByTrigger(rows: map<Key, SliceRow>, a: Allocation, seconds: Option<real>) {
    Overlaid(a, seconds) != a && seconds.Some?
        && !(a.key in rows && Abs(rows[a.key].seconds - seconds.value) <= TOLERANCE)
  }

  function OverlayAll(rows: map<Key, SliceRow>, allocations: seq<Allocation>, keys: seq<Key>,
                      slices: seq<NormalizedSlice>): Option<seq<Allocation>> {
    if exists i | 0 <= i < |allocations| ::
        RefusedByTrigger(rows, allocations[i], SecondsFor(keys, slices, allocations[i].key)) then None
    else Some(seq(|allocations|, i requires 0 <= i < |allocations| =>
        Overlaid(allocations[i], SecondsFor(keys, slices, allocations[i].key))))
  }

  function Retained(rows: map<Key, SliceRow>, keys: seq<Key>): map<Key, SliceRow> {
    map k | k in rows && k in keys :: rows[k]
  }

  // ---- Heartbeat evidence ----

  predicate Conflicted(stored: map<string, string>, h: HeartbeatLayer) {
    h.Beats? && (h.conflicts > 0 || exists i | 0 <= i < |h.beats| ::
        h.beats[i].id in stored && stored[h.beats[i].id] != h.beats[i].hash)
  }

  function Stored(stored: map<string, string>, beats: seq<Beat>): map<string, string> {
    if beats == [] then stored
    else
      var before, last := Stored(stored, beats[..|beats| - 1]), beats[|beats| - 1];
      if last.id in before then before else before[last.id := last.hash]
  }

  function Ids(beats: seq<Beat>): set<string> {
    set b | b in beats :: b.id
  }

  /** Accepting heartbeats; accepting the same content again keeps its version. */
  function AcceptedEvidence(e: Option<Evidence>, beats: seq<Beat>): Evidence {
    var version := if e.None? then 1 else if e.value.content == beats then e.value.version else e.value.version + 1;
    Evidence(version, beats, Ids(beats), true)
  }

  /** The evidence of a date is marked as not matching the summary. */
  function Demoted(e: Option<Evidence>): Option<Evidence> {
    if e.Some? then Some(e.value.(matches := false)) else None
  }

  function HeartbeatCodes(stored: map<string, string>, h: HeartbeatLayer): seq<ReconcileCode> {
    match h
    case Beats(_, _) => if Conflicted(stored, h) then [PayloadConflict] else []
    case BeatsRestricted(code) => [CodeOr(code, "HEARTBEATS_RESTRICTED")]
    case BeatsFailed(code) => [CodeOr(code, "HEARTBEATS_FAILED")]
    case BeatsSkipped => []
  }

  predicate EvidenceAccepted(stored: map<string, string>, h: HeartbeatLayer) {
    h.Beats? && !Conflicted(stored, h)
  }

  // ---- The three ways on from the guards ----

  function AfterUnchanged(s: State, c: Candidate, o: CallOptions, day: Day): (State, Outcome) {
    var d, h := DayAt(s, c.date), c.heartbeats;
    var known := EvidenceAccepted(s.beats, h) && d.evidence.Some? && d.evidence.value.content == h.beats;
    var evidence :=
      if known then Some(d.evidence.value.(matches := true))
      else if EvidenceAccepted(s.beats, h) then Some(AcceptedEvidence(d.evidence, h.beats))
      else d.evidence;
    var status :=
      if EvidenceAccepted(s.beats, h) || (h.BeatsSkipped? && VerifiedZeroDay(day)) then DaySucceeded else DayPartial;
    var accepted :=
      if d.accepted.Some? then Some(d.accepted.value.(evidenceMatches := status == DaySucceeded)) else None;
    (s.(days := s.days[c.date := d.(accepted := accepted, evidence := evidence, downgraded := false)],
        beats := if EvidenceAccepted(s.beats, h) && !known then Stored(s.beats, h.beats) else s.beats),
     Returned(Report(Unchanged, status, Today(c, o) + HeartbeatCodes(s.beats, h))))
  }

  function AfterDowngrade(s: State, c: Candidate, o: CallOptions): (State, Outcome) {
    (s.(days := s.days[c.date := DayAt(s, c.date).(downgraded := true)]),
     Returned(Report(Preserved, DayPartial, [DetailDowngrade] + Today(c, o))))
  }

  function EvidenceAfterUpdate(s: State, c: Candidate, day: Day): Option<Evidence> {
    var e, h := DayAt(s, c.date).evidence, c.heartbeats;
    if EvidenceAccepted(s.beats, h) then Some(AcceptedEvidence(e, h.beats))
    else if h.BeatsSkipped? && VerifiedZeroDay(day) then e
    else Demoted(e)
  }

  function UpdateReport(s: State, c: Candidate, o: CallOptions, day: Day): Report {
    var status := if VerifiedZeroDay(day) || EvidenceAccepted(s.beats, c.heartbeats) then DaySucceeded else DayPartial;
    Report(Updated, status,
           Today(c, o) + (if VerifiedZeroDay(day) then [ZeroAccepted] else []) + HeartbeatCodes(s.beats, c.heartbeats))
  }

  function TotalOf(day: Day): DailyTotal {
    DailyTotal(day.timezone, day.totalSeconds, day.projectSumSeconds, day.metrics)
  }

  // ---- Dimension totals ----

  /** The unique index of the dimension totals: neither the entity type nor the machine is part of it. */
  function DimensionKey(r: Row): (Option<string>, Dimension, string) {
    (r.projectName, r.dimension, r.name)
  }

  predicate KnownProject(day: Day, name: string) {
    || name == UNATTRIBUTED
    || (exists i | 0 <= i < |day.projects| :: day.projects[i].name == name)
    || (exists i | 0 <= i < |day.slices| :: day.slices[i].projectName == name)
  }

  /** A row of project scope needs the id of its project. */
  predicate HasProjectId(day: Day, r: Row) {
    r.projectName.Some? ==> r.projectName.value != "" && KnownProject(day, r.projectName.value)
  }

  /** The table takes the dimension rows of the day. */
  predicate DimensionsStorable(day: Day) {
    (forall i | 0 <= i < |day.rows| :: HasProjectId(day, day.rows[i])) && DistinctBy(day.rows, DimensionKey)
  }

  /** The rows and allocations of the date after the update, when nothing interrupts it. */
  function UpdatedRows(text: TextOps, s: State, c: Candidate, day: Day): Option<Work> {
    var d := DayAt(s, c.date);
    UpsertAll(Work(d.rows, s.nextId), RowsKeys(text, day), day.slices, Version(d) + 1)
  }

  function AfterUpdate(text: TextOps, s: State, c: Candidate, o: CallOptions, day: Day): (State, Outcome) {
    var d, keys, w := DayAt(s, c.date), RowsKeys(text, day), UpdatedRows(text, s, c, day);
    if w.None? || o.failure != NoFailure || !DimensionsStorable(day) then (s, Threw)
    else
      var allocations := OverlayAll(w.value.rows, d.allocations, keys, day.slices);
      if allocations.None? then (s, Threw)
      else
        var matches := EvidenceAccepted(s.beats, c.heartbeats);
        var after := DayArchive(Retained(w.value.rows, keys), Some(TotalOf(day)), day.rows, allocations.value,
                                Some(Accepted(Version(d) + 1, day, VerifiedZeroDay(day) || matches)),
                                EvidenceAfterUpdate(s, c, day), false);
        var beats := if matches then Stored(s.beats, c.heartbeats.beats) else s.beats;
        (State(s.days[c.date := after], beats, w.value.nextId, s.generation),
         Returned(UpdateReport(s, c, o, day)))
  }

  /** One whole call. */
  function After(text: TextOps, s: State, c: Candidate, o: CallOptions): (State, Outcome) {
    var d := DayAt(s, c.date);
    if Aborts(c, o) then (s, Threw)
    else if Refusal(c).Some? then (s, Returned(Refusal(c).value))
    else if StaleCall(d, s.generation, c, o).Some? then (s, Returned(StaleCall(d, s.generation, c, o).value))
    else match c.summaries
      case Complete(day) =>
        if SameContent(d, day) then AfterUnchanged(s, c, o, day)
        else if LosesDetail(d, day) then AfterDowngrade(s, c, o)
        else AfterUpdate(text, s, c, o, day)
      case _ => (s, Threw)
  }
}
