/**
 A day of the summaries layer: as it arrives, as it is normalised, and the
 declarative conditions under which it is accepted.
 */
module SummaryDay {
  import opened Options
  import opened SliceTypes
  import opened Text
  import opened Orders
  import opened Rearrange
  import opened Locales

  const TOLERANCE := 0.001

  datatype Metrics = Metrics(humanAdditions: nat, humanDeletions: nat, aiAdditions: nat, aiDeletions: nat,
                             aiSessions: nat)

  const NO_METRICS := Metrics(0, 0, 0, 0, 0)

  datatype Dimension =
    | ProjectTotals | Branch | Category | Dependency | EditorUse | Language | MachineUse | OperatingSystem
  type RowDimension = d: Dimension | d != ProjectTotals witness Branch

  function DimensionName(d: Dimension): string {
    match d
    case ProjectTotals => "project"
    case Branch => "branch"
    case Category => "category"
    case Dependency => "dependency"
    case EditorUse => "editor"
    case Language => "language"
    case MachineUse => "machine"
    case OperatingSystem => "operating_system"
  }

  // ---- The day as it arrives, with its fields already typed ----

  datatype RawEntity = RawEntity(name: string, entityType: EntityType, seconds: real, percent: Option<real>,
                                 rootCount: Option<nat>, metrics: Metrics)
  datatype RawRow = RawRow(dimension: RowDimension, name: string, seconds: real, percent: Option<real>,
                           entityType: Option<EntityType>, machine: Option<string>, rawJson: string)
  datatype RawProject = RawProject(name: string, seconds: real, percent: real, entities: Option<seq<RawEntity>>,
                                   rows: seq<RawRow>)
  datatype RawDay = RawDay(total: real, timezone: Option<string>, projects: seq<RawProject>, rows: seq<RawRow>,
                           metrics: Metrics)

  // ---- The normalised day ----

  datatype NormalizedSlice = NormalizedSlice(projectName: string, entity: string, entityType: EntityType,
                                             seconds: real, kind: SliceKind,
                           isUnattributed: bool, rootCount: Option<nat>, metrics: Metrics)
  datatype DetailState = Present | Empty | Absent
  datatype Scope = Scope(seconds: real, state: DetailState, entityCount: nat)
  datatype Project = Project(name: string, seconds: real, percent: real, state: DetailState, entities: seq<RawEntity>)
  datatype Row = Row(projectName: Option<string>, dimension: Dimension, name: string, entityType: Option<EntityType>,
                     machine: Option<string>, seconds: real, percent: Option<real>, rawJson: string)
  datatype Fidelity = EntityDetail | CoarseProject | VerifiedZero
  datatype Overall = CompleteDetail | CoarseOnly | Mixed | EmptyDay
  datatype Day = Day(date: string, timezone: string, totalSeconds: real, projectSumSeconds: real, fidelity: Fidelity,
                     isVerifiedZero: bool, overall: Overall, scopes: map<string, Scope>, metrics: Metrics,
                     projects: seq<Project>, rows: seq<Row>, slices: seq<NormalizedSlice>)

  datatype Code =
    | MissingRequestedDate | NegativeResidual | TimezoneMismatch | IncompleteBody | MathematicalInvariantViolation
    | OvercountToleranceExceeded

  // ---- Projects and their entities ----

  function NormalizedEntity(text: TextOps, e: RawEntity): RawEntity {
    e.(name := NormalizeEntity(text, e.name, e.entityType))
  }

  function NormalizedEntities(text: TextOps, es: seq<RawEntity>): seq<RawEntity> {
    seq(|es|, i requires 0 <= i < |es| => NormalizedEntity(text, es[i]))
  }

  function StateOf(p: RawProject): DetailState {
    if p.entities.None? then Absent else if p.entities.value == [] then Empty else Present
  }

  function NormalizedProject(text: TextOps, p: RawProject): Project {
    Project(p.name, p.seconds, p.percent, StateOf(p), if p.entities.Some?
        then NormalizedEntities(text, p.entities.value) else [])
  }

  function NormalizedProjects(text: TextOps, ps: seq<RawProject>): seq<Project> {
    seq(|ps|, i requires 0 <= i < |ps| => NormalizedProject(text, ps[i]))
  }

  const ENTITY_SECONDS: RawEntity -> real := (e: RawEntity) => e.seconds
  const PROJECT_SECONDS: Project -> real := (p: Project) => p.seconds
  const SLICE_SECONDS: NormalizedSlice -> real := (s: NormalizedSlice) => s.seconds

  function EntitySum(p: Project): real {
    SumBy(p.entities, ENTITY_SECONDS)
  }

  function ProjectSum(ps: seq<Project>): real {
    SumBy(ps, PROJECT_SECONDS)
  }

  // ---- Fidelity ----

  predicate IsZeroDay(total: real, ps: seq<Project>) {
    total == 0.0 && forall i | 0 <= i < |ps| :: ps[i].seconds == 0.0 && ps[i].state == Empty
  }

  predicate HasDetail(ps: seq<Project>) {
    exists i | 0 <= i < |ps| :: ps[i].state == Present
  }

  predicate HasCoarse(ps: seq<Project>) {
    exists i | 0 <= i < |ps| :: ps[i].state == Absent || (ps[i].state == Empty && ps[i].seconds > 0.0)
  }

  function FidelityOf(total: real, ps: seq<Project>): Fidelity {
    if IsZeroDay(total, ps) then VerifiedZero else if HasDetail(ps) then EntityDetail else CoarseProject
  }

  function OverallOf(total: real, ps: seq<Project>): Overall {
    if IsZeroDay(total, ps) then EmptyDay else if !HasDetail(ps) then CoarseOnly else if HasCoarse(ps) then Mixed
        else CompleteDetail
  }

  // ---- Slices ----

  function EntitySliceOf(project: string, e: RawEntity): NormalizedSlice {
    NormalizedSlice(project, e.name, e.entityType, e.seconds, EntitySlice, false, e.rootCount, e.metrics)
  }

  function SummarySlice(project: string, seconds: real): NormalizedSlice {
    NormalizedSlice(project, project, App, seconds, ProjectSummary, false, None, NO_METRICS)
  }

  const UNATTRIBUTED := "__unattributed__"

  function ResidualSlice(seconds: real): NormalizedSlice {
    NormalizedSlice(UNATTRIBUTED, UNATTRIBUTED, Unattributed, seconds, UnattributedResidual, true, None, NO_METRICS)
  }

  function EntitySlices(project: string, es: seq<RawEntity>): seq<NormalizedSlice> {
    seq(|es|, i requires 0 <= i < |es| => EntitySliceOf(project, es[i]))
  }

  /** Seconds of a project that its entities do not account for. */
  function ProjectResidual(p: Project): real {
    if p.state == Present then p.seconds - EntitySum(p) else p.seconds
  }

  function ProjectSlices(p: Project): seq<NormalizedSlice> {
    (if p.state == Present then EntitySlices(p.name, p.entities) else [])
    + if ProjectResidual(p) > 0.0 then [SummarySlice(p.name, ProjectResidual(p))] else []
  }

  function AllProjectSlices(ps: seq<Project>): seq<NormalizedSlice> {
    if ps == [] then [] else AllProjectSlices(ps[..|ps| - 1]) + ProjectSlices(ps[|ps| - 1])
  }

  function DaySlices(total: real, ps: seq<Project>): seq<NormalizedSlice> {
    if IsZeroDay(total, ps) then []
    else AllProjectSlices(ps) + if total - ProjectSum(ps) > 0.0 then [ResidualSlice(total - ProjectSum(ps))] else []
  }

  function SliceKey(s: NormalizedSlice): seq<string> {
    [s.projectName, s.entity, TypeName(s.entityType), KindName(s.kind)]
  }

  // ---- Dimension rows ----

  function RowOf(project: Option<string>, r: RawRow): Row {
    Row(project, r.dimension, r.name, r.entityType, r.machine, r.seconds, r.percent, r.rawJson)
  }

  function RowsOf(project: Option<string>, rs: seq<RawRow>): seq<Row> {
    seq(|rs|, i requires 0 <= i < |rs| => RowOf(project, rs[i]))
  }

  function TotalRow(p: Project): Row {
    Row(None, ProjectTotals, p.name, None, None, p.seconds, Some(p.percent), "")
  }

  function TotalRows(ps: seq<Project>): seq<Row> {
    seq(|ps|, i requires 0 <= i < |ps| => TotalRow(ps[i]))
  }

  function ProjectRows(ps: seq<RawProject>): seq<Row> {
    if ps == [] then [] else ProjectRows(ps[..|ps| - 1]) + RowsOf(Some(ps[|ps| - 1].name), ps[|ps| - 1].rows)
  }

  function DayRows(text: TextOps, d: RawDay): seq<Row> {
    TotalRows(NormalizedProjects(text, d.projects)) + ProjectRows(d.projects) + RowsOf(None, d.rows)
  }

  /** scope, project, dimension, name, entity type, machine: both the identity of a row and its sort key. */
  function RowKey(r: Row): seq<string> {
    [if r.projectName.Some? then "project" else "account", Or(r.projectName, ""), DimensionName(r.dimension), r.name,
     if r.entityType.Some? then TypeName(r.entityType.value) else "", Or(r.machine, "")]
  }

  function ProjectKey(p: Project): seq<string> { [p.name] }
  function EntityKey(e: RawEntity): seq<string> { [e.name, TypeName(e.entityType)] }

  // ---- Acceptance ----

  predicate NotBlank(s: string) { Trim(s) != "" }

  predicate RowsAcceptable(project: Option<string>, rows: seq<RawRow>) {
    && (forall i | 0 <= i < |rows| :: NotBlank(rows[i].name) && rows[i].seconds >= 0.0)
    && DistinctBy(RowsOf(project, rows), RowKey)
  }

  predicate EntitiesAcceptable(text: TextOps, es: seq<RawEntity>) {
    && (forall i | 0 <= i < |es| :: NotBlank(es[i].name) && es[i].seconds >= 0.0)
    && DistinctBy(NormalizedEntities(text, es), EntityKey)
  }

  predicate ProjectAcceptable(text: TextOps, p: RawProject) {
    && NotBlank(p.name) && p.seconds >= 0.0
    && (p.entities.Some? ==> EntitiesAcceptable(text, p.entities.value))
    && RowsAcceptable(Some(p.name), p.rows)
  }

  predicate Overcounted(p: Project) {
    p.state == Present && EntitySum(p) - p.seconds > TOLERANCE
  }

  function Abs(x: real): real { if x < 0.0 then -x else x }

  function Timezone(d: RawDay, account: Option<string>): string {
    Or(d.timezone, Or(account, ""))
  }

  predicate TimezoneAcceptable(d: RawDay, account: Option<string>, knownZone: string -> bool) {
    var given, expected := d.timezone.Some? && d.timezone.value != "", account.Some? && account.value != "";
    && (given || expected)
    && (given && expected ==> d.timezone == account)
    && knownZone(Timezone(d, account))
  }

  /** The order-free conditions on the projects of an accepted day. */
  predicate ProjectsAcceptable(text: TextOps, ps: seq<RawProject>) {
    && (forall i | 0 <= i < |ps| :: ProjectAcceptable(text, ps[i]))
    && (forall i, j | 0 <= i < j < |ps| :: ps[i].name != ps[j].name)
  }

  predicate SumsAcceptable(total: real, ps: seq<Project>) {
    && (forall i | 0 <= i < |ps| :: !Overcounted(ps[i]))
    && ProjectSum(ps) - total <= TOLERANCE
    && Abs(SumBy(DaySlices(total, ps), SLICE_SECONDS) - total) <= TOLERANCE
  }

  /** When normalisation completes. */
  predicate Acceptable(text: TextOps, d: RawDay, account: Option<string>, knownZone: string -> bool) {
    && d.total >= 0.0
    && TimezoneAcceptable(d, account, knownZone)
    && ProjectsAcceptable(text, d.projects)
    && SumsAcceptable(d.total, NormalizedProjects(text, d.projects))
    && RowsAcceptable(None, d.rows)
  }

  // ---- The canonical day ----

  function ScopeOf(p: Project): Scope {
    Scope(p.seconds, p.state, |p.entities|)
  }

  function Scopes(ps: seq<Project>): map<string, Scope> {
    if ps == [] then map[] else Scopes(ps[..|ps| - 1])[ps[|ps| - 1].name := ScopeOf(ps[|ps| - 1])]
  }

  function SortedEntities(l: Locale, p: Project): Project {
    p.(entities := Sort(p.entities, ByKey(l.collate, EntityKey)))
  }

  function SortedProjects(l: Locale, ps: seq<Project>): seq<Project> {
    var sorted := Sort(ps, ByKey(l.collate, ProjectKey));
    seq(|sorted|, i requires 0 <= i < |sorted| => SortedEntities(l, sorted[i]))
  }

  function CanonicalDay(l: Locale, date: string, d: RawDay, account: Option<string>): Day {
    var ps := NormalizedProjects(l.text, d.projects);
    Day(date, Timezone(d, account), d.total, ProjectSum(ps), FidelityOf(d.total, ps), IsZeroDay(d.total, ps),
        OverallOf(d.total, ps),
        Scopes(ps), d.metrics, SortedProjects(l, ps), Sort(DayRows(l.text, d), ByKey(l.collate, RowKey)),
        Sort(DaySlices(d.total, ps), ByKey(l.collate, SliceKey)))
  }
}
