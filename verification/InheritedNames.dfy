/**
 Projects named like a member that every object inherits. The scope of such a project is found in any summary, so a
 summary that leaves it out is not recognised as a loss of its entity detail.
 */
module InheritedNames {
  import opened Options
  import opened SliceTypes
  import opened Text
  import opened Orders
  import opened Locales
  import opened SummaryDay
  import opened ArchiveModel
  import opened Reconcile
  import opened ReconcileRuns
  import opened ArchiveHistory
  import opened ArchiveDetail
  import opened NormalizedDays
  import opened NormalizedDimensions
  import Calendar
  import Normalize

  /** The project still has its entity slices, or some accepted summary of the run said that it has none. */
  ghost predicate Survives(l: Locale, s: State, calls: seq<Call>, date: string, project: string) {
    || HoldsDetail(DayAt(StateAfter(l.text, s, calls), date), project)
    || exists i :: 0 <= i < |calls| && EmptiesProject(calls[i].c, OutcomeOf(l.text, s, calls, i), date, project)
  }

  /** The entity detail of the project survives every run fed by the normaliser, from every archive that holds it. */
  ghost predicate AlwaysSurvives(l: Locale, project: string) {
    forall s, calls, date :: AllFromNormalizer(l, calls) && HoldsDetail(DayAt(s, date), project) ==>
        Survives(l, s, calls, date, project)
  }

  /**
   Names that no object inherits are safe; the fields of a scope are, as long as no accepted summary lists
   `__proto__`.
   */
  lemma OtherNamesSurvive(l: Locale, s: State, calls: seq<Call>, date: string, project: string)
    requires AllFromNormalizer(l, calls) && HoldsDetail(DayAt(s, date), project) && project !in INHERITED
    requires project in SCOPE_FIELDS ==> forall i :: 0 <= i < |calls| && calls[i].c.summaries.Complete? ==>
             PROTO !in calls[i].c.summaries.day.scopes
    ensures Survives(l, s, calls, date, project)
  {
    hide After, DayAt, HoldsDetail, AllFromNormalizer, EmptiesProject, OutcomeOf, StateAfter, IsUpdate;
    DetailSurvives(l, s, calls, date, project);
    assert forall i :: 0 <= i < |calls| ==>
           !OverlooksProject(calls[i].c, OutcomeOf(l.text, s, calls, i), date, project);
  }

  // ---- A summary with one project ----

  function OneProject(name: string): RawDay {
    RawDay(1.0, Some("UTC"), [RawProject(name, 1.0, 100.0,
        Some([RawEntity("editor", App, 1.0, None, None, NO_METRICS)]), [])], [], NO_METRICS)
  }

  function DayOf(l: Locale, date: string, name: string): Day {
    CanonicalDay(l, date, OneProject(name), None)
  }

  lemma {:induction false} SolidStart(s: string)
    requires s != "" && !IsSpace(s[0])
    ensures TrimEnd(s) != "" && NotBlank(s)
  {
    if IsSpace(s[|s| - 1]) { SolidStart(s[..|s| - 1]); }
  }

  /** The one project of the day after normalisation. */
  function Only(text: TextOps, name: string): Project {
    Project(name, 1.0, 100.0, Present, [RawEntity(text.nfc(Trim("editor")), App, 1.0, None, None, NO_METRICS)])
  }

  lemma OnlyProject(text: TextOps, name: string)
    ensures NormalizedProjects(text, OneProject(name).projects) == [Only(text, name)]
  {
    var p := OneProject(name).projects[0];
    assert NormalizedEntities(text, p.entities.value) == Only(text, name).entities;
  }

  lemma SumOfOne<T>(x: T, f: T -> real)
    ensures SumBy([x], f) == f(x)
  {
    assert [x][..0] == [];
  }

  lemma OnlySums(text: TextOps, name: string)
    ensures EntitySum(Only(text, name)) == 1.0 && ProjectSum([Only(text, name)]) == 1.0
    ensures DaySlices(1.0, [Only(text, name)]) == [EntitySliceOf(name, Only(text, name).entities[0])]
    ensures SumsAcceptable(1.0, [Only(text, name)])
    ensures Scopes([Only(text, name)]) == map[name := Scope(1.0, Present, 1)]
  {
    var p := Only(text, name);
    var slice := EntitySliceOf(name, p.entities[0]);
    SumOfOne(p.entities[0], ENTITY_SECONDS);
    SumOfOne(p, PROJECT_SECONDS);
    SumOfOne(slice, SLICE_SECONDS);
    hide SumBy;
    assert [p][..0] == [] && EntitySlices(name, p.entities) == [slice];
    assert AllProjectSlices([p]) == ProjectSlices(p) == [slice];
  }

  lemma EditorEntities(text: TextOps, name: string)
    ensures EntitiesAcceptable(text, OneProject(name).projects[0].entities.value)
  {
    SolidStart("editor");
    hide NotBlank, NormalizedEntity;
  }

  lemma NoRows(project: Option<string>)
    ensures RowsAcceptable(project, [])
  {
  }

  lemma OneProjectFits(text: TextOps, name: string)
    requires NotBlank(name)
    ensures ProjectsAcceptable(text, OneProject(name).projects)
  {
    EditorEntities(text, name);
    NoRows(Some(name));
    hide NotBlank, EntitiesAcceptable, RowsAcceptable;
    assert ProjectAcceptable(text, OneProject(name).projects[0]);
  }

  lemma OneProjectZone(name: string, knownZone: string -> bool)
    requires knownZone("UTC")
    ensures TimezoneAcceptable(OneProject(name), None, knownZone)
    ensures OneProject(name).total == 1.0 && OneProject(name).rows == []
  {
  }

  lemma OneProjectAcceptable(text: TextOps, name: string, knownZone: string -> bool)
    requires NotBlank(name) && knownZone("UTC")
    ensures Acceptable(text, OneProject(name), None, knownZone)
  {
    hide *;
    OneProjectZone(name, knownZone);
    OneProjectFits(text, name);
    OnlyProject(text, name);
    OnlySums(text, name);
    NoRows(None);
    Normalize.AcceptableIs(text, OneProject(name), None, knownZone);
  }

  /** What reconciliation reads in the normalised day. */
  ghost predicate ListsOnly(day: Day, name: string) {
    && day.scopes == map[name := Scope(1.0, Present, 1)] && !VerifiedZeroDay(day) && !day.isVerifiedZero
    && day.totalSeconds == 1.0 && day.fidelity == EntityDetail
    && |day.slices| == 1 && day.slices[0].kind == EntitySlice && day.slices[0].projectName == name
  }

  lemma DayOfLists(l: Locale, date: string, name: string)
    requires NotBlank(name)
    ensures FromNormalizer(l, DayOf(l, date, name)) && ListsOnly(DayOf(l, date, name), name)
    ensures ArithmeticRefusal(DayOf(l, date, name)).None? && DimensionsStorable(DayOf(l, date, name))
  {
    hide *;
    var d, anyZone: string -> bool := OneProject(name), zone => true;
    OneProjectIs(name);
    OneProjectAcceptable(l.text, name, anyZone);
    FromAccepted(l, date, name, anyZone);
    CompleteDaysPassArithmetic(l, date, d, None, anyZone);
    NormalizedDimensionsIff(l, date, d, None, anyZone);
    CanonicalFields(l, date, d, None);
    OnlyProject(l.text, name);
    OnlySums(l.text, name);
    DayOfIs(l, date, name);
    ListsOnlyIs(l.text, DayOf(l, date, name), name);
  }

  lemma OneProjectIs(name: string)
    ensures OneProject(name).total == 1.0 && OneRowPerName(OneProject(name))
  {
  }

  lemma DayOfIs(l: Locale, date: string, name: string)
    ensures DayOf(l, date, name) == CanonicalDay(l, date, OneProject(name), None)
  {
    hide CanonicalDay, OneProject;
  }

  lemma FromAccepted(l: Locale, date: string, name: string, knownZone: string -> bool)
    requires Acceptable(l.text, OneProject(name), None, knownZone)
    ensures FromNormalizer(l, DayOf(l, date, name))
  {
    hide Acceptable, CanonicalDay, OneProject;
  }

  lemma ListsOnlyIs(text: TextOps, day: Day, name: string)
    requires day.scopes == map[name := Scope(1.0, Present, 1)] && day.totalSeconds == 1.0
    requires day.isVerifiedZero == IsZeroDay(1.0, [Only(text, name)])
             && day.fidelity == FidelityOf(1.0, [Only(text, name)])
    requires |day.slices| == 1 && forall s ::
             s in [EntitySliceOf(name, Only(text, name).entities[0])] <==> s in day.slices
    ensures ListsOnly(day, name)
  {
    assert [Only(text, name)][0].state == Present;
    assert day.slices[0] in day.slices;
  }

  // ---- The run ----

  const EMPTY_ARCHIVE := State(map[], map[], 1, 1)

  function SyncOf(l: Locale, date: string, name: string): Call {
    Call(Candidate(date, 1, "UTC", SummaryLayer.Complete(DayOf(l, date, name)), BeatsSkipped),
        CallOptions(None, false, None, "", NoFailure, []))
  }

  /** A summary with one slice has distinct keys. */
  lemma OneKey(text: TextOps, c: Candidate, name: string)
    requires c.summaries.Complete? && ListsOnly(c.summaries.day, name)
    ensures DistinctKeys(text, c)
  {
    KeysFit(text, c.summaries.day);
    hide RowsKeys;
  }

  /** The sync of a project updates the date, which then has entity rows of that project only. */
  lemma SyncUpdates(l: Locale, s: State, date: string, name: string)
    requires NotBlank(name) && Calendar.IsValidDateString(date) && s.generation == 1
    requires !SameContent(DayAt(s, date), DayOf(l, date, name)) && !LosesDetail(DayAt(s, date), DayOf(l, date, name))
    ensures var (c, o) := (SyncOf(l, date, name).c, SyncOf(l, date, name).o);
            var (after, r) := After(l.text, s, c, o);
            && IsUpdate(r) && after.generation == 1 && DayAt(after, date).accepted.Some?
            && DayAt(after, date).accepted.value.content == DayOf(l, date, name)
            && DayAt(after, date).rows.Keys == KeySet(RowsKeys(l.text, DayOf(l, date, name)))
  {
    var c, o := SyncOf(l, date, name).c, SyncOf(l, date, name).o;
    hide After, DayAt, SameContent, LosesDetail, DayOf, ListsOnly, DistinctKeys, RowsKeys, KeySet, NotBlank,
         Calendar.IsValidDateString, ArithmeticRefusal, DimensionsStorable, FromNormalizer;
    DayOfLists(l, date, name);
    OneKey(l.text, c, name);
    UpdatesIff(l.text, s, c, o);
    var day, w := Update(l.text, s, c, o);
    UpdatedRowsAreKeys(l.text, s, c, o);
    GenerationStays(l.text, s, c, o);
  }

  lemma GenerationStays(text: TextOps, s: State, c: Candidate, o: CallOptions)
    ensures After(text, s, c, o).0.generation == s.generation
  {
    Outcomes(text, s, c, o);
    hide After, SameContent, Conflicted, Stored, Ids, HeartbeatCodes, VerifiedZeroDay, Today, IsUnchanged, Passes,
         LosesDetail, UpdatedRows, OverlayAll, Retained, RowsKeys, AcceptedEvidence, Demoted;
  }

  /** The archive after the first sync. */
  function Archived(l: Locale, date: string, name: string): State {
    After(l.text, EMPTY_ARCHIVE, SyncOf(l, date, name).c, SyncOf(l, date, name).o).0
  }

  lemma FirstSync(l: Locale, date: string, name: string)
    requires NotBlank(name) && Calendar.IsValidDateString(date)
    ensures var d := DayAt(Archived(l, date, name), date);
            && Archived(l, date, name).generation == 1 && d.accepted.Some?
               && d.accepted.value.content == DayOf(l, date, name)
            && d.rows.Keys == KeySet(RowsKeys(l.text, DayOf(l, date, name)))
  {
    NothingToLose(date, DayOf(l, date, name));
    SyncUpdates(l, EMPTY_ARCHIVE, date, name);
    hide After, DayAt, SameContent, LosesDetail, DayOf, RowsKeys, KeySet, NotBlank, Calendar.IsValidDateString;
  }

  lemma NothingToLose(date: string, day: Day)
    ensures !SameContent(DayAt(EMPTY_ARCHIVE, date), day) && !LosesDetail(DayAt(EMPTY_ARCHIVE, date), day)
  {
    hide HasSlice, LosesProject, VerifiedZeroDay;
  }

  /** Only the rows of an overlooked project are archived, so nothing counts as a loss. */
  lemma LossIsOverlooked(text: TextOps, d: DayArchive, first: Day, day: Day, project: string, other: string)
    requires ListsOnly(first, project) && WellScoped(first) && ListsOnly(day, other) && FoundUnlisted(day, project)
    requires d.accepted.Some? && d.accepted.value.content == first && d.rows.Keys == KeySet(RowsKeys(text, first))
    ensures !SameContent(d, day) && !LosesDetail(d, day)
  {
    OverlookedIsNotLost(day, project, other);
    hide RowsKeys, FoundUnlisted, LosesProject, WellScoped;
    assert project in first.scopes && project !in day.scopes;
    assert HasSlice(day, EntitySlice) by { assert day.slices[0].kind == EntitySlice; }
    forall k | k in d.rows.Keys && k.kind == EntitySlice ensures k.project == project {
      EntityRowsAreSlices(text, first, k.project);
    }
  }

  lemma OverlookedIsNotLost(day: Day, project: string, other: string)
    requires ListsOnly(day, other) && FoundUnlisted(day, project)
    ensures project != other && !LosesProject(day, project)
  {
    hide FieldOfListed;
  }

  lemma ListedHolds(text: TextOps, d: DayArchive, day: Day, project: string)
    requires ListsOnly(day, project) && WellScoped(day) && d.rows.Keys == KeySet(RowsKeys(text, day))
    ensures HoldsDetail(d, project)
  {
    assert HasProjectSlice(day, project, EntitySlice);
    EntityRowsAreSlices(text, day, project);
    HoldsKey(d, RowsKeys(text, day), project);
    hide RowsKeys, WellScoped, KeySet;
  }

  /** A run of one update. */
  lemma RunOfOne(l: Locale, s: State, call: Call, date: string, project: string)
    requires call.c.date == date && call.c.summaries.Complete? && IsUpdate(After(l.text, s, call.c, call.o).1)
    ensures Survives(l, s, [call], date, project) <==>
            HoldsDetail(DayAt(After(l.text, s, call.c, call.o).0, date), project)
                || DeclaresEmpty(call.c.summaries.day, project)
  {
    assert [call][..0] == [];
    OutcomeIs(l.text, s, [call], 0);
    assert StateAfter(l.text, s, []) == s;
    hide After, DayAt, HoldsDetail, DeclaresEmpty, OutcomeOf;
    assert EmptiesProject([call][0].c, OutcomeOf(l.text, s, [call], 0), date, project)
           <==> DeclaresEmpty(call.c.summaries.day, project);
  }

  lemma SyncIs(l: Locale, date: string, name: string)
    ensures SyncOf(l, date, name).c.date == date
            && SyncOf(l, date, name).c.summaries == SummaryLayer.Complete(DayOf(l, date, name))
  {
    hide DayOf;
  }

  lemma AllFromEach(l: Locale, calls: seq<Call>, days: seq<Day>)
    requires |calls| == |days| && forall i :: 0 <= i < |calls| ==>
             calls[i].c.summaries == SummaryLayer.Complete(days[i]) && FromNormalizer(l, days[i])
    ensures AllFromNormalizer(l, calls)
  {
    hide FromNormalizer;
  }

  /**
   A run fed by the normaliser that loses the entity detail of a project: the first summary of a date lists it with an
   entity, the next one lists another project only and is accepted as an update.
   */
  lemma DetailIsLost(l: Locale, date: string, project: string, other: string)
    requires NotBlank(project) && NotBlank(other) && Calendar.IsValidDateString(date)
    requires FoundUnlisted(DayOf(l, date, other), project)
    ensures AllFromNormalizer(l, [SyncOf(l, date, project), SyncOf(l, date, other)])
            && AllFromNormalizer(l, [SyncOf(l, date, other)])
    ensures HoldsDetail(DayAt(Archived(l, date, project), date), project)
    ensures !Survives(l, Archived(l, date, project), [SyncOf(l, date, other)], date, project)
  {
    hide *;
    var s, first, second := Archived(l, date, project), SyncOf(l, date, project), SyncOf(l, date, other);
    SyncIs(l, date, project);
    SyncIs(l, date, other);
    FirstSync(l, date, project);
    DayOfLists(l, date, project);
    DayOfLists(l, date, other);
    AllFromEach(l, [first, second], [DayOf(l, date, project), DayOf(l, date, other)]);
    AllFromEach(l, [second], [DayOf(l, date, other)]);
    NormalizedIsWellScoped(l, DayOf(l, date, project));
    NormalizedIsWellScoped(l, DayOf(l, date, other));
    LossIsOverlooked(l.text, DayAt(s, date), DayOf(l, date, project), DayOf(l, date, other), project, other);
    SyncUpdates(l, s, date, other);
    ListedHolds(l.text, DayAt(s, date), DayOf(l, date, project), project);
    UpdateKeepsDetailIff(l.text, s, second.c, second.o, project);
    NotZero(DayOf(l, date, other), other);
    RunOfOne(l, s, second, date, project);
  }

  lemma NotZero(day: Day, name: string)
    requires ListsOnly(day, name)
    ensures !day.isVerifiedZero
  {
  }

  // ---- The exact condition ----

  /** A project whose summary makes the lookup of the given name find something. */
  function Cover(name: string): string {
    if name in SCOPE_FIELDS then PROTO else "app"
  }

  lemma NamesAreSolid(name: string)
    requires name in INHERITED || name in SCOPE_FIELDS
    ensures NotBlank(name) && NotBlank(Cover(name))
  {
    assert name != "" && !IsSpace(name[0]);
    SolidStart(name);
    SolidStart(Cover(name));
  }

  lemma CoverFinds(day: Day, name: string)
    requires (name in INHERITED || name in SCOPE_FIELDS) && ListsOnly(day, Cover(name))
    ensures FoundUnlisted(day, name)
  {
    assert name != Cover(name);
  }

  /** The lookup of an unlisted project finds the members of every object, and the fields of a project `__proto__`. */
  lemma FoundMeans(day: Day, project: string)
    ensures FoundUnlisted(day, project) <==>
            && project !in day.scopes
            && (|| EveryObjectHas(project)
                || ("__proto__" in day.scopes
                    && (|| project == "projectName" || project == "entityDetailState"
                        || (project == "totalSeconds" && day.scopes["__proto__"].seconds != 0.0)
                        || (project == "entityCount" && day.scopes["__proto__"].entityCount != 0))))
  {
    NamesAre(project);
    hide EveryObjectHas;
  }

  predicate EveryObjectHas(name: string) {
    || name == "constructor" || name == "hasOwnProperty" || name == "isPrototypeOf" || name == "propertyIsEnumerable"
    || name == "toLocaleString" || name == "toString" || name == "valueOf" || name == "__proto__"
    || name == "__defineGetter__" || name == "__defineSetter__" || name == "__lookupGetter__"
       || name == "__lookupSetter__"
  }

  lemma NamesAre(name: string)
    ensures name in INHERITED <==> EveryObjectHas(name)
    ensures name in SCOPE_FIELDS <==>
            name == "projectName" || name == "totalSeconds" || name == "entityDetailState" || name == "entityCount"
  {
  }

  /**
   Entity detail of a project survives every run exactly if no object inherits its name and no scope has it as a
   field.
   */
  lemma AlwaysSurvivesIff(l: Locale, project: string)
    ensures AlwaysSurvives(l, project) <==>
            !EveryObjectHas(project) && project != "projectName" && project != "totalSeconds"
            && project != "entityDetailState" && project != "entityCount"
  {
    NamesAre(project);
    hide EveryObjectHas;
    hide Survives, AllFromNormalizer, HoldsDetail, DayAt, StateAfter, NotBlank, DayOf, SyncOf, Archived;
    if project !in INHERITED && project !in SCOPE_FIELDS {
      forall s, calls, date | AllFromNormalizer(l, calls) && HoldsDetail(DayAt(s, date), project)
        ensures Survives(l, s, calls, date, project)
      {
        OtherNamesSurvive(l, s, calls, date, project);
      }
    } else {
      var date, other := Calendar.DayString(0), Cover(project);
      Calendar.DayStringParts(0);
      NamesAreSolid(project);
      DayOfLists(l, date, other);
      CoverFinds(DayOf(l, date, other), project);
      DetailIsLost(l, date, project, other);
      assert !Survives(l, Archived(l, date, project), [SyncOf(l, date, other)], date, project);
    }
  }
}
