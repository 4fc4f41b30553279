/** What a normalised day holds, read off the day as it arrived. */
module NormalizedContent {
  import opened Options
  import opened SliceTypes
  import opened Text
  import opened Orders
  import opened Rearrange
  import opened Locales
  import opened SummaryDay
  import opened Rearranged
  import opened ArchiveModel
  import opened ReconcileReports
  import opened NormalizedDays
  import opened NormalizedDimensions
  import Normalize

  // ---- Dimension rows ----

  datatype PlainRow = PlainRow(project: Option<string>, dimension: Dimension, name: string, seconds: real,
                               percent: Option<real>, entityType: Option<EntityType>, machine: Option<string>,
                               raw: string)

  const PLAIN: Row -> PlainRow :=
    (r: Row) => PlainRow(r.projectName, r.dimension, r.name, r.seconds, r.percent, r.entityType, r.machine, r.rawJson)

  /** The rows of one scope as they arrived. */
  ghost function Arrived(project: Option<string>, rs: seq<RawRow>): seq<PlainRow> {
    seq(|rs|, i requires 0 <= i < |rs| =>
      PlainRow(project, rs[i].dimension, rs[i].name, rs[i].seconds, rs[i].percent, rs[i].entityType,
               rs[i].machine, rs[i].rawJson))
  }

  /** The totals of the projects, as rows of the account. */
  ghost function ArrivedTotals(ps: seq<RawProject>): seq<PlainRow> {
    seq(|ps|, i requires 0 <= i < |ps| =>
      PlainRow(None, ProjectTotals, ps[i].name, ps[i].seconds, Some(ps[i].percent), None, None, ""))
  }

  ghost function ArrivedOfProjects(ps: seq<RawProject>): seq<PlainRow> {
    if ps == [] then []
    else ArrivedOfProjects(ps[..|ps| - 1]) + Arrived(Some(ps[|ps| - 1].name), ps[|ps| - 1].rows)
  }

  ghost function AllArrived(d: RawDay): seq<PlainRow> {
    ArrivedTotals(d.projects) + ArrivedOfProjects(d.projects) + Arrived(None, d.rows)
  }

  lemma ScopeRows(project: Option<string>, rs: seq<RawRow>)
    ensures Mapped(RowsOf(project, rs), PLAIN) == Arrived(project, rs)
  {
  }

  lemma TotalsRows(text: TextOps, ps: seq<RawProject>)
    ensures Mapped(TotalRows(NormalizedProjects(text, ps)), PLAIN) == ArrivedTotals(ps)
  {
    hide NormalizedEntities;
  }

  lemma MappedConcat<T, U>(a: seq<T>, b: seq<T>, f: T -> U)
    ensures Mapped(a + b, f) == Mapped(a, f) + Mapped(b, f)
  {
  }

  lemma {:induction false} ProjectsRows(ps: seq<RawProject>)
    ensures Mapped(ProjectRows(ps), PLAIN) == ArrivedOfProjects(ps)
  {
    if ps != [] {
      var init, last := ps[..|ps| - 1], ps[|ps| - 1];
      ProjectsRows(init);
      ScopeRows(Some(last.name), last.rows);
      MappedConcat(ProjectRows(init), RowsOf(Some(last.name), last.rows), PLAIN);
      hide Mapped, RowsOf, Arrived;
    }
  }

  lemma DayRowsPlain(text: TextOps, d: RawDay)
    ensures Mapped(DayRows(text, d), PLAIN) == AllArrived(d)
  {
    TotalsRows(text, d.projects);
    ProjectsRows(d.projects);
    ScopeRows(None, d.rows);
    var a, b, c := TotalRows(NormalizedProjects(text, d.projects)), ProjectRows(d.projects), RowsOf(None, d.rows);
    MappedConcat(a, b, PLAIN);
    MappedConcat(a + b, c, PLAIN);
    hide Mapped, TotalRows, ProjectRows, RowsOf, NormalizedProjects, Arrived, ArrivedTotals, ArrivedOfProjects;
  }

  /** The dimension rows of a normalised day are those that arrived, one for one, and the totals of its projects. */
  lemma RowsAreArrived(l: Locale, date: string, d: RawDay, account: Option<string>)
    ensures multiset(Mapped(CanonicalDay(l, date, d, account).rows, PLAIN)) == multiset(AllArrived(d))
  {
    CanonicalRows(l, date, d, account);
    DayRowsPlain(l.text, d);
    MappedPermuted(CanonicalDay(l, date, d, account).rows, DayRows(l.text, d), PLAIN);
    hide CanonicalDay, Mapped, AllArrived, DayRows;
  }

  /** They are what an update stores as the dimension totals of the date. */
  lemma StoredDimensions(l: Locale, s: State, c: Candidate, o: CallOptions, d: RawDay, account: Option<string>)
    requires c.summaries == SummaryLayer.Complete(CanonicalDay(l, c.date, d, account))
    requires After(l.text, s, c, o).1.Returned? && After(l.text, s, c, o).1.report.disposition == Updated
    ensures multiset(Mapped(DayAt(After(l.text, s, c, o).0, c.date).dimensions, PLAIN)) == multiset(AllArrived(d))
  {
    UpdatedReport(l.text, s, c, o);
    RowsAreArrived(l, c.date, d, account);
    hide After, DayAt, CanonicalDay, Mapped, AllArrived, BeatsFollow, HeartbeatCode, CleanBeats;
  }

  // ---- Slices ----

  /** Seconds of the entities of one project. */
  ghost function ListedSeconds(es: seq<RawEntity>): real {
    if es == [] then 0.0 else ListedSeconds(es[..|es| - 1]) + es[|es| - 1].seconds
  }

  ghost function ProjectSeconds(ps: seq<RawProject>): real {
    if ps == [] then 0.0 else ProjectSeconds(ps[..|ps| - 1]) + ps[|ps| - 1].seconds
  }

  ghost function Listed(p: RawProject): seq<RawEntity> {
    if p.entities.Some? then p.entities.value else []
  }

  /** One slice for each entity, and one for the seconds of the project that its entities do not account for. */
  ghost function SlicesArrived(text: TextOps, p: RawProject): seq<NormalizedSlice> {
    var es, rest := Listed(p), p.seconds - ListedSeconds(Listed(p));
    seq(|es|, i requires 0 <= i < |es| =>
      NormalizedSlice(p.name, NormalizeEntity(text, es[i].name, es[i].entityType), es[i].entityType,
                      es[i].seconds, EntitySlice, false, es[i].rootCount, es[i].metrics))
    + if rest > 0.0
      then [NormalizedSlice(p.name, p.name, App, rest, ProjectSummary, false, None, Metrics(0, 0, 0, 0, 0))] else []
  }

  ghost function SlicesOfProjects(text: TextOps, ps: seq<RawProject>): seq<NormalizedSlice> {
    if ps == [] then [] else SlicesOfProjects(text, ps[..|ps| - 1]) + SlicesArrived(text, ps[|ps| - 1])
  }

  /** A day without seconds whose projects, if any, list no entities and no seconds. */
  ghost predicate ZeroDay(d: RawDay) {
    d.total == 0.0 && forall p :: p in d.projects ==> p.seconds == 0.0 && p.entities == Some([])
  }

  ghost function AllSlices(text: TextOps, d: RawDay): seq<NormalizedSlice> {
    var rest := d.total - ProjectSeconds(d.projects);
    if ZeroDay(d) then []
    else SlicesOfProjects(text, d.projects)
         + if rest > 0.0
           then [NormalizedSlice("__unattributed__", "__unattributed__", Unattributed, rest, UnattributedResidual,
                                 true, None, Metrics(0, 0, 0, 0, 0))] else []
  }

  lemma {:induction false} ListedSum(text: TextOps, es: seq<RawEntity>)
    ensures SumBy(NormalizedEntities(text, es), ENTITY_SECONDS) == ListedSeconds(es)
  {
    if es != [] {
      ListedSum(text, es[..|es| - 1]);
      assert NormalizedEntities(text, es)[..|es| - 1] == NormalizedEntities(text, es[..|es| - 1]);
    }
  }

  lemma {:induction false} ProjectsSum(text: TextOps, ps: seq<RawProject>)
    ensures ProjectSum(NormalizedProjects(text, ps)) == ProjectSeconds(ps)
  {
    if ps != [] {
      ProjectsSum(text, ps[..|ps| - 1]);
      assert NormalizedProjects(text, ps)[..|ps| - 1] == NormalizedProjects(text, ps[..|ps| - 1]);
      hide NormalizedEntities;
    }
  }

  lemma ProjectSlicesAre(text: TextOps, p: RawProject)
    ensures ProjectSlices(NormalizedProject(text, p)) == SlicesArrived(text, p)
  {
    ListedSum(text, Listed(p));
    var q := NormalizedProject(text, p);
    assert q.entities == NormalizedEntities(text, Listed(p));
    assert p.entities == Some([]) ==> q.state != Present && EntitySum(q) == 0.0;
    hide SumBy, NormalizeEntity;
  }

  lemma {:induction false} AllProjectSlicesAre(text: TextOps, ps: seq<RawProject>)
    ensures AllProjectSlices(NormalizedProjects(text, ps)) == SlicesOfProjects(text, ps)
  {
    if ps != [] {
      AllProjectSlicesAre(text, ps[..|ps| - 1]);
      ProjectSlicesAre(text, ps[|ps| - 1]);
      assert NormalizedProjects(text, ps)[..|ps| - 1] == NormalizedProjects(text, ps[..|ps| - 1]);
      hide NormalizedProject, ProjectSlices, SlicesArrived;
    }
  }

  lemma ZeroDayIs(text: TextOps, d: RawDay)
    ensures ZeroDay(d) <==> IsZeroDay(d.total, NormalizedProjects(text, d.projects))
  {
    var ps := NormalizedProjects(text, d.projects);
    forall i | 0 <= i < |ps|
      ensures ps[i].seconds == 0.0 && ps[i].state == Empty
              <==> d.projects[i].seconds == 0.0 && d.projects[i].entities == Some([])
    {
      hide NormalizedEntities;
    }
    hide NormalizedProject;
    if ZeroDay(d) {
      forall i | 0 <= i < |ps| ensures ps[i].seconds == 0.0 && ps[i].state == Empty {
        assert d.projects[i] in d.projects;
      }
    }
    if IsZeroDay(d.total, ps) {
      forall p | p in d.projects ensures p.seconds == 0.0 && p.entities == Some([]) {
        var i :| 0 <= i < |d.projects| && d.projects[i] == p;
        assert ps[i].state == Empty;
      }
    }
  }

  /**
   The slices of a normalised day are the entities of its projects, what these leave over, and the rest of the day.
   */
  lemma SlicesAreArrived(l: Locale, date: string, d: RawDay, account: Option<string>)
    ensures multiset(CanonicalDay(l, date, d, account).slices) == multiset(AllSlices(l.text, d))
  {
    hide *;
    CanonicalFields(l, date, d, account);
    ZeroDayIs(l.text, d);
    ProjectsSum(l.text, d.projects);
    AllProjectSlicesAre(l.text, d.projects);
    DaySlicesAre(l.text, d);
  }

  lemma DaySlicesAre(text: TextOps, d: RawDay)
    requires ZeroDay(d) <==> IsZeroDay(d.total, NormalizedProjects(text, d.projects))
    requires ProjectSum(NormalizedProjects(text, d.projects)) == ProjectSeconds(d.projects)
    requires AllProjectSlices(NormalizedProjects(text, d.projects)) == SlicesOfProjects(text, d.projects)
    ensures DaySlices(d.total, NormalizedProjects(text, d.projects)) == AllSlices(text, d)
  {
    hide ZeroDay, IsZeroDay, NormalizedProjects, ProjectSum, ProjectSeconds, AllProjectSlices, SlicesOfProjects;
  }

  // ---- Projects, scopes and the day itself ----

  /** Does the project list entities, list none, or not say? */
  ghost predicate Says(p: RawProject, state: DetailState) {
    match state
    case Absent => p.entities.None?
    case Empty => p.entities == Some([])
    case Present => p.entities.Some? && |p.entities.value| > 0
  }

  /** The scope of every project and nothing else. */
  lemma ScopesAreArrived(l: Locale, date: string, d: RawDay, account: Option<string>)
    requires ProjectsAcceptable(l.text, d.projects)
    ensures var scopes := CanonicalDay(l, date, d, account).scopes;
            && (forall name :: name in scopes <==> exists p :: p in d.projects && p.name == name)
            && forall p :: p in d.projects ==>
                 p.name in scopes && scopes[p.name].seconds == p.seconds && Says(p, scopes[p.name].state)
                 && scopes[p.name].entityCount == |Listed(p)|
  {
    hide *;
    var ps := NormalizedProjects(l.text, d.projects);
    CanonicalFields(l, date, d, account);
    Normalize.AcceptedProjects(l.text, d.projects);
    ScopesByName(ps);
    ProjectFields(l.text, d.projects);
    forall p | p in d.projects
      ensures p.name in Scopes(ps) && Scopes(ps)[p.name].seconds == p.seconds && Says(p, Scopes(ps)[p.name].state)
      ensures Scopes(ps)[p.name].entityCount == |Listed(p)|
    {
      var i :| 0 <= i < |d.projects| && d.projects[i] == p;
      assert ps[i] in ps;
      ScopeOfIs(ps[i]);
    }
    forall q | q in ps ensures exists p :: p in d.projects && p.name == q.name {
      var i :| 0 <= i < |ps| && ps[i] == q;
      assert d.projects[i] in d.projects && d.projects[i].name == q.name;
    }
  }

  lemma ScopeOfIs(p: Project)
    ensures ScopeOf(p) == Scope(p.seconds, p.state, |p.entities|)
  {
  }

  lemma ProjectFields(text: TextOps, ps: seq<RawProject>)
    ensures |NormalizedProjects(text, ps)| == |ps|
    ensures forall i :: 0 <= i < |ps| ==>
              var p, q := ps[i], NormalizedProjects(text, ps)[i];
              && q.name == p.name && q.seconds == p.seconds && q.percent == p.percent && Says(p, q.state)
              && |q.entities| == |Listed(p)|
              && forall j :: 0 <= j < |Listed(p)| ==>
                   q.entities[j]
                   == Listed(p)[j].(name := NormalizeEntity(text, Listed(p)[j].name, Listed(p)[j].entityType))
  {
    hide NormalizeEntity;
  }

  /** Totals, time zone, metrics and fidelity. */
  lemma DayIsArrived(l: Locale, date: string, d: RawDay, account: Option<string>)
    ensures var day := CanonicalDay(l, date, d, account);
            && day.date == date && day.totalSeconds == d.total && day.metrics == d.metrics
            && day.projectSumSeconds == ProjectSeconds(d.projects)
            && day.timezone == (if d.timezone.Some? then d.timezone.value
                                else if account.Some? then account.value else "")
            && (day.isVerifiedZero <==> ZeroDay(d)) && (day.fidelity == VerifiedZero <==> ZeroDay(d))
            && (day.fidelity == EntityDetail <==> !ZeroDay(d) && exists p :: p in d.projects && Says(p, Present))
            && (day.overall == EmptyDay <==> ZeroDay(d))
            && (day.overall == CoarseOnly <==> !ZeroDay(d) && forall p :: p in d.projects ==> !Says(p, Present))
            && (day.overall == Mixed <==>
                (exists p :: p in d.projects && Says(p, Present))
                && exists p :: p in d.projects && (Says(p, Absent) || (Says(p, Empty) && p.seconds > 0.0)))
  {
    var ps := NormalizedProjects(l.text, d.projects);
    ZeroDayIs(l.text, d);
    ProjectsSum(l.text, d.projects);
    assert ZeroDay(d) ==> forall p :: p in d.projects ==> !Says(p, Present);
    DetailIs(l.text, d.projects);
    hide NormalizedProjects, ZeroDay, IsZeroDay, ProjectSum, ProjectSeconds, HasDetail, HasCoarse, Scopes,
         SortedProjects, Sort, DayRows, DaySlices, Says;
  }

  lemma DetailIs(text: TextOps, ps: seq<RawProject>)
    ensures HasDetail(NormalizedProjects(text, ps)) <==> exists p :: p in ps && Says(p, Present)
    ensures HasCoarse(NormalizedProjects(text, ps)) <==>
            exists p :: p in ps && (Says(p, Absent) || (Says(p, Empty) && p.seconds > 0.0))
  {
    var qs := NormalizedProjects(text, ps);
    ProjectStates(text, ps);
    hide NormalizedProjects, Says;
    if p :| p in ps && Says(p, Present) {
      var i :| 0 <= i < |ps| && ps[i] == p;
      assert qs[i].state == Present;
    }
    if p :| p in ps && (Says(p, Absent) || (Says(p, Empty) && p.seconds > 0.0)) {
      var i :| 0 <= i < |ps| && ps[i] == p;
      assert qs[i].state == Absent || (qs[i].state == Empty && qs[i].seconds > 0.0);
    }
    if i :| 0 <= i < |qs| && qs[i].state == Present {
      assert ps[i] in ps && Says(ps[i], Present);
    }
    if i :| 0 <= i < |qs| && (qs[i].state == Absent || (qs[i].state == Empty && qs[i].seconds > 0.0)) {
      assert ps[i] in ps && Says(ps[i], qs[i].state);
    }
  }

  lemma ProjectStates(text: TextOps, ps: seq<RawProject>)
    ensures |NormalizedProjects(text, ps)| == |ps|
    ensures forall i :: 0 <= i < |ps| ==>
              var q := NormalizedProjects(text, ps)[i];
              q.seconds == ps[i].seconds && forall state :: Says(ps[i], state) <==> q.state == state
  {
    hide NormalizedEntities;
  }

  /**
   The normalised project has the fields of the one that arrived and its entities, with their names in normal form,
   in some order.
   */
  ghost predicate Renders(text: TextOps, p: RawProject, q: Project) {
    && q.name == p.name && q.seconds == p.seconds && q.percent == p.percent && Says(p, q.state)
    && multiset(q.entities) == multiset(seq(|Listed(p)|, j requires 0 <= j < |Listed(p)| =>
         Listed(p)[j].(name := NormalizeEntity(text, Listed(p)[j].name, Listed(p)[j].entityType))))
  }

  lemma SortedRenders(l: Locale, ps: seq<RawProject>, i: nat)
    requires i < |ps| && |NormalizedProjects(l.text, ps)| == |ps|
    ensures Renders(l.text, ps[i], SortedEntities(l, NormalizedProjects(l.text, ps)[i]))
  {
    ProjectFields(l.text, ps);
    var q := NormalizedProjects(l.text, ps)[i];
    SortContents(q.entities, ByKey(l.collate, EntityKey));
    hide NormalizedProjects, Sort, ByKey, Says, NormalizeEntity;
    assert q.entities == seq(|Listed(ps[i])|, j requires 0 <= j < |Listed(ps[i])| =>
      Listed(ps[i])[j].(name := NormalizeEntity(l.text, Listed(ps[i])[j].name, Listed(ps[i])[j].entityType)));
  }

  lemma SortedPlaces(l: Locale, ps: seq<Project>)
    ensures |SortedProjects(l, ps)| == |ps|
    ensures forall q :: q in SortedProjects(l, ps) <==> exists i :: 0 <= i < |ps| && q == SortedEntities(l, ps[i])
  {
    var le := ByKey(l.collate, ProjectKey);
    SortContents(ps, le);
    SortMembers(ps, le);
    assert |Sort(ps, le)| == |multiset(Sort(ps, le))| == |multiset(ps)| == |ps|;
    hide ByKey, ProjectKey, SortedEntities;
    var sorted := Sort(ps, le);
    hide Sort;
    forall q | q in SortedProjects(l, ps) ensures exists i :: 0 <= i < |ps| && q == SortedEntities(l, ps[i]) {
      var j :| 0 <= j < |sorted| && q == SortedEntities(l, sorted[j]);
      assert sorted[j] in ps;
      var i :| 0 <= i < |ps| && ps[i] == sorted[j];
    }
    forall i | 0 <= i < |ps| ensures SortedEntities(l, ps[i]) in SortedProjects(l, ps) {
      assert ps[i] in sorted;
      var j :| 0 <= j < |sorted| && sorted[j] == ps[i];
      assert SortedProjects(l, ps)[j] == SortedEntities(l, sorted[j]);
    }
  }

  /** The projects of a normalised day are those that arrived. */
  lemma ProjectsAreArrived(l: Locale, date: string, d: RawDay, account: Option<string>)
    ensures var qs := CanonicalDay(l, date, d, account).projects;
            && |qs| == |d.projects|
            && (forall q :: q in qs ==> exists p :: p in d.projects && Renders(l.text, p, q))
            && forall p :: p in d.projects ==> exists q :: q in qs && Renders(l.text, p, q)
  {
    hide *;
    var ps := NormalizedProjects(l.text, d.projects);
    CanonicalRows(l, date, d, account);
    ProjectFields(l.text, d.projects);
    SortedPlaces(l, ps);
    forall i: nat | i < |d.projects| ensures Renders(l.text, d.projects[i], SortedEntities(l, ps[i])) {
      SortedRenders(l, d.projects, i);
    }
    var qs := SortedProjects(l, ps);
    forall q | q in qs ensures exists p :: p in d.projects && Renders(l.text, p, q) {
      var i :| 0 <= i < |ps| && q == SortedEntities(l, ps[i]);
      assert d.projects[i] in d.projects;
    }
    forall p | p in d.projects ensures exists q :: q in qs && Renders(l.text, p, q) {
      var i :| 0 <= i < |d.projects| && d.projects[i] == p;
      assert SortedEntities(l, ps[i]) in qs;
    }
  }
}
