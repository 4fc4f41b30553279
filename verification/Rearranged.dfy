/** Rearranging projects, entities or dimension rows changes neither acceptance nor the canonical day. */
module Rearranged {
  import opened Options
  import opened SliceTypes
  import opened Text
  import opened Orders
  import opened Rearrange
  import opened Locales
  import opened SummaryDay
  import opened Normalize

  ghost predicate Shuffled<T>(a: seq<T>, b: seq<T>) {
    multiset(a) == multiset(b)
  }

  /** The same project with its entities and rows in another order. */
  ghost predicate ProjectShuffled(p: RawProject, q: RawProject) {
    && p.name == q.name && p.seconds == q.seconds && p.percent == q.percent
    && (p.entities.Some? <==> q.entities.Some?)
    && (p.entities.Some? ==> Shuffled(p.entities.value, q.entities.value))
    && Shuffled(p.rows, q.rows)
  }

  ghost predicate InsideShuffled(ps: seq<RawProject>, qs: seq<RawProject>) {
    |ps| == |qs| && forall i :: 0 <= i < |ps| ==> ProjectShuffled(ps[i], qs[i])
  }

  /** The same day with projects, their entities and rows, and the account rows in another order. */
  ghost predicate DayShuffled(d: RawDay, e: RawDay) {
    && d.total == e.total && d.timezone == e.timezone && d.metrics == e.metrics
    && Shuffled(d.rows, e.rows)
    && exists inside: seq<RawProject> :: InsideShuffled(d.projects, inside) && Shuffled(inside, e.projects)
  }

  // ---- Rows and entities of one scope ----

  lemma RowsShuffled(project: Option<string>, a: seq<RawRow>, b: seq<RawRow>)
    requires Shuffled(a, b)
    ensures Shuffled(RowsOf(project, a), RowsOf(project, b))
    ensures RowsAcceptable(project, a) <==> RowsAcceptable(project, b)
  {
    var of := (r: RawRow) => RowOf(project, r);
    assert RowsOf(project, a) == Mapped(a, of) && RowsOf(project, b) == Mapped(b, of);
    MappedPermuted(a, b, of);
    DistinctByPermuted(RowsOf(project, a), RowsOf(project, b), RowKey);
    SameMembers(a, b);
    hide RowsOf, RowKey, NotBlank, DistinctBy;
    assert forall i :: 0 <= i < |a| ==> a[i] in b;
    assert forall i :: 0 <= i < |b| ==> b[i] in a;
  }

  lemma EntitiesShuffled(text: TextOps, a: seq<RawEntity>, b: seq<RawEntity>)
    requires Shuffled(a, b)
    ensures Shuffled(NormalizedEntities(text, a), NormalizedEntities(text, b))
    ensures EntitiesAcceptable(text, a) <==> EntitiesAcceptable(text, b)
  {
    var of := (e: RawEntity) => NormalizedEntity(text, e);
    assert NormalizedEntities(text, a) == Mapped(a, of) && NormalizedEntities(text, b) == Mapped(b, of);
    MappedPermuted(a, b, of);
    DistinctByPermuted(NormalizedEntities(text, a), NormalizedEntities(text, b), EntityKey);
    SameMembers(a, b);
    hide NormalizedEntities, EntityKey, NotBlank, DistinctBy;
    assert forall i :: 0 <= i < |a| ==> a[i] in b;
    assert forall i :: 0 <= i < |b| ==> b[i] in a;
  }

  // ---- One project ----

  /** The same normalised project with its entities in another order. */
  ghost predicate Alike(p: Project, q: Project) {
    p.name == q.name && p.seconds == q.seconds && p.percent == q.percent && p.state == q.state
        && Shuffled(p.entities, q.entities)
  }

  lemma ShuffledProject(text: TextOps, p: RawProject, q: RawProject)
    requires ProjectShuffled(p, q)
    ensures ProjectAcceptable(text, p) <==> ProjectAcceptable(text, q)
    ensures Alike(NormalizedProject(text, p), NormalizedProject(text, q))
    ensures Shuffled(RowsOf(Some(p.name), p.rows), RowsOf(Some(q.name), q.rows))
  {
    RowsShuffled(Some(p.name), p.rows, q.rows);
    NameKept(text, p);
    NameKept(text, q);
    if p.entities.Some? {
      EntitiesShuffled(text, p.entities.value, q.entities.value);
      SameMembers(p.entities.value, q.entities.value);
    }
    hide RowsAcceptable, EntitiesAcceptable, NotBlank, NormalizedEntities, RowsOf, NormalizedProject;
  }

  lemma AlikeSums(p: Project, q: Project)
    requires Alike(p, q)
    ensures EntitySum(p) == EntitySum(q) && ProjectResidual(p) == ProjectResidual(q)
    ensures Overcounted(p) <==> Overcounted(q)
    ensures ScopeOf(p) == ScopeOf(q) && TotalRow(p) == TotalRow(q)
  {
    SumByPermuted(p.entities, q.entities, ENTITY_SECONDS);
    SameMembers(p.entities, q.entities);
  }

  lemma AlikeSlices(p: Project, q: Project)
    requires Alike(p, q)
    ensures Shuffled(ProjectSlices(p), ProjectSlices(q))
  {
    AlikeSums(p, q);
    var of := (e: RawEntity) => EntitySliceOf(p.name, e);
    assert EntitySlices(p.name, p.entities) == Mapped(p.entities, of)
           && EntitySlices(q.name, q.entities) == Mapped(q.entities, of);
    MappedPermuted(p.entities, q.entities, of);
    hide EntitySlices, ProjectResidual, EntitySum;
  }

  lemma AlikeSorted(l: Locale, p: Project, q: Project)
    requires TotalOrder(l.collate) && Alike(p, q) && DistinctBy(p.entities, EntityKey)
    ensures SortedEntities(l, p) == SortedEntities(l, q)
  {
    DistinctIsUnique(p.entities, EntityKey);
    SortByUniqueKey(l.collate, EntityKey, p.entities, q.entities);
  }

  lemma DistinctIsUnique<T(!new)>(s: seq<T>, key: T -> seq<string>)
    requires DistinctBy(s, key)
    ensures UniqueKeys(s, key)
  {
    forall x, y | x in s && y in s && key(x) == key(y) ensures x == y {
      var i :| 0 <= i < |s| && s[i] == x;
      var j :| 0 <= j < |s| && s[j] == y;
    }
  }

  // ---- What the rest of a day depends on ----

  /** Everything the canonical day takes from its projects agrees. */
  ghost predicate Interchangeable(l: Locale, ps: seq<Project>, qs: seq<Project>) {
    && ProjectSum(ps) == ProjectSum(qs)
    && ((exists i :: 0 <= i < |ps| && Overcounted(ps[i])) <==> (exists i :: 0 <= i < |qs| && Overcounted(qs[i])))
    && (forall total :: IsZeroDay(total, ps) <==> IsZeroDay(total, qs))
    && (HasDetail(ps) <==> HasDetail(qs)) && (HasCoarse(ps) <==> HasCoarse(qs))
    && Shuffled(AllProjectSlices(ps), AllProjectSlices(qs))
    && Shuffled(TotalRows(ps), TotalRows(qs))
    && Scopes(ps) == Scopes(qs)
    && SortedProjects(l, ps) == SortedProjects(l, qs)
  }

  // ---- Step one: entities and rows inside the projects ----

  ghost predicate AllAlike(ps: seq<Project>, qs: seq<Project>) {
    |ps| == |qs| && forall i :: 0 <= i < |ps| ==> Alike(ps[i], qs[i])
  }

  lemma {:induction false} AlikeTotals(ps: seq<Project>, qs: seq<Project>)
    requires AllAlike(ps, qs)
    ensures ProjectSum(ps) == ProjectSum(qs) && Scopes(ps) == Scopes(qs)
    ensures Shuffled(AllProjectSlices(ps), AllProjectSlices(qs))
  {
    if ps != [] {
      var n := |ps| - 1;
      AlikeTotals(ps[..n], qs[..n]);
      assert Alike(ps[n], qs[n]);
      AlikeSums(ps[n], qs[n]);
      AlikeSlices(ps[n], qs[n]);
      hide ProjectSlices, ScopeOf, Alike;
    }
  }

  lemma AlikeConditions(ps: seq<Project>, qs: seq<Project>)
    requires AllAlike(ps, qs)
    ensures (exists i :: 0 <= i < |ps| && Overcounted(ps[i])) <==> (exists i :: 0 <= i < |qs| && Overcounted(qs[i]))
    ensures forall total :: IsZeroDay(total, ps) <==> IsZeroDay(total, qs)
    ensures (HasDetail(ps) <==> HasDetail(qs)) && (HasCoarse(ps) <==> HasCoarse(qs))
    ensures TotalRows(ps) == TotalRows(qs)
  {
    forall i | 0 <= i < |ps| ensures (Overcounted(ps[i]) <==> Overcounted(qs[i]))
        && TotalRow(ps[i]) == TotalRow(qs[i]) {
      assert Alike(ps[i], qs[i]);
      AlikeSums(ps[i], qs[i]);
    }
    hide Overcounted, TotalRow, Shuffled;
  }

  ghost predicate DistinctEntities(ps: seq<Project>) {
    forall i :: 0 <= i < |ps| ==> DistinctBy(ps[i].entities, EntityKey)
  }

  function EntitiesSorted(l: Locale): Project -> Project {
    p => SortedEntities(l, p)
  }

  /** Sorting the projects by name does not look inside them. */
  lemma SortedProjectsIs(l: Locale, ps: seq<Project>)
    ensures SortedProjects(l, ps) == Mapped(Sort(ps, ByKey(l.collate, ProjectKey)), EntitiesSorted(l))
  {
  }

  lemma {:induction false} InsertAlike(p: Project, q: Project, ps: seq<Project>, qs: seq<Project>,
                                       le: (Project, Project) -> bool)
    requires Alike(p, q) && AllAlike(ps, qs) && forall a, b, a', b' :: Alike(a, a') && Alike(b, b') ==>
             (le(a, b) <==> le(a', b'))
    ensures AllAlike(Insert(p, ps, le), Insert(q, qs, le))
  {
    hide Alike;
    if ps != [] && !le(p, ps[0]) {
      InsertAlike(p, q, ps[1..], qs[1..], le);
    }
  }

  lemma {:induction false} SortAlike(ps: seq<Project>, qs: seq<Project>, le: (Project, Project) -> bool)
    requires AllAlike(ps, qs) && forall a, b, a', b' :: Alike(a, a') && Alike(b, b') ==> (le(a, b) <==> le(a', b'))
    ensures AllAlike(Sort(ps, le), Sort(qs, le))
  {
    hide Alike;
    if ps != [] {
      SortAlike(ps[1..], qs[1..], le);
      InsertAlike(ps[0], qs[0], Sort(ps[1..], le), Sort(qs[1..], le), le);
    }
  }

  lemma AlikeSortedProjects(l: Locale, ps: seq<Project>, qs: seq<Project>)
    requires TotalOrder(l.collate) && AllAlike(ps, qs) && DistinctEntities(ps)
    ensures SortedProjects(l, ps) == SortedProjects(l, qs)
  {
    var le := ByKey(l.collate, ProjectKey);
    assert forall a, b :: Alike(a, b) ==> ProjectKey(a) == ProjectKey(b);
    hide Shuffled;
    SortAlike(ps, qs, le) by { hide Alike, LexLeq; }
    SortMembers(ps, le);
    var a, b := Sort(ps, le), Sort(qs, le);
    assert forall p :: p in ps ==> DistinctBy(p.entities, EntityKey);
    hide Sort, DistinctBy, SortedEntities, Alike;
    forall i | 0 <= i < |a| ensures SortedEntities(l, a[i]) == SortedEntities(l, b[i]) {
      assert a[i] in a;
      AlikeSorted(l, a[i], b[i]);
    }
  }

  lemma InsideInterchangeable(l: Locale, ps: seq<Project>, qs: seq<Project>)
    requires TotalOrder(l.collate) && AllAlike(ps, qs) && DistinctEntities(ps)
    ensures Interchangeable(l, ps, qs)
  {
    AlikeTotals(ps, qs);
    AlikeConditions(ps, qs);
    AlikeSortedProjects(l, ps, qs);
    assert Shuffled(TotalRows(ps), TotalRows(qs));
    hide *;
    AgreeingIsInterchangeable(l, ps, qs);
  }

  lemma {:induction false} InsideRows(text: TextOps, ps: seq<RawProject>, qs: seq<RawProject>)
    requires InsideShuffled(ps, qs)
    ensures Shuffled(ProjectRows(ps), ProjectRows(qs))
  {
    if ps != [] {
      var n := |ps| - 1;
      InsideRows(text, ps[..n], qs[..n]);
      ShuffledProject(text, ps[n], qs[n]);
      hide RowsOf, ProjectShuffled;
    }
  }

  lemma InsideStep(l: Locale, ps: seq<RawProject>, qs: seq<RawProject>)
    requires InsideShuffled(ps, qs)
    ensures ProjectsAcceptable(l.text, ps) <==> ProjectsAcceptable(l.text, qs)
    ensures AllAlike(NormalizedProjects(l.text, ps), NormalizedProjects(l.text, qs))
  {
    forall i | 0 <= i < |ps|
      ensures ProjectAcceptable(l.text, ps[i]) <==> ProjectAcceptable(l.text, qs[i])
      ensures Alike(NormalizedProject(l.text, ps[i]), NormalizedProject(l.text, qs[i])) && ps[i].name == qs[i].name
    {
      ShuffledProject(l.text, ps[i], qs[i]);
    }
    hide ProjectAcceptable, Alike, NormalizedProject, ProjectShuffled;
  }

  // ---- Step two: the projects themselves ----

  const SLICES_OF_PROJECT: Project -> seq<NormalizedSlice> := (p: Project) => ProjectSlices(p)
  const ROWS_OF_PROJECT: RawProject -> seq<Row> := (p: RawProject) => RowsOf(Some(p.name), p.rows)
  const PROJECT_NAME: RawProject -> string := (p: RawProject) => p.name

  lemma {:induction false} AllSlicesAreFlat(ps: seq<Project>)
    ensures AllProjectSlices(ps) == FlatMapped(ps, SLICES_OF_PROJECT)
  {
    if ps != [] { AllSlicesAreFlat(ps[..|ps| - 1]); }
    hide ProjectSlices;
  }

  lemma {:induction false} RowsAreFlat(ps: seq<RawProject>)
    ensures ProjectRows(ps) == FlatMapped(ps, ROWS_OF_PROJECT)
  {
    if ps != [] { RowsAreFlat(ps[..|ps| - 1]); }
    hide RowsOf;
  }

  lemma ShuffledTotals(ps: seq<Project>, qs: seq<Project>)
    requires Shuffled(ps, qs)
    ensures ProjectSum(ps) == ProjectSum(qs)
    ensures Shuffled(AllProjectSlices(ps), AllProjectSlices(qs)) && Shuffled(TotalRows(ps), TotalRows(qs))
  {
    SumByPermuted(ps, qs, PROJECT_SECONDS);
    AllSlicesAreFlat(ps);
    AllSlicesAreFlat(qs);
    FlatMappedPermuted(ps, qs, SLICES_OF_PROJECT);
    var of := (p: Project) => TotalRow(p);
    assert TotalRows(ps) == Mapped(ps, of) && TotalRows(qs) == Mapped(qs, of);
    MappedPermuted(ps, qs, of);
    hide AllProjectSlices, FlatMapped, Mapped, TotalRows;
  }

  lemma ShuffledConditions(ps: seq<Project>, qs: seq<Project>)
    requires forall p :: p in ps <==> p in qs
    ensures (exists i :: 0 <= i < |ps| && Overcounted(ps[i])) ==> (exists i :: 0 <= i < |qs| && Overcounted(qs[i]))
    ensures forall total :: IsZeroDay(total, ps) ==> IsZeroDay(total, qs)
    ensures (HasDetail(ps) ==> HasDetail(qs)) && (HasCoarse(ps) ==> HasCoarse(qs))
  {
    hide Overcounted;
    assert forall i :: 0 <= i < |ps| ==> ps[i] in qs;
    assert forall i :: 0 <= i < |qs| ==> qs[i] in ps;
  }

  lemma NamesDifferLast(ps: seq<Project>)
    requires NamesDiffer(ps) && ps != []
    ensures NamesDiffer(ps[..|ps| - 1]) && forall p :: p in ps[..|ps| - 1] ==> p.name != ps[|ps| - 1].name
    ensures forall p :: p in ps <==> p in ps[..|ps| - 1] || p == ps[|ps| - 1]
  {
    var init, last := ps[..|ps| - 1], ps[|ps| - 1];
    assert ps == init + [last];
    forall p | p in init ensures p.name != last.name {
      var i :| 0 <= i < |init| && init[i] == p;
      assert ps[i].name != ps[|ps| - 1].name;
    }
  }

  lemma {:induction false} ScopesByName(ps: seq<Project>)
    requires NamesDiffer(ps)
    ensures forall name :: name in Scopes(ps) <==> exists p :: p in ps && p.name == name
    ensures forall p :: p in ps ==> p.name in Scopes(ps) && Scopes(ps)[p.name] == ScopeOf(p)
  {
    if ps != [] {
      var init, last := ps[..|ps| - 1], ps[|ps| - 1];
      NamesDifferLast(ps);
      hide NamesDiffer, ScopeOf;
      ScopesByName(init);
      assert Scopes(ps) == Scopes(init)[last.name := ScopeOf(last)];
      hide Scopes;
    }
  }

  lemma ShuffledScopes(ps: seq<Project>, qs: seq<Project>)
    requires Shuffled(ps, qs) && NamesDiffer(ps) && NamesDiffer(qs)
    ensures Scopes(ps) == Scopes(qs)
  {
    ScopesByName(ps);
    ScopesByName(qs);
    SameMembers(ps, qs);
    var a, b := Scopes(ps), Scopes(qs);
    hide Scopes, NamesDiffer, Shuffled;
    assert forall name :: name in a <==> name in b;
    forall name | name in a ensures a[name] == b[name] {
      var p :| p in ps && p.name == name;
      assert p in qs;
    }
  }

  lemma NamesAreDistinct(ps: seq<Project>)
    ensures NamesDiffer(ps) <==> DistinctBy(ps, ProjectKey)
  {
    forall i, j | 0 <= i < j < |ps| ensures ps[i].name == ps[j].name <==> ProjectKey(ps[i]) == ProjectKey(ps[j]) {
      assert ProjectKey(ps[i])[0] == ps[i].name && ProjectKey(ps[j])[0] == ps[j].name;
    }
  }

  lemma ShuffledSorted(l: Locale, ps: seq<Project>, qs: seq<Project>)
    requires TotalOrder(l.collate) && Shuffled(ps, qs) && NamesDiffer(ps)
    ensures NamesDiffer(qs) && SortedProjects(l, ps) == SortedProjects(l, qs)
  {
    NamesAreDistinct(ps);
    NamesAreDistinct(qs);
    DistinctByPermuted(ps, qs, ProjectKey);
    hide DistinctBy, NamesDiffer;
    DistinctIsUnique(ps, ProjectKey);
    SortByUniqueKey(l.collate, ProjectKey, ps, qs);
    hide *;
    SortedProjectsIs(l, ps);
    SortedProjectsIs(l, qs);
  }

  lemma ShuffledInterchangeable(l: Locale, ps: seq<Project>, qs: seq<Project>)
    requires TotalOrder(l.collate) && Shuffled(ps, qs) && NamesDiffer(ps)
    ensures Interchangeable(l, ps, qs)
  {
    ShuffledTotals(ps, qs);
    ShuffledSorted(l, ps, qs);
    ShuffledScopes(ps, qs);
    SameMembers(ps, qs);
    hide *;
    ShuffledConditions(ps, qs);
    ShuffledConditions(qs, ps);
    AgreeingIsInterchangeable(l, ps, qs);
  }

  lemma AgreeingIsInterchangeable(l: Locale, ps: seq<Project>, qs: seq<Project>)
    requires ProjectSum(ps) == ProjectSum(qs)
    requires (exists i :: 0 <= i < |ps| && Overcounted(ps[i])) <==> (exists i :: 0 <= i < |qs| && Overcounted(qs[i]))
    requires forall total :: IsZeroDay(total, ps) <==> IsZeroDay(total, qs)
    requires (HasDetail(ps) <==> HasDetail(qs)) && (HasCoarse(ps) <==> HasCoarse(qs))
    requires Shuffled(AllProjectSlices(ps), AllProjectSlices(qs)) && Shuffled(TotalRows(ps), TotalRows(qs))
    requires Scopes(ps) == Scopes(qs) && SortedProjects(l, ps) == SortedProjects(l, qs)
    ensures Interchangeable(l, ps, qs)
  {
    hide ProjectSum, Overcounted, IsZeroDay, HasDetail, HasCoarse, Shuffled, AllProjectSlices, TotalRows, Scopes,
         SortedProjects;
  }

  lemma ShuffledStep(l: Locale, ps: seq<RawProject>, qs: seq<RawProject>)
    requires Shuffled(ps, qs)
    ensures ProjectsAcceptable(l.text, ps) <==> ProjectsAcceptable(l.text, qs)
    ensures Shuffled(NormalizedProjects(l.text, ps), NormalizedProjects(l.text, qs))
            && Shuffled(ProjectRows(ps), ProjectRows(qs))
  {
    var of := (p: RawProject) => NormalizedProject(l.text, p);
    assert NormalizedProjects(l.text, ps) == Mapped(ps, of) && NormalizedProjects(l.text, qs) == Mapped(qs, of);
    MappedPermuted(ps, qs, of);
    RowsAreFlat(ps);
    RowsAreFlat(qs);
    FlatMappedPermuted(ps, qs, ROWS_OF_PROJECT);
    DistinctByPermuted(ps, qs, PROJECT_NAME);
    SameMembers(ps, qs);
    AcceptableByMembers(l.text, ps);
    AcceptableByMembers(l.text, qs);
    hide NormalizedProjects, ProjectRows, FlatMapped, Mapped, ProjectsAcceptable, ProjectAcceptable;
  }

  lemma AcceptableByMembers(text: TextOps, ps: seq<RawProject>)
    ensures ProjectsAcceptable(text, ps) <==>
            (forall p :: p in ps ==> ProjectAcceptable(text, p)) && DistinctBy(ps, PROJECT_NAME)
  {
    hide ProjectAcceptable;
    assert forall i :: 0 <= i < |ps| ==> ps[i] in ps;
  }

  // ---- Dimension rows of the whole day have unique keys ----

  lemma {:induction false} ProjectRowsShape(ps: seq<RawProject>)
    ensures forall i :: 0 <= i < |ProjectRows(ps)| ==>
              var r := ProjectRows(ps)[i]; r.projectName.Some? && exists j ::
                  0 <= j < |ps| && ps[j].name == r.projectName.value
  {
    if ps != [] {
      var init, last := ps[..|ps| - 1], ps[|ps| - 1];
      ProjectRowsShape(init);
      var rest := ProjectRows(init);
      hide ProjectRows;
      ProjectRowsSplit(ps);
      forall i | 0 <= i < |ProjectRows(ps)|
        ensures var r := ProjectRows(ps)[i];
                r.projectName.Some? && exists j :: 0 <= j < |ps| && ps[j].name == r.projectName.value
      {
        if i < |rest| {
          var j :| 0 <= j < |init| && init[j].name == rest[i].projectName.value;
          assert ps[j] == init[j];
        } else {
          assert ProjectRows(ps)[i] == RowsOf(Some(last.name), last.rows)[i - |rest|];
          assert ps[|ps| - 1].name == last.name;
        }
      }
    }
  }

  lemma ProjectRowsSplit(ps: seq<RawProject>)
    requires ps != []
    ensures ProjectRows(ps) == ProjectRows(ps[..|ps| - 1]) + RowsOf(Some(ps[|ps| - 1].name), ps[|ps| - 1].rows)
  {
  }

  lemma RowsShape(project: Option<string>, rs: seq<RawRow>)
    ensures forall i :: 0 <= i < |RowsOf(project, rs)| ==>
            RowsOf(project, rs)[i].projectName == project && RowsOf(project, rs)[i].dimension != ProjectTotals
  {
  }

  lemma RowKeyTells(r: Row, q: Row)
    requires RowKey(r) == RowKey(q)
    ensures r.projectName == q.projectName && r.name == q.name
            && (r.dimension == ProjectTotals <==> q.dimension == ProjectTotals)
  {
    assert "account"[0] != "project"[0];
    hide DimensionName, TypeName;
    assert RowKey(r)[0] == RowKey(q)[0] && RowKey(r)[1] == RowKey(q)[1] && RowKey(r)[2] == RowKey(q)[2]
           && RowKey(r)[3] == RowKey(q)[3];
    OnlyTotals(r.dimension);
    OnlyTotals(q.dimension);
  }

  lemma OnlyTotals(d: Dimension)
    ensures DimensionName(d) == "project" <==> d == ProjectTotals
  {
  }

  lemma {:induction false} ProjectRowsDistinct(text: TextOps, ps: seq<RawProject>)
    requires ProjectsAcceptable(text, ps)
    ensures DistinctBy(ProjectRows(ps), RowKey)
  {
    if ps != [] {
      var init, last := ps[..|ps| - 1], ps[|ps| - 1];
      AcceptablePrefix(text, ps);
      ProjectRowsDistinct(text, init);
      ProjectRowsShape(init);
      RowsShape(Some(last.name), last.rows);
      var a, b := ProjectRows(init), RowsOf(Some(last.name), last.rows);
      ProjectRowsSplit(ps);
      hide ProjectRows, RowsOf, DistinctBy, RowKey, ProjectsAcceptable;
      forall i, j | 0 <= i < |a| && 0 <= j < |b| ensures RowKey(a[i]) != RowKey(b[j]) {
        if RowKey(a[i]) == RowKey(b[j]) { RowKeyTells(a[i], b[j]); }
      }
      DistinctConcat(a, b, RowKey);
    }
  }

  lemma AcceptablePrefix(text: TextOps, ps: seq<RawProject>)
    requires ProjectsAcceptable(text, ps) && ps != []
    ensures ProjectsAcceptable(text, ps[..|ps| - 1])
            && DistinctBy(RowsOf(Some(ps[|ps| - 1].name), ps[|ps| - 1].rows), RowKey)
    ensures forall j :: 0 <= j < |ps| - 1 ==> ps[j].name != ps[|ps| - 1].name
  {
    assert ProjectAcceptable(text, ps[|ps| - 1]);
    hide NotBlank, EntitiesAcceptable, DistinctBy, RowsOf;
  }

  lemma TotalRowsDistinct(ps: seq<Project>)
    requires NamesDiffer(ps)
    ensures DistinctBy(TotalRows(ps), RowKey)
  {
    forall i, j | 0 <= i < j < |ps| ensures RowKey(TotalRow(ps[i])) != RowKey(TotalRow(ps[j])) {
      if RowKey(TotalRow(ps[i])) == RowKey(TotalRow(ps[j])) { RowKeyTells(TotalRow(ps[i]), TotalRow(ps[j])); }
    }
    hide RowKey, TotalRow;
  }

  lemma DayRowsDistinct(text: TextOps, d: RawDay)
    requires ProjectsAcceptable(text, d.projects) && RowsAcceptable(None, d.rows)
    ensures DistinctBy(DayRows(text, d), RowKey)
  {
    var ps := NormalizedProjects(text, d.projects);
    AcceptedProjects(text, d.projects);
    TotalRowsDistinct(ps);
    ProjectRowsDistinct(text, d.projects);
    ProjectRowsShape(d.projects);
    RowsShape(None, d.rows);
    var a, b, c := TotalRows(ps), ProjectRows(d.projects), RowsOf(None, d.rows);
    assert DistinctBy(c, RowKey);
    assert forall i :: 0 <= i < |a| ==> a[i].projectName == None && a[i].dimension == ProjectTotals;
    hide TotalRows, ProjectRows, RowsOf, DistinctBy, RowKey, ProjectsAcceptable, NormalizedProjects;
    forall i, j | 0 <= i < |a| && 0 <= j < |b| ensures RowKey(a[i]) != RowKey(b[j]) {
      if RowKey(a[i]) == RowKey(b[j]) { RowKeyTells(a[i], b[j]); }
    }
    DistinctConcat(a, b, RowKey);
    var ab := a + b;
    forall i, j | 0 <= i < |ab| && 0 <= j < |c| ensures RowKey(ab[i]) != RowKey(c[j]) {
      if RowKey(ab[i]) == RowKey(c[j]) { RowKeyTells(ab[i], c[j]); }
    }
    DistinctConcat(ab, c, RowKey);
  }

  // ---- The whole day ----

  lemma InterchangeableDay(l: Locale, date: string, d: RawDay, e: RawDay, account: Option<string>,
                           knownZone: string -> bool)
    requires TotalOrder(l.collate)
    requires d.total == e.total && d.timezone == e.timezone && d.metrics == e.metrics && Shuffled(d.rows, e.rows)
    requires ProjectsAcceptable(l.text, d.projects) && ProjectsAcceptable(l.text, e.projects)
    requires Interchangeable(l, NormalizedProjects(l.text, d.projects), NormalizedProjects(l.text, e.projects))
    requires Shuffled(ProjectRows(d.projects), ProjectRows(e.projects))
    ensures Acceptable(l.text, d, account, knownZone) <==> Acceptable(l.text, e, account, knownZone)
    ensures Acceptable(l.text, d, account, knownZone) ==>
            CanonicalDay(l, date, d, account) == CanonicalDay(l, date, e, account)
  {
    var ps, qs := NormalizedProjects(l.text, d.projects), NormalizedProjects(l.text, e.projects);
    RowsShuffled(None, d.rows, e.rows);
    AcceptableIs(l.text, d, account, knownZone);
    AcceptableIs(l.text, e, account, knownZone);
    AcceptedProjects(l.text, d.projects);
    hide *;
    SameZone(d, e, account, knownZone);
    SameSums(l, d.total, ps, qs);
    if Acceptable(l.text, d, account, knownZone) {
      DaySlicesDistinct(d.total, ps);
      SameSorted(l.collate, SliceKey, DaySlices(d.total, ps), DaySlices(d.total, qs));
      DayRowsDistinct(l.text, d);
      var a := TotalRows(ps) + ProjectRows(d.projects) + RowsOf(None, d.rows);
      var b := TotalRows(qs) + ProjectRows(e.projects) + RowsOf(None, e.rows);
      DayRowsIs(l.text, d);
      SameRows(TotalRows(ps), ProjectRows(d.projects), RowsOf(None, d.rows), TotalRows(qs), ProjectRows(e.projects),
          RowsOf(None, e.rows));
      SameSorted(l.collate, RowKey, a, b);
      CanonicalDayIs(l, date, d, account, ps, a, DaySlices(d.total, ps));
      CanonicalDayIs(l, date, e, account, qs, b, DaySlices(e.total, qs));
      SameFacets(l, d.total, ps, qs);
    }
  }

  lemma SameZone(d: RawDay, e: RawDay, account: Option<string>, knownZone: string -> bool)
    requires d.timezone == e.timezone
    ensures TimezoneAcceptable(d, account, knownZone) <==> TimezoneAcceptable(e, account, knownZone)
    ensures Timezone(d, account) == Timezone(e, account)
  {
  }

  lemma DayRowsIs(text: TextOps, d: RawDay)
    ensures DayRows(text, d) == TotalRows(NormalizedProjects(text, d.projects)) + ProjectRows(d.projects)
            + RowsOf(None, d.rows)
  {
  }

  lemma SameRows(a: seq<Row>, b: seq<Row>, c: seq<Row>, a': seq<Row>, b': seq<Row>, c': seq<Row>)
    requires Shuffled(a, a') && Shuffled(b, b') && Shuffled(c, c')
    ensures Shuffled(a + b + c, a' + b' + c')
  {
  }

  lemma SameSorted<T(!new)>(le: (string, string) -> bool, key: T -> seq<string>, a: seq<T>, b: seq<T>)
    requires TotalOrder(le) && Shuffled(a, b) && DistinctBy(a, key)
    ensures Sort(a, ByKey(le, key)) == Sort(b, ByKey(le, key))
  {
    DistinctIsUnique(a, key);
    SortByUniqueKey(le, key, a, b);
  }

  lemma SameDaySlices(l: Locale, total: real, ps: seq<Project>, qs: seq<Project>)
    requires Interchangeable(l, ps, qs)
    ensures Shuffled(DaySlices(total, ps), DaySlices(total, qs))
  {
    hide IsZeroDay, AllProjectSlices, ProjectSum, Overcounted, TotalRows, Scopes, SortedProjects, HasDetail,
         HasCoarse, ResidualSlice;
  }

  lemma SameSums(l: Locale, total: real, ps: seq<Project>, qs: seq<Project>)
    requires Interchangeable(l, ps, qs)
    ensures Shuffled(DaySlices(total, ps), DaySlices(total, qs))
    ensures SumsAcceptable(total, ps) <==> SumsAcceptable(total, qs)
  {
    SameDaySlices(l, total, ps, qs);
    SumByPermuted(DaySlices(total, ps), DaySlices(total, qs), SLICE_SECONDS);
    hide DaySlices, IsZeroDay, AllProjectSlices, ProjectSum, Overcounted, TotalRows, Scopes, SortedProjects,
         HasDetail, HasCoarse, SumBy, Shuffled;
  }

  lemma SameFacets(l: Locale, total: real, ps: seq<Project>, qs: seq<Project>)
    requires Interchangeable(l, ps, qs)
    ensures ProjectSum(ps) == ProjectSum(qs) && (IsZeroDay(total, ps) <==> IsZeroDay(total, qs))
    ensures FidelityOf(total, ps) == FidelityOf(total, qs) && OverallOf(total, ps) == OverallOf(total, qs)
    ensures Scopes(ps) == Scopes(qs) && SortedProjects(l, ps) == SortedProjects(l, qs)
  {
    hide IsZeroDay, AllProjectSlices, ProjectSum, Overcounted, TotalRows, Scopes, SortedProjects, HasDetail, HasCoarse;
  }

  lemma InsideOrderIrrelevant(l: Locale, date: string, d: RawDay, e: RawDay, account: Option<string>,
                              knownZone: string -> bool)
    requires TotalOrder(l.collate) && d == e.(projects := d.projects) && InsideShuffled(d.projects, e.projects)
    ensures Acceptable(l.text, d, account, knownZone) <==> Acceptable(l.text, e, account, knownZone)
    ensures Acceptable(l.text, d, account, knownZone) ==>
            CanonicalDay(l, date, d, account) == CanonicalDay(l, date, e, account)
  {
    var ps, qs := NormalizedProjects(l.text, d.projects), NormalizedProjects(l.text, e.projects);
    InsideStep(l, d.projects, e.projects);
    InsideRows(l.text, d.projects, e.projects);
    AcceptableIs(l.text, d, account, knownZone);
    AcceptableIs(l.text, e, account, knownZone);
    if ProjectsAcceptable(l.text, d.projects) {
      AcceptedProjects(l.text, d.projects);
      assert DistinctEntities(ps);
      assert Shuffled(d.rows, e.rows);
      hide *;
      InsideInterchangeable(l, ps, qs);
      InterchangeableDay(l, date, d, e, account, knownZone);
    }
    hide *;
  }

  lemma OutsideOrderIrrelevant(l: Locale, date: string, d: RawDay, e: RawDay, account: Option<string>,
                               knownZone: string -> bool)
    requires TotalOrder(l.collate) && d == e.(projects := d.projects, rows := d.rows)
    requires Shuffled(d.projects, e.projects) && Shuffled(d.rows, e.rows)
    ensures Acceptable(l.text, d, account, knownZone) <==> Acceptable(l.text, e, account, knownZone)
    ensures Acceptable(l.text, d, account, knownZone) ==>
            CanonicalDay(l, date, d, account) == CanonicalDay(l, date, e, account)
  {
    ShuffledStep(l, d.projects, e.projects);
    AcceptableIs(l.text, d, account, knownZone);
    AcceptableIs(l.text, e, account, knownZone);
    hide *;
    if ProjectsAcceptable(l.text, d.projects) {
      AcceptedProjects(l.text, d.projects);
      ShuffledInterchangeable(l, NormalizedProjects(l.text, d.projects), NormalizedProjects(l.text, e.projects));
      InterchangeableDay(l, date, d, e, account, knownZone);
    }
  }

  /** Rearranging a day changes neither whether normalisation completes nor the day it completes with. */
  lemma OrderIrrelevant(l: Locale, date: string, d: RawDay, e: RawDay, account: Option<string>,
                        knownZone: string -> bool)
    requires TotalOrder(l.collate) && DayShuffled(d, e)
    ensures Acceptable(l.text, d, account, knownZone) <==> Acceptable(l.text, e, account, knownZone)
    ensures Acceptable(l.text, d, account, knownZone) ==>
            CanonicalDay(l, date, d, account) == CanonicalDay(l, date, e, account)
  {
    var inside :| InsideShuffled(d.projects, inside) && Shuffled(inside, e.projects);
    hide *;
    InsideOrderIrrelevant(l, date, d, d.(projects := inside), account, knownZone);
    OutsideOrderIrrelevant(l, date, d.(projects := inside), e, account, knownZone);
  }
}
