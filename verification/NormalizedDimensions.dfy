/**
 Dimension rows of a normalised day against the unique index of their table. The normaliser tells rows apart by
 entity type and machine as well, the index does not.
 */
module NormalizedDimensions {
  import opened Options
  import opened Text
  import opened Orders
  import opened Rearrange
  import opened Locales
  import opened SummaryDay
  import opened Normalize
  import opened Rearranged
  import opened ArchiveModel
  import opened NormalizedDays

  function ScopeKey(r: RawRow): (Dimension, string) {
    (r.dimension, r.name)
  }

  /** No scope of the day has two rows of one dimension and name. */
  predicate OneRowPerName(d: RawDay) {
    (forall i | 0 <= i < |d.projects| :: DistinctBy(d.projects[i].rows, ScopeKey)) && DistinctBy(d.rows, ScopeKey)
  }

  lemma DistinctConcatIff<T, U>(a: seq<T>, b: seq<T>, key: T -> U)
    requires forall i, j :: 0 <= i < |a| && 0 <= j < |b| ==> key(a[i]) != key(b[j])
    ensures DistinctBy(a + b, key) <==> DistinctBy(a, key) && DistinctBy(b, key)
  {
    var all := a + b;
    if DistinctBy(all, key) {
      forall i, j | 0 <= i < j < |a| ensures key(a[i]) != key(a[j]) { assert all[i] == a[i] && all[j] == a[j]; }
      forall i, j | 0 <= i < j < |b| ensures key(b[i]) != key(b[j]) {
        assert all[|a| + i] == b[i] && all[|a| + j] == b[j];
      }
    }
  }

  lemma ScopeRowsDistinct(project: Option<string>, rs: seq<RawRow>)
    ensures DistinctBy(RowsOf(project, rs), DimensionKey) <==> DistinctBy(rs, ScopeKey)
  {
    var rows := RowsOf(project, rs);
    forall i, j | 0 <= i < j < |rs| ensures DimensionKey(rows[i]) != DimensionKey(rows[j])
        <==> ScopeKey(rs[i]) != ScopeKey(rs[j]) {
    }
  }

  lemma {:induction false} ProjectDimensions(text: TextOps, ps: seq<RawProject>)
    requires ProjectsAcceptable(text, ps)
    ensures DistinctBy(ProjectRows(ps), DimensionKey) <==> forall i :: 0 <= i < |ps| ==>
            DistinctBy(ps[i].rows, ScopeKey)
  {
    if ps != [] {
      var init, last := ps[..|ps| - 1], ps[|ps| - 1];
      AcceptablePrefix(text, ps);
      ProjectDimensions(text, init);
      ProjectRowsShape(init);
      RowsShape(Some(last.name), last.rows);
      ScopeRowsDistinct(Some(last.name), last.rows);
      ProjectRowsSplit(ps);
      var a, b := ProjectRows(init), RowsOf(Some(last.name), last.rows);
      hide ProjectRows, RowsOf, DistinctBy, ProjectsAcceptable;
      assert forall i :: 0 <= i < |init| ==> ps[i] == init[i];
      forall i, j | 0 <= i < |a| && 0 <= j < |b| ensures DimensionKey(a[i]) != DimensionKey(b[j]) {
        assert DimensionKey(a[i]).0 != DimensionKey(b[j]).0;
      }
      DistinctConcatIff(a, b, DimensionKey);
    }
  }

  lemma TotalDimensions(ps: seq<Project>)
    requires NamesDiffer(ps)
    ensures DistinctBy(TotalRows(ps), DimensionKey)
    ensures forall i :: 0 <= i < |TotalRows(ps)| ==>
            TotalRows(ps)[i].projectName.None? && TotalRows(ps)[i].dimension == ProjectTotals
  {
    var rows := TotalRows(ps);
    forall i, j | 0 <= i < j < |ps| ensures DimensionKey(rows[i]) != DimensionKey(rows[j]) {
      assert DimensionKey(rows[i]).2 == ps[i].name && DimensionKey(rows[j]).2 == ps[j].name;
    }
  }

  lemma DayDimensions(text: TextOps, d: RawDay)
    requires ProjectsAcceptable(text, d.projects)
    ensures DistinctBy(DayRows(text, d), DimensionKey) <==> OneRowPerName(d)
  {
    var ps := NormalizedProjects(text, d.projects);
    AcceptedProjects(text, d.projects);
    TotalDimensions(ps);
    ProjectDimensions(text, d.projects);
    ScopeRowsDistinct(None, d.rows);
    ProjectRowsShape(d.projects);
    RowsShape(None, d.rows);
    DayRowsIs(text, d);
    var a, b, c := TotalRows(ps), ProjectRows(d.projects), RowsOf(None, d.rows);
    hide TotalRows, ProjectRows, RowsOf, DistinctBy, ProjectsAcceptable, NormalizedProjects, DayRows;
    forall i, j | 0 <= i < |a| && 0 <= j < |b| ensures DimensionKey(a[i]) != DimensionKey(b[j]) {
      assert DimensionKey(a[i]).0 != DimensionKey(b[j]).0;
    }
    DistinctConcatIff(a, b, DimensionKey);
    var ab := a + b;
    forall i, j | 0 <= i < |ab| && 0 <= j < |c| ensures DimensionKey(ab[i]) != DimensionKey(c[j]) {
      if i < |a| {
        assert DimensionKey(ab[i]).1 != DimensionKey(c[j]).1;
      } else {
        assert DimensionKey(ab[i]).0 != DimensionKey(c[j]).0;
      }
    }
    DistinctConcatIff(ab, c, DimensionKey);
  }

  lemma CanonicalRows(l: Locale, date: string, d: RawDay, account: Option<string>)
    ensures var day := CanonicalDay(l, date, d, account);
            && multiset(day.rows) == multiset(DayRows(l.text, d))
            && (forall r :: r in day.rows <==> r in DayRows(l.text, d))
            && day.projects == SortedProjects(l, NormalizedProjects(l.text, d.projects))
  {
    SortContents(DayRows(l.text, d), ByKey(l.collate, RowKey));
    SortMembers(DayRows(l.text, d), ByKey(l.collate, RowKey));
    hide NormalizedProjects, DaySlices, Scopes, IsZeroDay, FidelityOf, OverallOf, Sort, SortedProjects, DayRows,
         Timezone, ProjectSum, ByKey;
  }

  lemma SortedNames(l: Locale, ps: seq<Project>, name: string)
    requires exists i :: 0 <= i < |ps| && ps[i].name == name
    ensures exists i :: 0 <= i < |SortedProjects(l, ps)| && SortedProjects(l, ps)[i].name == name
  {
    var k :| 0 <= k < |ps| && ps[k].name == name;
    var le := ByKey(l.collate, ProjectKey);
    SortMembers(ps, le);
    hide ByKey, ProjectKey;
    var sorted := Sort(ps, le);
    hide Sort;
    assert ps[k] in sorted;
    var i :| 0 <= i < |sorted| && sorted[i] == ps[k];
    assert SortedProjects(l, ps)[i].name == name;
  }

  /** Rows of project scope always find their project. */
  lemma DimensionsHaveProjects(l: Locale, date: string, d: RawDay, account: Option<string>)
    requires ProjectsAcceptable(l.text, d.projects)
    ensures var day := CanonicalDay(l, date, d, account);
            forall i :: 0 <= i < |day.rows| ==> HasProjectId(day, day.rows[i])
  {
    hide *;
    var day, ps := CanonicalDay(l, date, d, account), NormalizedProjects(l.text, d.projects);
    CanonicalRows(l, date, d, account);
    NamesNotBlank(l.text, d.projects);
    SameCount(l.text, d.projects);
    NamesKept(l.text, d.projects);
    forall i | 0 <= i < |day.rows| ensures HasProjectId(day, day.rows[i]) {
      var r := day.rows[i];
      assert r in day.rows;
      RowProjects(l.text, d, r);
      if r.projectName.Some? {
        var j :| 0 <= j < |d.projects| && d.projects[j].name == r.projectName.value;
        assert ps[j].name == r.projectName.value;
        SortedNames(l, ps, r.projectName.value);
      }
      ListedHasId(day, r);
    }
  }

  lemma NamesKept(text: TextOps, ps: seq<RawProject>)
    ensures forall i :: 0 <= i < |ps| && i < |NormalizedProjects(text, ps)| ==>
            NormalizedProjects(text, ps)[i].name == ps[i].name
  {
  }

  lemma RowProjects(text: TextOps, d: RawDay, r: Row)
    requires r in DayRows(text, d)
    ensures r.projectName.Some? ==> exists j :: 0 <= j < |d.projects| && d.projects[j].name == r.projectName.value
  {
    DayRowsIs(text, d);
    ProjectRowsShape(d.projects);
    RowsShape(None, d.rows);
    var a := TotalRows(NormalizedProjects(text, d.projects));
    assert forall i :: 0 <= i < |a| ==> a[i].projectName.None?;
    hide TotalRows, ProjectRows, RowsOf, DayRows, NormalizedProjects;
  }

  lemma ListedHasId(day: Day, r: Row)
    requires r.projectName.Some? ==> r.projectName.value != "" && exists i ::
             0 <= i < |day.projects| && day.projects[i].name == r.projectName.value
    ensures HasProjectId(day, r)
  {
  }

  /** The table takes the rows of a normalised day exactly when no scope has two rows of one dimension and name. */
  lemma NormalizedDimensionsIff(l: Locale, date: string, d: RawDay, account: Option<string>, knownZone: string -> bool)
    requires Acceptable(l.text, d, account, knownZone)
    ensures DimensionsStorable(CanonicalDay(l, date, d, account)) <==> OneRowPerName(d)
  {
    hide *;
    var day := CanonicalDay(l, date, d, account);
    AcceptableIs(l.text, d, account, knownZone);
    CanonicalRows(l, date, d, account);
    DayDimensions(l.text, d);
    DimensionsHaveProjects(l, date, d, account);
    DistinctByPermuted(day.rows, DayRows(l.text, d), DimensionKey);
    StorableIs(day);
  }

  lemma StorableIs(day: Day)
    ensures DimensionsStorable(day) <==>
            (forall i :: 0 <= i < |day.rows| ==> HasProjectId(day, day.rows[i])) && DistinctBy(day.rows, DimensionKey)
  {
    hide HasProjectId, DistinctBy;
  }

  // ---- Two machines of one name ----

  const TWO_LAPTOPS := RawDay(0.0, Some("UTC"), [], [
    RawRow(MachineUse, "laptop", 0.0, None, None, Some("a"), ""),
    RawRow(MachineUse, "laptop", 0.0, None, None, Some("b"), "")
  ], NO_METRICS)

  /** A day that the normaliser completes and the table refuses. */
  lemma AcceptedButNotStorable(l: Locale, date: string, knownZone: string -> bool)
    requires knownZone("UTC")
    ensures Acceptable(l.text, TWO_LAPTOPS, None, knownZone)
            && !DimensionsStorable(CanonicalDay(l, date, TWO_LAPTOPS, None))
  {
    var d := TWO_LAPTOPS;
    assert RowsAcceptable(None, d.rows) by {
      assert Trim("laptop") == "laptop";
      var rows := RowsOf(None, d.rows);
      assert RowKey(rows[0])[5] == "a" && RowKey(rows[1])[5] == "b";
    }
    assert NormalizedProjects(l.text, d.projects) == [];
    ZeroDayPasses(l.text, d, knownZone);
    assert !OneRowPerName(d) by { assert ScopeKey(d.rows[0]) == ScopeKey(d.rows[1]); }
    NormalizedDimensionsIff(l, date, d, None, knownZone);
  }

  lemma ZeroDayPasses(text: TextOps, d: RawDay, knownZone: string -> bool)
    requires d.total == 0.0 && d.projects == [] && d.timezone == Some("UTC") && knownZone("UTC")
             && RowsAcceptable(None, d.rows)
    ensures Acceptable(text, d, None, knownZone)
  {
    hide RowsAcceptable;
    assert NormalizedProjects(text, d.projects) == [];
  }
}
