/** The normaliser of a summaries day: loops that validate, generate slices and sort. */
module Normalize {
  import opened Options
  import opened SliceTypes
  import opened Text
  import opened Orders
  import opened Rearrange
  import opened Locales
  import opened SummaryDay
  import Calendar

  datatype Result = Complete(day: Day) | Failed(code: Code)

  /** What a code says about the input. */
  ghost predicate Explains(code: Code, text: TextOps, date: string, d: RawDay, account: Option<string>,
                           knownZone: string -> bool) {
    var ps := NormalizedProjects(text, d.projects);
    match code
    case MissingRequestedDate => !Calendar.IsValidDateString(date)
    case NegativeResidual => d.total < 0.0
    case TimezoneMismatch => !TimezoneAcceptable(d, account, knownZone)
    case OvercountToleranceExceeded =>
        (exists i :: 0 <= i < |ps| && Overcounted(ps[i])) || ProjectSum(ps) - d.total > TOLERANCE
    case MathematicalInvariantViolation =>
      || RepeatsAName(d.projects)
      || (exists i :: 0 <= i < |d.projects| && HasNegativeSeconds(d.projects[i]))
      || Abs(SumBy(DaySlices(d.total, ps), SLICE_SECONDS) - d.total) > TOLERANCE
    case IncompleteBody =>
      || (exists i :: 0 <= i < |d.projects| && IsIncomplete(text, d.projects[i]))
      || !RowsAcceptable(None, d.rows)
  }

  ghost predicate RepeatsAName(ps: seq<RawProject>) {
    exists i, j :: 0 <= i < j < |ps| && ps[i].name == ps[j].name
  }

  ghost predicate HasNegativeSeconds(p: RawProject) {
    p.seconds < 0.0 || (p.entities.Some? && exists i ::
        0 <= i < |p.entities.value| && p.entities.value[i].seconds < 0.0)
  }

  ghost predicate IsIncomplete(text: TextOps, p: RawProject) {
    || !NotBlank(p.name)
    || (p.entities.Some? && EntitiesIncomplete(text, p.entities.value))
    || !RowsAcceptable(Some(p.name), p.rows)
  }

  ghost predicate EntitiesIncomplete(text: TextOps, es: seq<RawEntity>) {
    (exists i :: 0 <= i < |es| && !NotBlank(es[i].name)) || !DistinctBy(NormalizedEntities(text, es), EntityKey)
  }

  ghost predicate SeenBy<T>(seen: set<seq<string>>, s: seq<T>, key: T -> seq<string>) {
    forall k :: k in seen <==> exists i :: 0 <= i < |s| && key(s[i]) == k
  }

  lemma Extend<T>(seen: set<seq<string>>, s: seq<T>, x: T, key: T -> seq<string>)
    requires DistinctBy(s, key) && SeenBy(seen, s, key) && key(x) !in seen
    ensures DistinctBy(s + [x], key) && SeenBy(seen + {key(x)}, s + [x], key)
  {
    var all := s + [x];
    forall i, j | 0 <= i < j < |all| ensures key(all[i]) != key(all[j]) {
      if j == |s| { assert key(s[i]) in seen; }
    }
    forall k ensures k in seen + {key(x)} <==> exists i :: 0 <= i < |all| && key(all[i]) == k {
      if k in seen { var i :| 0 <= i < |s| && key(s[i]) == k; assert all[i] == s[i]; }
      assert key(all[|s|]) == key(x);
    }
  }

  lemma Repeats<T>(seen: set<seq<string>>, s: seq<T>, n: nat, key: T -> seq<string>)
    requires n < |s| && SeenBy(seen, s[..n], key) && key(s[n]) in seen
    ensures !DistinctBy(s, key)
  {
    var i :| 0 <= i < |s[..n]| && key(s[..n][i]) == key(s[n]);
    assert s[i] == s[..n][i];
  }

  lemma NothingSeen<T>(key: T -> seq<string>)
    ensures DistinctBy<T, seq<string>>([], key) && SeenBy<T>({}, [], key)
  {
  }

  /** The loop over the entities of one project. */
  method ReadEntities(text: TextOps, es: seq<RawEntity>) returns (error: Option<Code>, entities: seq<RawEntity>)
    ensures error.None? <==> EntitiesAcceptable(text, es)
    ensures error.None? ==> entities == NormalizedEntities(text, es)
    ensures error.Some? ==> (error.value == IncompleteBody && EntitiesIncomplete(text, es))
                            || (error.value == MathematicalInvariantViolation && exists i ::
                               0 <= i < |es| && es[i].seconds < 0.0)
  {
    entities := [];
    var seen: set<seq<string>> := {};
    ghost var all := NormalizedEntities(text, es);
    NothingSeen(EntityKey);
    hide SeenBy, DistinctBy, NormalizedEntity, NotBlank;
    for i := 0 to |es|
      invariant entities == all[..i]
      invariant DistinctBy(entities, EntityKey) && SeenBy(seen, entities, EntityKey)
      invariant forall j :: 0 <= j < i ==> NotBlank(es[j].name) && es[j].seconds >= 0.0
    {
      if !NotBlank(es[i].name) { return Some(IncompleteBody), []; }
      if es[i].seconds < 0.0 { return Some(MathematicalInvariantViolation), []; }
      var e := NormalizedEntity(text, es[i]);
      assert all[i] == e;
      var key := EntityKey(e);
      if key in seen {
        Repeats(seen, all, i, EntityKey);
        return Some(IncompleteBody), [];
      }
      Extend(seen, entities, e, EntityKey);
      seen := seen + {key};
      entities := entities + [e];
      assert all[..i + 1] == all[..i] + [e];
    }
    assert all[..|es|] == all;
    error := None;
  }

  ghost function RowKeys(project: Option<string>, rs: seq<RawRow>): set<seq<string>> {
    set r | r in rs :: RowKey(RowOf(project, r))
  }

  /** extractScopedDimensions: the rows of one scope; keys of other scopes are in `taken`. */
  method ReadRows(project: Option<string>, rs: seq<RawRow>, taken: set<seq<string>>)
    returns (ok: bool, rows: seq<Row>, seen: set<seq<string>>)
    requires RowKeys(project, rs) !! taken
    ensures ok <==> RowsAcceptable(project, rs)
    ensures ok ==> rows == RowsOf(project, rs) && seen == taken + RowKeys(project, rs)
  {
    rows := [];
    seen := taken;
    ghost var own: set<seq<string>> := {};
    ghost var all := RowsOf(project, rs);
    NothingSeen(RowKey);
    hide SeenBy, DistinctBy, RowOf, NotBlank, RowKey;
    for i := 0 to |rs|
      invariant rows == all[..i]
      invariant DistinctBy(rows, RowKey) && SeenBy(own, rows, RowKey)
      invariant seen == taken + own && own == RowKeys(project, rs[..i])
      invariant forall j :: 0 <= j < i ==> NotBlank(rs[j].name) && rs[j].seconds >= 0.0
    {
      if !NotBlank(rs[i].name) || rs[i].seconds < 0.0 { return false, [], {}; }
      var row := RowOf(project, rs[i]);
      assert all[i] == row && RowKey(row) in RowKeys(project, rs);
      var key := RowKey(row);
      if key in seen {
        Repeats(own, all, i, RowKey);
        return false, [], {};
      }
      Extend(own, rows, row, RowKey);
      assert rs[..i + 1] == rs[..i] + [rs[i]];
      own := own + {key};
      seen := seen + {key};
      rows := rows + [row];
      assert all[..i + 1] == all[..i] + [row];
    }
    assert all[..|rs|] == all && rs[..|rs|] == rs;
    ok := true;
  }

  // ---- The loop over the projects ----

  ghost predicate ProjectKeys(seen: set<seq<string>>, names: set<string>) {
    forall k :: k in seen ==> |k| == 6 && k[0] == "project" && k[1] in names
  }

  lemma RowKeysAreFresh(project: string, rs: seq<RawRow>, seen: set<seq<string>>, names: set<string>)
    requires ProjectKeys(seen, names) && project !in names
    ensures RowKeys(Some(project), rs) !! seen
    ensures ProjectKeys(seen + RowKeys(Some(project), rs), names + {project})
  {
    hide DimensionName, TypeName;
    assert forall k :: k in RowKeys(Some(project), rs) ==> |k| == 6 && k[0] == "project" && k[1] == project;
  }

  datatype Reading = Reading(projects: seq<Project>, scopes: map<string, Scope>, rows: seq<Row>, sum: real,
                             names: set<string>, seen: set<seq<string>>)

  ghost function Names(ps: seq<RawProject>): set<string> {
    set p | p in ps :: p.name
  }

  ghost predicate HasRead(r: Reading, text: TextOps, ps: seq<RawProject>) {
    && r.projects == NormalizedProjects(text, ps)
    && r.scopes == Scopes(r.projects)
    && r.rows == ProjectRows(ps)
    && r.sum == ProjectSum(r.projects)
    && r.names == Names(ps)
    && ProjectKeys(r.seen, r.names)
  }

  lemma ReadOneMore(r: Reading, text: TextOps, ps: seq<RawProject>, i: nat, p: Project, seen: set<seq<string>>)
    requires i < |ps| && HasRead(r, text, ps[..i]) && p == NormalizedProject(text, ps[i])
             && ProjectKeys(seen, r.names + {p.name})
    ensures HasRead(Reading(r.projects + [p], r.scopes[p.name := ScopeOf(p)], r.rows + RowsOf(Some(p.name), ps[i].rows),
                            r.sum + p.seconds, r.names + {p.name}, seen), text, ps[..i + 1])
  {
    hide NormalizedProject, ScopeOf, RowOf, ProjectKeys;
    assert p.name == ps[i].name by { NameKept(text, ps[i]); }
    var all := NormalizedProjects(text, ps[..i + 1]);
    assert all == r.projects + [p];
    assert all[..i] == r.projects;
    assert ps[..i + 1][..i] == ps[..i];
    assert ps[..i + 1] == ps[..i] + [ps[i]];
    assert Names(ps[..i + 1]) == Names(ps[..i]) + {p.name};
  }

  lemma NameKept(text: TextOps, p: RawProject)
    ensures NormalizedProject(text, p).name == p.name && NormalizedProject(text, p).seconds == p.seconds
            && NormalizedProject(text, p).percent == p.percent
    ensures NormalizedProject(text, p).state == StateOf(p)
    ensures NormalizedProject(text, p).entities == if p.entities.Some?
            then NormalizedEntities(text, p.entities.value) else []
  {
  }

  /** One project: identity, totals, entities and rows. */
  method ReadProject(text: TextOps, p: RawProject, names: set<string>, seen: set<seq<string>>)
    returns (error: Option<Code>, project: Project, rows: seq<Row>, seen': set<seq<string>>)
    requires ProjectKeys(seen, names)
    ensures error.None? <==> ProjectAcceptable(text, p) && p.name !in names
    ensures error.None? ==>
            project == NormalizedProject(text, p) && rows == RowsOf(Some(p.name), p.rows)
            && ProjectKeys(seen', names + {p.name})
    ensures error.Some? ==> (error.value == IncompleteBody && IsIncomplete(text, p))
                            || (error.value == MathematicalInvariantViolation
                               && (p.name in names || HasNegativeSeconds(p)))
  {
    project, rows, seen' := Project(p.name, p.seconds, p.percent, Absent, []), [], seen;
    NameKept(text, p);
    hide NotBlank, EntitiesAcceptable, EntitiesIncomplete, RowsAcceptable, RowOf, NormalizedProject, ProjectKeys,
         NormalizedEntity;
    if !NotBlank(p.name) { return Some(IncompleteBody), project, rows, seen; }
    if p.name in names { return Some(MathematicalInvariantViolation), project, rows, seen; }
    if p.seconds < 0.0 { return Some(MathematicalInvariantViolation), project, rows, seen; }
    if p.entities.Some? {
      var failure, entities := ReadEntities(text, p.entities.value);
      if failure.Some? { return failure, project, rows, seen; }
      project := project.(state := if |p.entities.value| == 0 then Empty else Present, entities := entities);
    }
    RowKeysAreFresh(p.name, p.rows, seen, names);
    var ok;
    ok, rows, seen' := ReadRows(Some(p.name), p.rows, seen);
    if !ok { return Some(IncompleteBody), project, rows, seen; }
    error := None;
  }

  lemma NothingRead(text: TextOps)
    ensures HasRead(Reading([], map[], [], 0.0, {}, {}), text, [])
  {
  }

  method ReadProjects(text: TextOps, ps: seq<RawProject>) returns (error: Option<Code>, r: Reading)
    ensures error.None? <==> ProjectsAcceptable(text, ps)
    ensures error.None? ==> HasRead(r, text, ps)
    ensures error.Some? ==> (error.value == IncompleteBody && exists i :: 0 <= i < |ps| && IsIncomplete(text, ps[i]))
                            || (error.value == MathematicalInvariantViolation
                                && (RepeatsAName(ps) || exists i :: 0 <= i < |ps| && HasNegativeSeconds(ps[i])))
  {
    r := Reading([], map[], [], 0.0, {}, {});
    NothingRead(text);
    assert ps[..0] == [];
    hide *;
    for i := 0 to |ps|
      invariant HasRead(r, text, ps[..i]) && ProjectsAcceptable(text, ps[..i])
    {
      ReadNames(r, text, ps[..i]);
      var failure, project, rows, seen := ReadProject(text, ps[i], r.names, r.seen);
      AcceptOneMore(text, ps, i);
      if failure.Some? { return failure, r; }
      NameKept(text, ps[i]);
      ReadOneMore(r, text, ps, i, project, seen);
      r := Reading(r.projects + [project], r.scopes[project.name := ScopeOf(project)], r.rows + rows,
          r.sum + project.seconds,
                   r.names + {project.name}, seen);
    }
    assert ps[..|ps|] == ps;
    error := None;
  }

  lemma ReadNames(r: Reading, text: TextOps, ps: seq<RawProject>)
    requires HasRead(r, text, ps)
    ensures r.names == Names(ps) && ProjectKeys(r.seen, r.names)
  {
    hide NormalizedProjects, Scopes, ProjectRows, ProjectSum, ProjectKeys, Names;
  }

  /** Extending an acceptable prefix by one project. */
  lemma AcceptOneMore(text: TextOps, ps: seq<RawProject>, i: nat)
    requires i < |ps| && ProjectsAcceptable(text, ps[..i])
    ensures ProjectsAcceptable(text, ps[..i + 1]) <==> ProjectAcceptable(text, ps[i]) && ps[i].name !in Names(ps[..i])
    ensures !ProjectsAcceptable(text, ps[..i + 1]) ==> !ProjectsAcceptable(text, ps)
    ensures ps[i].name in Names(ps[..i]) ==> RepeatsAName(ps)
  {
    hide ProjectAcceptable;
    var init, next := ps[..i], ps[..i + 1];
    assert forall j :: 0 <= j < i ==> next[j] == init[j] == ps[j];
    assert next[i] == ps[i];
    if ps[i].name in Names(init) {
      var p :| p in init && p.name == ps[i].name;
      var j :| 0 <= j < |init| && init[j] == p;
      assert ps[j].name == ps[i].name && next[j].name == next[i].name;
    }
  }

  // ---- Overcounts, slices and merging ----

  method SumEntities(es: seq<RawEntity>) returns (sum: real)
    ensures sum == SumBy(es, ENTITY_SECONDS)
  {
    sum := 0.0;
    assert es[..0] == [];
    for i := 0 to |es|
      invariant sum == SumBy(es[..i], ENTITY_SECONDS)
    {
      assert es[..i + 1][..i] == es[..i];
      sum := sum + es[i].seconds;
    }
    assert es[..|es|] == es;
  }

  method FindOvercount(ps: seq<Project>) returns (found: bool)
    ensures found <==> exists i :: 0 <= i < |ps| && Overcounted(ps[i])
  {
    for i := 0 to |ps|
      invariant forall j :: 0 <= j < i ==> !Overcounted(ps[j])
    {
      if ps[i].state == Present {
        var sum := SumEntities(ps[i].entities);
        if sum - ps[i].seconds > TOLERANCE { return true; }
      }
    }
    found := false;
  }

  method GenerateProjectSlices(p: Project) returns (slices: seq<NormalizedSlice>)
    requires p.state != Present ==> p.entities == []
    ensures slices == ProjectSlices(p)
  {
    slices := [];
    if p.state == Present {
      var sum := 0.0;
      hide EntitySliceOf;
      assert p.entities[..0] == [];
      for i := 0 to |p.entities|
        invariant sum == SumBy(p.entities[..i], ENTITY_SECONDS)
        invariant slices == EntitySlices(p.name, p.entities[..i])
      {
        assert p.entities[..i + 1][..i] == p.entities[..i];
        sum := sum + p.entities[i].seconds;
        slices := slices + [EntitySliceOf(p.name, p.entities[i])];
      }
      assert p.entities[..|p.entities|] == p.entities;
      if p.seconds - sum > 0.0 {
        slices := slices + [SummarySlice(p.name, p.seconds - sum)];
      }
    } else if p.seconds > 0.0 {
      slices := [SummarySlice(p.name, p.seconds)];
    }
  }

  ghost predicate StatesFit(ps: seq<Project>) {
    forall i :: 0 <= i < |ps| ==> (ps[i].state == Present <==> ps[i].entities != [])
  }

  method GenerateSlices(total: real, sum: real, ps: seq<Project>, isZero: bool) returns (slices: seq<NormalizedSlice>)
    requires sum == ProjectSum(ps) && isZero == IsZeroDay(total, ps) && StatesFit(ps)
    ensures slices == DaySlices(total, ps)
  {
    slices := [];
    if !isZero {
      hide ProjectSlices, IsZeroDay;
      assert ps[..0] == [];
      for i := 0 to |ps|
        invariant slices == AllProjectSlices(ps[..i])
      {
        assert ps[..i + 1][..i] == ps[..i];
        var more := GenerateProjectSlices(ps[i]);
        slices := slices + more;
      }
      assert ps[..|ps|] == ps;
      var residual := total - sum;
      if residual > 0.0 {
        slices := slices + [ResidualSlice(residual)];
      }
    }
  }

  function AddedTo(s: NormalizedSlice, more: NormalizedSlice): NormalizedSlice {
    s.(seconds := s.seconds + more.seconds,
       metrics := Metrics(s.metrics.humanAdditions + more.metrics.humanAdditions,
           s.metrics.humanDeletions + more.metrics.humanDeletions,
                          s.metrics.aiAdditions + more.metrics.aiAdditions,
                              s.metrics.aiDeletions + more.metrics.aiDeletions,
                          s.metrics.aiSessions + more.metrics.aiSessions))
  }

  /** The merge map: slices with an equal key are added up; distinct slices pass through in order. */
  method MergeSlices(raw: seq<NormalizedSlice>) returns (slices: seq<NormalizedSlice>)
    ensures DistinctBy(raw, SliceKey) ==> slices == raw
    ensures SumBy(slices, SLICE_SECONDS) == SumBy(raw, SLICE_SECONDS)
  {
    slices := [];
    var index: map<seq<string>, nat> := map[];
    assert raw[..0] == [] && MergedTo(raw, [], index, []) && Within(index, 0);
    hide *;
    for i := 0 to |raw|
      invariant Within(index, |slices|) && MergedTo(raw, raw[..i], index, slices)
    {
      var key := SliceKey(raw[i]);
      NextMerged(raw, i, index, slices);
      if key in index {
        IsWithin(index, |slices|, key);
        slices := slices[index[key] := AddedTo(slices[index[key]], raw[i])];
      } else {
        WithinMore(index, key, |slices|);
        index := index[key := |slices|];
        slices := slices + [raw[i]];
      }
    }
    assert raw[..|raw|] == raw;
    AllMerged(raw, index, slices);
  }

  /** What the loop has made of the slices read so far. */
  ghost predicate MergedTo(raw: seq<NormalizedSlice>, read: seq<NormalizedSlice>, index: map<seq<string>, nat>,
                           slices: seq<NormalizedSlice>) {
    && (DistinctBy(raw, SliceKey) ==> slices == read && KeysRead(index, read))
    && SumBy(slices, SLICE_SECONDS) == SumBy(read, SLICE_SECONDS)
  }

  lemma AllMerged(raw: seq<NormalizedSlice>, index: map<seq<string>, nat>, slices: seq<NormalizedSlice>)
    requires MergedTo(raw, raw, index, slices)
    ensures DistinctBy(raw, SliceKey) ==> slices == raw
    ensures SumBy(slices, SLICE_SECONDS) == SumBy(raw, SLICE_SECONDS)
  {
    hide DistinctBy, SumBy, KeysRead;
  }

  lemma NextMerged(raw: seq<NormalizedSlice>, i: nat, index: map<seq<string>, nat>, slices: seq<NormalizedSlice>)
    requires i < |raw| && Within(index, |slices|) && MergedTo(raw, raw[..i], index, slices)
    ensures var key := SliceKey(raw[i]);
            if key in index then
              index[key] < |slices|
              && MergedTo(raw, raw[..i + 1], index, slices[index[key] := AddedTo(slices[index[key]], raw[i])])
            else MergedTo(raw, raw[..i + 1], index[key := |slices|], slices + [raw[i]])
  {
    var key := SliceKey(raw[i]);
    assert raw[..i + 1] == raw[..i] + [raw[i]];
    NextKey(index, raw, i, |slices|);
    SumOfNext(raw[..i], raw[i]);
    SumOfNext(slices, raw[i]);
    if key in index { MergeOne(slices, index[key], raw[i]); }
    hide SliceKey, AddedTo, SumBy, KeysRead, DistinctBy;
  }

  lemma IsWithin(index: map<seq<string>, nat>, n: nat, key: seq<string>)
    requires Within(index, n) && key in index
    ensures index[key] < n
  {
  }

  ghost predicate Within(index: map<seq<string>, nat>, n: nat) {
    forall k :: k in index ==> index[k] < n
  }

  lemma WithinMore(index: map<seq<string>, nat>, key: seq<string>, n: nat)
    requires Within(index, n)
    ensures Within(index[key := n], n + 1)
  {
  }

  /** All keys of the index are keys of slices read so far. */
  ghost predicate KeysRead(index: map<seq<string>, nat>, read: seq<NormalizedSlice>) {
    forall k :: k in index ==> exists j :: 0 <= j < |read| && SliceKey(read[j]) == k
  }

  lemma NextKey(index: map<seq<string>, nat>, raw: seq<NormalizedSlice>, i: nat, n: nat)
    requires i < |raw|
    ensures DistinctBy(raw, SliceKey) && KeysRead(index, raw[..i]) ==>
              SliceKey(raw[i]) !in index && KeysRead(index[SliceKey(raw[i]) := n], raw[..i + 1])
  {
    hide SliceKey;
    if DistinctBy(raw, SliceKey) && KeysRead(index, raw[..i]) {
      var next := raw[..i + 1];
      forall k | k in index ensures k != SliceKey(raw[i]) && exists j :: 0 <= j < |next| && SliceKey(next[j]) == k {
        var j :| 0 <= j < i && SliceKey(raw[..i][j]) == k;
        assert SliceKey(next[j]) == k && SliceKey(raw[j]) == k;
      }
      assert SliceKey(next[i]) == SliceKey(raw[i]);
    }
  }

  lemma SumOfNext(slices: seq<NormalizedSlice>, s: NormalizedSlice)
    ensures SumBy(slices + [s], SLICE_SECONDS) == SumBy(slices, SLICE_SECONDS) + s.seconds
  {
    assert (slices + [s])[..|slices|] == slices;
  }

  lemma MergeOne(slices: seq<NormalizedSlice>, k: nat, more: NormalizedSlice)
    requires k < |slices|
    ensures SumBy(slices[k := AddedTo(slices[k], more)], SLICE_SECONDS) == SumBy(slices, SLICE_SECONDS) + more.seconds
  {
    var merged := slices[k := AddedTo(slices[k], more)];
    SumByRemove(slices, k, SLICE_SECONDS);
    SumByRemove(merged, k, SLICE_SECONDS);
    assert merged[..k] == slices[..k] && merged[k + 1..] == slices[k + 1..];
    hide SumBy;
  }

  // ---- No two generated slices share a key ----

  lemma DistinctConcat<T>(a: seq<T>, b: seq<T>, key: T -> seq<string>)
    requires DistinctBy(a, key) && DistinctBy(b, key)
    requires forall i, j :: 0 <= i < |a| && 0 <= j < |b| ==> key(a[i]) != key(b[j])
    ensures DistinctBy(a + b, key)
  {
  }

  lemma KindsDiffer()
    ensures KindName(EntitySlice) != KindName(ProjectSummary)
            && KindName(ProjectSummary) != KindName(UnattributedResidual)
    ensures KindName(EntitySlice) != KindName(UnattributedResidual)
  {
    assert "entity"[0] != "project_summary"[0] && "entity"[0] != "unattributed_residual"[0]
           && "project_summary"[0] != "unattributed_residual"[0];
  }

  /** Slices of one project carry its name and are not residuals. */
  lemma ProjectSliceShape(p: Project)
    ensures forall i :: 0 <= i < |ProjectSlices(p)| ==>
              ProjectSlices(p)[i].projectName == p.name && ProjectSlices(p)[i].kind != UnattributedResidual
  {
    hide EntitySum;
  }

  lemma ProjectSlicesDistinct(p: Project)
    requires DistinctBy(p.entities, EntityKey)
    ensures DistinctBy(ProjectSlices(p), SliceKey)
  {
    KindsDiffer();
    hide EntitySum, KindName, TypeName;
    var detail := EntitySlices(p.name, p.entities);
    forall i, j | 0 <= i < j < |detail| ensures SliceKey(detail[i]) != SliceKey(detail[j]) {
      assert EntityKey(p.entities[i]) != EntityKey(p.entities[j]);
    }
    if ProjectResidual(p) > 0.0 {
      var summary := [SummarySlice(p.name, ProjectResidual(p))];
      DistinctConcat(detail, summary, SliceKey);
    }
  }

  lemma {:induction false} AllSlicesShape(ps: seq<Project>)
    ensures forall i :: 0 <= i < |AllProjectSlices(ps)| ==>
              AllProjectSlices(ps)[i].kind != UnattributedResidual
              && exists j :: 0 <= j < |ps| && ps[j].name == AllProjectSlices(ps)[i].projectName
  {
    if ps != [] {
      var init, last := ps[..|ps| - 1], ps[|ps| - 1];
      AllSlicesShape(init);
      ProjectSliceShape(last);
      hide ProjectSlices;
      var all := AllProjectSlices(ps);
      forall i | 0 <= i < |all| ensures all[i].kind != UnattributedResidual && exists j ::
          0 <= j < |ps| && ps[j].name == all[i].projectName {
        if i < |AllProjectSlices(init)| {
          var j :| 0 <= j < |init| && init[j].name == AllProjectSlices(init)[i].projectName;
          assert ps[j].name == all[i].projectName;
        } else {
          assert all[i] == ProjectSlices(last)[i - |AllProjectSlices(init)|];
          assert ps[|ps| - 1].name == all[i].projectName;
        }
      }
    }
  }

  ghost predicate NamesDiffer(ps: seq<Project>) {
    forall i, j :: 0 <= i < j < |ps| ==> ps[i].name != ps[j].name
  }

  lemma {:induction false} AllSlicesDistinct(ps: seq<Project>)
    requires NamesDiffer(ps) && forall i :: 0 <= i < |ps| ==> DistinctBy(ps[i].entities, EntityKey)
    ensures DistinctBy(AllProjectSlices(ps), SliceKey)
  {
    if ps != [] {
      var init, last := ps[..|ps| - 1], ps[|ps| - 1];
      AllSlicesDistinct(init);
      ProjectSlicesDistinct(last);
      ProjectSliceShape(last);
      AllSlicesShape(init);
      var a, b := AllProjectSlices(init), ProjectSlices(last);
      hide ProjectSlices, DistinctBy, TypeName, KindName, AllProjectSlices;
      forall i, j | 0 <= i < |a| && 0 <= j < |b| ensures SliceKey(a[i]) != SliceKey(b[j]) {
        assert SliceKey(a[i])[0] != SliceKey(b[j])[0];
      }
      DistinctConcat(a, b, SliceKey);
      AllSlicesSplit(ps);
    }
  }

  lemma AllSlicesSplit(ps: seq<Project>)
    requires ps != []
    ensures AllProjectSlices(ps) == AllProjectSlices(ps[..|ps| - 1]) + ProjectSlices(ps[|ps| - 1])
  {
  }

  /** The merge map never folds two generated slices: duplicate projects and entities were rejected before. */
  lemma DaySlicesDistinct(total: real, ps: seq<Project>)
    requires NamesDiffer(ps) && forall i :: 0 <= i < |ps| ==> DistinctBy(ps[i].entities, EntityKey)
    ensures DistinctBy(DaySlices(total, ps), SliceKey)
  {
    AllSlicesDistinct(ps);
    AllSlicesShape(ps);
    KindsDiffer();
    var a := AllProjectSlices(ps);
    hide AllProjectSlices, ProjectSum, KindName, TypeName;
    var residual := [ResidualSlice(total - ProjectSum(ps))];
    forall i | 0 <= i < |a| ensures SliceKey(a[i]) != SliceKey(residual[0]) {
      assert SliceKey(a[i])[3] != SliceKey(residual[0])[3] by { KindNameInjective(a[i].kind); }
    }
    DistinctConcat(a, residual, SliceKey);
  }

  lemma KindNameInjective(k: SliceKind)
    ensures k != UnattributedResidual ==> KindName(k) != KindName(UnattributedResidual)
  {
    KindsDiffer();
  }

  /** What the raw conditions say about the normalised projects. */
  lemma AcceptedProjects(text: TextOps, ps: seq<RawProject>)
    requires ProjectsAcceptable(text, ps)
    ensures var qs := NormalizedProjects(text, ps);
            NamesDiffer(qs) && StatesFit(qs) && forall i :: 0 <= i < |qs| ==>
                DistinctBy(qs[i].entities, EntityKey) && qs[i].seconds >= 0.0
  {
    forall i | 0 <= i < |ps|
      ensures var q := NormalizedProjects(text, ps)[i];
              q.name == ps[i].name && q.seconds >= 0.0 && DistinctBy(q.entities, EntityKey)
                  && (q.state == Present <==> q.entities != [])
    {
      assert ProjectAcceptable(text, ps[i]);
      NameKept(text, ps[i]);
      hide NormalizedProject, NormalizedEntity;
    }
    hide ProjectAcceptable, NormalizedProject, DistinctBy;
  }

  // ---- The whole day ----

  lemma AccountRowsAreFresh(rs: seq<RawRow>, ps: seq<Project>, seen: set<seq<string>>, names: set<string>)
    requires ProjectKeys(seen, names)
    ensures RowKeys(None, rs) !! (seen + set p | p in ps :: RowKey(TotalRow(p)))
  {
    forall k | k in RowKeys(None, rs) ensures k !in seen && forall p :: p in ps ==> k != RowKey(TotalRow(p)) {
      var r :| r in rs && RowKey(RowOf(None, r)) == k;
      assert k[0] == "account" && "account"[0] != "project"[0];
      assert k[2] == DimensionName(r.dimension) && DimensionName(r.dimension) != "project";
    }
  }

  /** Steps 8 and 9: the overcount checks, slice generation, the merge and the closing sum check. */
  method FinishSlices(total: real, sum: real, ps: seq<Project>, isZero: bool)
    returns (error: Option<Code>, slices: seq<NormalizedSlice>)
    requires sum == ProjectSum(ps) && isZero == IsZeroDay(total, ps) && StatesFit(ps)
             && DistinctBy(DaySlices(total, ps), SliceKey)
    ensures error.None? <==> SumsAcceptable(total, ps)
    ensures error.None? ==> slices == DaySlices(total, ps)
    ensures error.Some? ==>
              || (error.value == OvercountToleranceExceeded
                 && ((exists i :: 0 <= i < |ps| && Overcounted(ps[i])) || sum - total > TOLERANCE))
              || (error.value == MathematicalInvariantViolation
                 && Abs(SumBy(DaySlices(total, ps), SLICE_SECONDS) - total) > TOLERANCE)
  {
    hide Overcounted, DaySlices, DistinctBy, SumBy, IsZeroDay, ProjectSum, Abs, StatesFit;
    var over := FindOvercount(ps);
    if over { return Some(OvercountToleranceExceeded), []; }
    if sum - total > TOLERANCE { return Some(OvercountToleranceExceeded), []; }
    var raw := GenerateSlices(total, sum, ps, isZero);
    slices := MergeSlices(raw);
    var sliceSum := SumSlices(slices);
    if Abs(sliceSum - total) > TOLERANCE { return Some(MathematicalInvariantViolation), []; }
    error := None;
  }

  lemma WhatWasRead(r: Reading, text: TextOps, ps: seq<RawProject>)
    requires ProjectsAcceptable(text, ps) && HasRead(r, text, ps)
    ensures r.projects == NormalizedProjects(text, ps) && r.scopes == Scopes(r.projects) && r.rows == ProjectRows(ps)
    ensures r.sum == ProjectSum(r.projects) && ProjectKeys(r.seen, r.names) && StatesFit(r.projects)
    ensures forall total :: DistinctBy(DaySlices(total, r.projects), SliceKey)
  {
    AcceptedProjects(text, ps);
    forall total ensures DistinctBy(DaySlices(total, r.projects), SliceKey) {
      DaySlicesDistinct(total, r.projects);
    }
    hide ProjectsAcceptable, NormalizedProjects, Scopes, ProjectRows, ProjectSum, ProjectKeys, StatesFit,
         DistinctBy, DaySlices;
  }

  lemma CanonicalDayIs(l: Locale, date: string, d: RawDay, account: Option<string>, ps: seq<Project>, rows: seq<Row>,
                       slices: seq<NormalizedSlice>)
    requires ps == NormalizedProjects(l.text, d.projects)
             && rows == TotalRows(ps) + ProjectRows(d.projects) + RowsOf(None, d.rows)
    requires slices == DaySlices(d.total, ps)
    ensures CanonicalDay(l, date, d, account)
         == Day(date, Timezone(d, account), d.total, ProjectSum(ps), FidelityOf(d.total, ps), IsZeroDay(d.total, ps),
             OverallOf(d.total, ps),
                Scopes(ps), d.metrics, SortedProjects(l, ps), Sort(rows, ByKey(l.collate, RowKey)),
                    Sort(slices, ByKey(l.collate, SliceKey)))
  {
    hide NormalizedProjects, TotalRows, ProjectRows, RowsOf, DaySlices, Timezone, ProjectSum, FidelityOf, IsZeroDay,
         OverallOf, Scopes, SortedProjects, Sort, ByKey;
  }

  /** Steps 8 to 11: slices, account rows and the sorted day. */
  method FinishDay(l: Locale, date: string, d: RawDay, account: Option<string>, reading: Reading) returns (r: Result)
    requires ProjectsAcceptable(l.text, d.projects) && HasRead(reading, l.text, d.projects)
    ensures r.Complete? <==>
            SumsAcceptable(d.total, NormalizedProjects(l.text, d.projects)) && RowsAcceptable(None, d.rows)
    ensures r.Complete? ==> r.day == CanonicalDay(l, date, d, account)
    ensures var ps := NormalizedProjects(l.text, d.projects);
            r.Failed? ==>
              || (r.code == OvercountToleranceExceeded
                 && ((exists i :: 0 <= i < |ps| && Overcounted(ps[i])) || ProjectSum(ps) - d.total > TOLERANCE))
              || (r.code == MathematicalInvariantViolation
                 && Abs(SumBy(DaySlices(d.total, ps), SLICE_SECONDS) - d.total) > TOLERANCE)
              || (r.code == IncompleteBody && !RowsAcceptable(None, d.rows))
  {
    hide *;
    var ps := reading.projects;
    WhatWasRead(reading, l.text, d.projects);
    AccountRowsAreFresh(d.rows, ps, reading.seen, reading.names);
    var isZero := IsZeroDay(d.total, ps);
    var error, slices := FinishSlices(d.total, reading.sum, ps, isZero);
    if error.Some? { return Failed(error.value); }
    var ok, accountRows, _ := ReadRows(None, d.rows, reading.seen + set p | p in ps :: RowKey(TotalRow(p)));
    if !ok { return Failed(IncompleteBody); }
    var rows := TotalRows(ps) + reading.rows + accountRows;
    CanonicalDayIs(l, date, d, account, ps, rows, slices);
    r := Complete(Day(date, Timezone(d, account), d.total, reading.sum, FidelityOf(d.total, ps), isZero,
        OverallOf(d.total, ps),
                      reading.scopes, d.metrics, SortedProjects(l, ps), Sort(rows, ByKey(l.collate, RowKey)),
                          Sort(slices, ByKey(l.collate, SliceKey))));
  }

  method SumSlices(slices: seq<NormalizedSlice>) returns (sum: real)
    ensures sum == SumBy(slices, SLICE_SECONDS)
  {
    sum := 0.0;
    assert slices[..0] == [];
    for i := 0 to |slices|
      invariant sum == SumBy(slices[..i], SLICE_SECONDS)
    {
      assert slices[..i + 1][..i] == slices[..i];
      sum := sum + slices[i].seconds;
    }
    assert slices[..|slices|] == slices;
  }

  /**
   normalizeSummaryDay: completes exactly on the acceptable days, with the canonical day; a failure code names
   a condition that the day violates.
   */
  method NormalizeSummaryDay(l: Locale, date: string, d: RawDay, account: Option<string>, knownZone: string -> bool)
    returns (r: Result)
    ensures r.Complete? <==> Calendar.IsValidDateString(date) && Acceptable(l.text, d, account, knownZone)
    ensures r.Complete? ==> r.day == CanonicalDay(l, date, d, account)
    ensures r.Failed? ==> Explains(r.code, l.text, date, d, account, knownZone)
  {
    hide *;
    AcceptableIs(l.text, d, account, knownZone);
    ExplainsIs(l.text, date, d, account, knownZone);
    if !Calendar.IsValidDateString(date) { return Failed(MissingRequestedDate); }
    if d.total < 0.0 { return Failed(NegativeResidual); }
    if !TimezoneAcceptable(d, account, knownZone) { return Failed(TimezoneMismatch); }
    var error, reading := ReadProjects(l.text, d.projects);
    if error.Some? { return Failed(error.value); }
    r := FinishDay(l, date, d, account, reading);
  }

  lemma AcceptableIs(text: TextOps, d: RawDay, account: Option<string>, knownZone: string -> bool)
    ensures Acceptable(text, d, account, knownZone) <==>
            d.total >= 0.0 && TimezoneAcceptable(d, account, knownZone) && ProjectsAcceptable(text, d.projects)
            && SumsAcceptable(d.total, NormalizedProjects(text, d.projects)) && RowsAcceptable(None, d.rows)
  {
    hide TimezoneAcceptable, ProjectsAcceptable, SumsAcceptable, NormalizedProjects, RowsAcceptable;
  }

  lemma ExplainsIs(text: TextOps, date: string, d: RawDay, account: Option<string>, knownZone: string -> bool)
    ensures !Calendar.IsValidDateString(date) ==> Explains(MissingRequestedDate, text, date, d, account, knownZone)
    ensures d.total < 0.0 ==> Explains(NegativeResidual, text, date, d, account, knownZone)
    ensures !TimezoneAcceptable(d, account, knownZone) ==> Explains(TimezoneMismatch, text, date, d, account, knownZone)
    ensures var ps := NormalizedProjects(text, d.projects);
            ((exists i :: 0 <= i < |ps| && Overcounted(ps[i])) || ProjectSum(ps) - d.total > TOLERANCE) ==>
              Explains(OvercountToleranceExceeded, text, date, d, account, knownZone)
    ensures var ps := NormalizedProjects(text, d.projects);
            (RepeatsAName(d.projects) || (exists i :: 0 <= i < |d.projects| && HasNegativeSeconds(d.projects[i]))
             || Abs(SumBy(DaySlices(d.total, ps), SLICE_SECONDS) - d.total) > TOLERANCE) ==>
              Explains(MathematicalInvariantViolation, text, date, d, account, knownZone)
    ensures ((exists i :: 0 <= i < |d.projects| && IsIncomplete(text, d.projects[i]))
            || !RowsAcceptable(None, d.rows)) ==>
              Explains(IncompleteBody, text, date, d, account, knownZone)
  {
    hide NormalizedProjects, Overcounted, ProjectSum, RepeatsAName, HasNegativeSeconds, DaySlices, IsIncomplete,
         RowsAcceptable, TimezoneAcceptable, Calendar.IsValidDateString, SumBy, Abs;
  }
}
