/** What the normaliser guarantees about the slices and scopes of a day, as reconciliation needs it. */
module NormalizedDays {
  import opened Options
  import opened SliceTypes
  import opened Text
  import opened Orders
  import opened Rearrange
  import opened Locales
  import opened SummaryDay
  import opened Normalize
  import opened Conservation
  import opened Rearranged
  import opened ArchiveModel
  import opened ReconcileFacts

  /** The slice comes from an entity, from a project remainder, or is the residual of the day. */
  ghost predicate Shape(ps: seq<Project>, s: NormalizedSlice) {
    match s.kind
    case EntitySlice =>
      !s.isUnattributed && exists i, j ::
          0 <= i < |ps| && 0 <= j < |ps[i].entities| && s == EntitySliceOf(ps[i].name, ps[i].entities[j])
    case ProjectSummary =>
        !s.isUnattributed && s.entity == s.projectName && s.entityType == App && exists i ::
        0 <= i < |ps| && ps[i].name == s.projectName
    case UnattributedResidual =>
        s.projectName == UNATTRIBUTED && s.entity == UNATTRIBUTED && s.entityType == Unattributed
  }

  lemma ProjectShapes(p: Project, ps: seq<Project>, i: nat)
    requires i < |ps| && ps[i] == p
    ensures forall s :: s in ProjectSlices(p) ==> Shape(ps, s)
  {
    hide EntitySum;
    forall s | s in ProjectSlices(p) ensures Shape(ps, s) {
      var k :| 0 <= k < |ProjectSlices(p)| && ProjectSlices(p)[k] == s;
      if p.state == Present && k < |p.entities| {
        assert s == EntitySliceOf(ps[i].name, ps[i].entities[k]);
      }
    }
  }

  lemma {:induction false} AllShapes(all: seq<Project>, n: nat)
    requires n <= |all|
    ensures forall s :: s in AllProjectSlices(all[..n]) ==> Shape(all, s)
  {
    if n > 0 {
      AllShapes(all, n - 1);
      assert all[..n][..n - 1] == all[..n - 1];
      ProjectShapes(all[n - 1], all, n - 1);
      hide Shape, ProjectSlices;
    }
  }

  lemma DayShapes(total: real, ps: seq<Project>)
    ensures forall s :: s in DaySlices(total, ps) ==> Shape(ps, s)
  {
    AllShapes(ps, |ps|);
    assert ps[..|ps|] == ps;
    assert forall x :: Shape(ps, ResidualSlice(x));
    hide Shape, AllProjectSlices, ProjectSum, IsZeroDay, ResidualSlice;
  }

  lemma {:induction false} SlicesOf(ps: seq<Project>, i: nat)
    requires i < |ps|
    ensures forall s :: s in ProjectSlices(ps[i]) ==> s in AllProjectSlices(ps)
  {
    if i < |ps| - 1 { SlicesOf(ps[..|ps| - 1], i); }
    hide ProjectSlices;
  }

  /** A project with entities has entity slices; one that is empty in spite of its seconds has a summary slice. */
  lemma DetailIsSliced(total: real, ps: seq<Project>, i: nat)
    requires i < |ps| && StatesFit(ps)
    ensures ps[i].state == Present ==> exists s ::
            s in DaySlices(total, ps) && s.projectName == ps[i].name && s.kind == EntitySlice
    ensures ps[i].state == Empty && ps[i].seconds > 0.0 ==>
              exists s :: s in DaySlices(total, ps) && s.projectName == ps[i].name && s.kind == ProjectSummary
  {
    SlicesOf(ps, i);
    var p := ps[i];
    hide AllProjectSlices, EntitySum, ProjectSum;
    if p.state == Present {
      assert p.entities != [];
      assert ProjectSlices(p)[0] == EntitySliceOf(p.name, p.entities[0]);
      assert EntitySliceOf(p.name, p.entities[0]) in ProjectSlices(p);
    } else if p.state == Empty && p.seconds > 0.0 {
      assert SummarySlice(p.name, p.seconds) in ProjectSlices(p);
    }
  }

  /** A project whose entities are absent or empty has no entity slice. */
  lemma NoSliceWithoutDetail(total: real, ps: seq<Project>, i: nat)
    requires i < |ps| && StatesFit(ps) && NamesDiffer(ps) && ps[i].state != Present
    ensures forall s :: s in DaySlices(total, ps) && s.kind == EntitySlice ==> s.projectName != ps[i].name
  {
    DayShapes(total, ps);
    hide DaySlices;
    forall s | s in DaySlices(total, ps) && s.kind == EntitySlice ensures s.projectName != ps[i].name {
      var k, j :| 0 <= k < |ps| && 0 <= j < |ps[k].entities| && s == EntitySliceOf(ps[k].name, ps[k].entities[j]);
      if k < i { assert ps[k].name != ps[i].name; } else if i < k { assert ps[i].name != ps[k].name; }
    }
  }

  // ---- The canonical day ----

  /** A summary that the normaliser made. */
  ghost predicate FromNormalizer(l: Locale, day: Day) {
    exists date, d, account, knownZone ::
        Acceptable(l.text, d, account, knownZone) && day == CanonicalDay(l, date, d, account)
  }

  /** What reconciliation may rely on for such a summary. */
  ghost predicate WellScoped(day: Day) {
    && (forall s :: s in day.slices && s.kind == EntitySlice ==>
       !s.isUnattributed && s.projectName != "" && s.projectName in day.scopes)
    && (forall p :: p in day.scopes && day.scopes[p].state == Present ==> HasProjectSlice(day, p, EntitySlice))
    && (forall p :: p in day.scopes && day.scopes[p].state == Empty && day.scopes[p].seconds > 0.0 ==>
          HasProjectSlice(day, p, ProjectSummary) && !HasProjectSlice(day, p, EntitySlice))
    && (forall p :: p in day.scopes ==> day.scopes[p].seconds >= 0.0)
    && (VerifiedZeroDay(day) <==> day.isVerifiedZero)
    && (day.isVerifiedZero ==> day.totalSeconds == 0.0 && day.slices == [])
  }

  lemma NamesNotBlank(text: TextOps, ps: seq<RawProject>)
    requires ProjectsAcceptable(text, ps)
    ensures forall i :: 0 <= i < |ps| ==>
            NormalizedProjects(text, ps)[i].name != "" && NormalizedProjects(text, ps)[i].seconds >= 0.0
  {
    forall i | 0 <= i < |ps| ensures NormalizedProjects(text, ps)[i].name != ""
        && NormalizedProjects(text, ps)[i].seconds >= 0.0 {
      assert ProjectAcceptable(text, ps[i]);
      NameKept(text, ps[i]);
    }
  }

  lemma ScopesOnly(ps: seq<Project>, name: string)
    requires NamesDiffer(ps) && name in Scopes(ps)
    ensures exists i :: 0 <= i < |ps| && ps[i].name == name && Scopes(ps)[name] == ScopeOf(ps[i])
  {
    ScopesByName(ps);
    var p :| p in ps && p.name == name;
    var i :| 0 <= i < |ps| && ps[i] == p;
  }

  lemma HasSlices(day: Day, raw: seq<NormalizedSlice>, project: string, kind: SliceKind)
    requires forall s :: s in raw <==> s in day.slices
    ensures HasProjectSlice(day, project, kind) <==> exists s :: s in raw && s.projectName == project && s.kind == kind
  {
    if HasProjectSlice(day, project, kind) {
      var i :| 0 <= i < |day.slices| && day.slices[i].projectName == project && day.slices[i].kind == kind;
      assert day.slices[i] in raw;
    }
  }

  lemma ScopeFacts(total: real, ps: seq<Project>, day: Day, p: string)
    requires NamesDiffer(ps) && StatesFit(ps) && day.scopes == Scopes(ps) && p in day.scopes
    requires forall s :: s in DaySlices(total, ps) <==> s in day.slices
    requires forall i :: 0 <= i < |ps| ==> ps[i].seconds >= 0.0
    ensures day.scopes[p].seconds >= 0.0
    ensures day.scopes[p].state == Present ==> HasProjectSlice(day, p, EntitySlice)
    ensures day.scopes[p].state == Empty && day.scopes[p].seconds > 0.0 ==>
              HasProjectSlice(day, p, ProjectSummary) && !HasProjectSlice(day, p, EntitySlice)
  {
    ScopesOnly(ps, p);
    var i :| 0 <= i < |ps| && ps[i].name == p && Scopes(ps)[p] == ScopeOf(ps[i]);
    hide DaySlices, NamesDiffer, StatesFit, Scopes, HasProjectSlice;
    DetailIsSliced(total, ps, i);
    if ps[i].state != Present { NoSliceWithoutDetail(total, ps, i); }
    HasSlices(day, DaySlices(total, ps), p, EntitySlice);
    HasSlices(day, DaySlices(total, ps), p, ProjectSummary);
  }

  lemma EntityShape(total: real, ps: seq<Project>)
    requires NamesDiffer(ps) && forall i :: 0 <= i < |ps| ==> ps[i].name != ""
    ensures forall s :: s in DaySlices(total, ps) && s.kind == EntitySlice ==>
            !s.isUnattributed && s.projectName != "" && s.projectName in Scopes(ps)
  {
    DayShapes(total, ps);
    ScopesByName(ps);
    hide DaySlices, Scopes, Shape, NamesDiffer;
    forall s | s in DaySlices(total, ps) && s.kind == EntitySlice
      ensures !s.isUnattributed && s.projectName != "" && s.projectName in Scopes(ps)
    {
      var i := ShapeOwner(ps, s);
      assert ps[i] in ps;
    }
  }

  lemma ShapeOwner(ps: seq<Project>, s: NormalizedSlice) returns (i: nat)
    requires Shape(ps, s) && s.kind == EntitySlice
    ensures i < |ps| && ps[i].name == s.projectName && !s.isUnattributed
  {
    i :| i < |ps| && ps[i].name == s.projectName;
  }

  lemma ZeroFacts(total: real, ps: seq<Project>)
    ensures IsZeroDay(total, ps) ==> total == 0.0 && DaySlices(total, ps) == []
    ensures FidelityOf(total, ps) == VerifiedZero <==> IsZeroDay(total, ps)
  {
  }

  lemma CanonicalFields(l: Locale, date: string, d: RawDay, account: Option<string>)
    ensures var day, ps := CanonicalDay(l, date, d, account), NormalizedProjects(l.text, d.projects);
            && day.scopes == Scopes(ps) && day.isVerifiedZero == IsZeroDay(d.total, ps) && day.totalSeconds == d.total
            && day.fidelity == FidelityOf(d.total, ps)
            && (forall s :: s in DaySlices(d.total, ps) <==> s in day.slices)
               && |day.slices| == |DaySlices(d.total, ps)|
            && multiset(day.slices) == multiset(DaySlices(d.total, ps))
  {
    var ps := NormalizedProjects(l.text, d.projects);
    SortMembers(DaySlices(d.total, ps), ByKey(l.collate, SliceKey));
    SortContents(DaySlices(d.total, ps), ByKey(l.collate, SliceKey));
    hide NormalizedProjects, DaySlices, Scopes, IsZeroDay, FidelityOf, OverallOf, Sort, SortedProjects, DayRows,
         Timezone, ProjectSum, ByKey;
  }

  /** Every summary of the normaliser is well scoped. */
  lemma NormalizedIsWellScoped(l: Locale, day: Day)
    requires FromNormalizer(l, day)
    ensures WellScoped(day)
  {
    var date, d, account, knownZone :| Acceptable(l.text, d, account, knownZone)
        && day == CanonicalDay(l, date, d, account);
    CanonicalIsWellScoped(l, date, d, account, knownZone);
  }

  lemma CanonicalIsWellScoped(l: Locale, date: string, d: RawDay, account: Option<string>, knownZone: string -> bool)
    requires Acceptable(l.text, d, account, knownZone)
    ensures WellScoped(CanonicalDay(l, date, d, account))
  {
    hide *;
    var day, ps := CanonicalDay(l, date, d, account), NormalizedProjects(l.text, d.projects);
    AcceptableIs(l.text, d, account, knownZone);
    CanonicalFields(l, date, d, account);
    AcceptedProjects(l.text, d.projects);
    NamesNotBlank(l.text, d.projects);
    SameCount(l.text, d.projects);
    EntityShape(d.total, ps);
    ZeroFacts(d.total, ps);
    forall p | p in day.scopes
      ensures day.scopes[p].seconds >= 0.0
      ensures day.scopes[p].state == Present ==> HasProjectSlice(day, p, EntitySlice)
      ensures day.scopes[p].state == Empty && day.scopes[p].seconds > 0.0 ==>
                HasProjectSlice(day, p, ProjectSummary) && !HasProjectSlice(day, p, EntitySlice)
    {
      ScopeFacts(d.total, ps, day, p);
    }
    WellScopedIs(day);
  }

  lemma SameCount(text: TextOps, ps: seq<RawProject>)
    ensures |NormalizedProjects(text, ps)| == |ps|
  {
  }

  lemma WellScopedIs(day: Day)
    requires forall s :: s in day.slices && s.kind == EntitySlice ==>
             !s.isUnattributed && s.projectName != "" && s.projectName in day.scopes
    requires forall p :: p in day.scopes && day.scopes[p].state == Present ==> HasProjectSlice(day, p, EntitySlice)
    requires forall p :: p in day.scopes && day.scopes[p].state == Empty && day.scopes[p].seconds > 0.0 ==>
               HasProjectSlice(day, p, ProjectSummary) && !HasProjectSlice(day, p, EntitySlice)
    requires forall p :: p in day.scopes ==> day.scopes[p].seconds >= 0.0
    requires day.isVerifiedZero <==> day.fidelity == VerifiedZero
    requires day.isVerifiedZero ==> day.totalSeconds == 0.0 && |day.slices| == 0
    ensures WellScoped(day)
  {
    hide HasProjectSlice;
  }

  /** Reconciliation never refuses the arithmetic of a day that the normaliser completed. */
  lemma CompleteDaysPassArithmetic(l: Locale, date: string, d: RawDay, account: Option<string>,
                                   knownZone: string -> bool)
    requires Acceptable(l.text, d, account, knownZone)
    ensures ArithmeticRefusal(CanonicalDay(l, date, d, account)).None?
  {
    hide *;
    AcceptableIs(l.text, d, account, knownZone);
    CompleteDaysConserve(l, date, d, account, knownZone);
    CanonicalFields(l, date, d, account);
    SoundSumsPass(CanonicalDay(l, date, d, account));
  }

  lemma SoundSumsPass(day: Day)
    requires day.totalSeconds >= 0.0 && NonNegative(day.slices)
    requires day.totalSeconds <= SumBy(day.slices, SLICE_SECONDS) <= day.totalSeconds + 0.001
    ensures ArithmeticRefusal(day).None?
  {
    hide SumBy;
  }

  // ---- Distinct keys ----

  /** Normalising the entity once more changes nothing. */
  ghost predicate Settled(text: TextOps, p: Project) {
    forall j :: 0 <= j < |p.entities| ==>
        NormalizeEntity(text, p.entities[j].name, p.entities[j].entityType) == p.entities[j].name
  }

  lemma SameRowKeySameSlice(text: TextOps, day: Day, ps: seq<Project>, s: NormalizedSlice, t: NormalizedSlice)
    requires Shape(ps, s) && Shape(ps, t) && forall i :: 0 <= i < |ps| ==> Settled(text, ps[i]) && ps[i].name != ""
    requires SliceRowKey(text, day, s) == SliceRowKey(text, day, t)
    ensures SliceKey(s) == SliceKey(t)
  {
    hide NormalizeEntity, TypeName, KindName;
  }

  /** Entities that are already in normal form give every slice of a normalised day a row of its own. */
  lemma NormalizedKeysDistinct(l: Locale, date: string, d: RawDay, account: Option<string>, knownZone: string -> bool)
    requires Acceptable(l.text, d, account, knownZone)
    requires var ps := NormalizedProjects(l.text, d.projects); forall i :: 0 <= i < |ps| ==> Settled(l.text, ps[i])
    ensures Distinct(RowsKeys(l.text, CanonicalDay(l, date, d, account)))
  {
    hide *;
    var day, ps := CanonicalDay(l, date, d, account), NormalizedProjects(l.text, d.projects);
    AcceptableIs(l.text, d, account, knownZone);
    CanonicalFields(l, date, d, account);
    AcceptedProjects(l.text, d.projects);
    NamesNotBlank(l.text, d.projects);
    SameCount(l.text, d.projects);
    DayShapes(d.total, ps);
    DaySlicesDistinct(d.total, ps);
    DistinctByPermuted(DaySlices(d.total, ps), day.slices, SliceKey);
    KeysFitted(l.text, day);
    forall i, j | 0 <= i < j < |day.slices|
      ensures SliceRowKey(l.text, day, day.slices[i]) != SliceRowKey(l.text, day, day.slices[j])
    {
      assert day.slices[i] in day.slices && day.slices[j] in day.slices;
      if SliceRowKey(l.text, day, day.slices[i]) == SliceRowKey(l.text, day, day.slices[j]) {
        SameRowKeySameSlice(l.text, day, ps, day.slices[i], day.slices[j]);
        DifferentKeys(day.slices, i, j);
      }
    }
    AllDistinct(RowsKeys(l.text, day));
  }

  lemma KeysFitted(text: TextOps, day: Day)
    ensures |RowsKeys(text, day)| == |day.slices|
    ensures forall i :: 0 <= i < |day.slices| ==> RowsKeys(text, day)[i] == SliceRowKey(text, day, day.slices[i])
  {
    hide SliceRowKey;
  }

  lemma DifferentKeys(s: seq<NormalizedSlice>, i: nat, j: nat)
    requires DistinctBy(s, SliceKey) && i < j < |s|
    ensures SliceKey(s[i]) != SliceKey(s[j])
  {
  }

  lemma AllDistinct<T(!new)>(s: seq<T>)
    requires forall i, j :: 0 <= i < j < |s| ==> s[i] != s[j]
    ensures Distinct(s)
  {
  }
}
