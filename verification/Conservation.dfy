/** The slices of a normalised day: nonnegative, distinct, and conserving the grand total. */
module Conservation {
  import opened Options
  import opened Text
  import opened Orders
  import opened Rearrange
  import opened Locales
  import opened SummaryDay
  import opened Normalize

  function Max(x: real, y: real): real { if x < y then y else x }

  /** Seconds that the entities of a project claim beyond the project's own total. */
  function ProjectExcess(p: Project): real {
    if p.state == Present then Max(0.0, EntitySum(p) - p.seconds) else 0.0
  }

  const EXCESS: Project -> real := (p: Project) => ProjectExcess(p)

  ghost predicate Sound(p: Project) {
    p.seconds >= 0.0 && (p.state == Present <==> p.entities != []) && forall i :: 0 <= i < |p.entities| ==>
        p.entities[i].seconds >= 0.0
  }

  ghost predicate AllSound(ps: seq<Project>) {
    forall i :: 0 <= i < |ps| ==> Sound(ps[i])
  }

  lemma {:induction false} EntitySlicesSum(project: string, es: seq<RawEntity>)
    ensures SumBy(EntitySlices(project, es), SLICE_SECONDS) == SumBy(es, ENTITY_SECONDS)
  {
    if es != [] {
      EntitySlicesSum(project, es[..|es| - 1]);
      assert EntitySlices(project, es)[..|es| - 1] == EntitySlices(project, es[..|es| - 1]);
    }
  }

  lemma SumOfOne(s: NormalizedSlice)
    ensures SumBy([s], SLICE_SECONDS) == s.seconds && SumBy([], SLICE_SECONDS) == 0.0
  {
    assert [s][..0] == [];
  }

  lemma ProjectSlicesSum(p: Project)
    requires Sound(p)
    ensures SumBy(ProjectSlices(p), SLICE_SECONDS) == p.seconds + ProjectExcess(p)
  {
    EntitySlicesSum(p.name, p.entities);
    SumOfOne(SummarySlice(p.name, ProjectResidual(p)));
    hide SumBy, EntitySlices;
    if ProjectResidual(p) > 0.0 {
      SumByAppend(if p.state == Present then EntitySlices(p.name, p.entities)
          else [], [SummarySlice(p.name, ProjectResidual(p))], SLICE_SECONDS);
    } else {
      assert ProjectSlices(p) == if p.state == Present then EntitySlices(p.name, p.entities) else [];
    }
  }

  lemma {:induction false} AllSlicesSum(ps: seq<Project>)
    requires AllSound(ps)
    ensures SumBy(AllProjectSlices(ps), SLICE_SECONDS) == ProjectSum(ps) + SumBy(ps, EXCESS)
  {
    if ps != [] {
      var init, last := ps[..|ps| - 1], ps[|ps| - 1];
      AllSlicesSum(init);
      ProjectSlicesSum(last);
      SumByAppend(AllProjectSlices(init), ProjectSlices(last), SLICE_SECONDS);
      hide ProjectSlices, ProjectExcess, Sound;
    }
  }

  lemma {:induction false} ZeroSums(ps: seq<Project>)
    requires forall i :: 0 <= i < |ps| ==> ps[i].seconds == 0.0 && ps[i].state == Empty
    ensures ProjectSum(ps) == 0.0 && SumBy(ps, EXCESS) == 0.0
  {
    if ps != [] {
      ZeroSums(ps[..|ps| - 1]);
    }
  }

  /** The slices add up to the total plus what projects and account are overcounted by. */
  lemma DaySlicesSum(total: real, ps: seq<Project>)
    requires AllSound(ps)
    ensures SumBy(DaySlices(total, ps), SLICE_SECONDS) == total + SumBy(ps, EXCESS) + Max(0.0, ProjectSum(ps) - total)
  {
    AllSlicesSum(ps);
    SumOfOne(ResidualSlice(total - ProjectSum(ps)));
    hide SumBy, ProjectSum, AllProjectSlices, AllSound;
    if IsZeroDay(total, ps) {
      ZeroSums(ps);
    } else if total - ProjectSum(ps) > 0.0 {
      SumByAppend(AllProjectSlices(ps), [ResidualSlice(total - ProjectSum(ps))], SLICE_SECONDS);
    } else {
      assert DaySlices(total, ps) == AllProjectSlices(ps);
    }
  }

  lemma {:induction false} ExcessesVanish(ps: seq<Project>)
    ensures SumBy(ps, EXCESS) >= 0.0
    ensures SumBy(ps, EXCESS) == 0.0 <==> forall i :: 0 <= i < |ps| ==> ProjectExcess(ps[i]) == 0.0
  {
    if ps != [] {
      var init := ps[..|ps| - 1];
      ExcessesVanish(init);
      assert forall i :: 0 <= i < |init| ==> init[i] == ps[i];
    }
  }

  /** The entities of no project exceed its total, and the projects do not exceed the day's. */
  ghost predicate NothingOvercounted(total: real, ps: seq<Project>) {
    && (forall i :: 0 <= i < |ps| ==> ps[i].state == Present ==> EntitySum(ps[i]) <= ps[i].seconds)
    && ProjectSum(ps) <= total
  }

  /** Conservation is exact for, and only for, days without any overcount. */
  lemma ExactConservation(total: real, ps: seq<Project>)
    requires AllSound(ps)
    ensures SumBy(DaySlices(total, ps), SLICE_SECONDS) >= total
    ensures SumBy(DaySlices(total, ps), SLICE_SECONDS) == total <==> NothingOvercounted(total, ps)
  {
    DaySlicesSum(total, ps);
    ExcessesVanish(ps);
    hide SumBy, DaySlices, ProjectSum, EntitySum, AllSound;
  }

  ghost predicate NonNegative(ss: seq<NormalizedSlice>) {
    forall i :: 0 <= i < |ss| ==> ss[i].seconds >= 0.0
  }

  lemma {:induction false} AllSlicesNonNegative(ps: seq<Project>)
    requires AllSound(ps)
    ensures NonNegative(AllProjectSlices(ps))
  {
    if ps != [] {
      AllSlicesNonNegative(ps[..|ps| - 1]);
      assert Sound(ps[|ps| - 1]);
      hide EntitySum;
    }
  }

  lemma DaySlicesNonNegative(total: real, ps: seq<Project>)
    requires AllSound(ps)
    ensures NonNegative(DaySlices(total, ps))
  {
    AllSlicesNonNegative(ps);
    hide AllProjectSlices, ProjectSum;
  }

  lemma AcceptedAreSound(text: TextOps, ps: seq<RawProject>)
    requires ProjectsAcceptable(text, ps)
    ensures AllSound(NormalizedProjects(text, ps))
  {
    AcceptedProjects(text, ps);
    forall i | 0 <= i < |ps| ensures Sound(NormalizedProjects(text, ps)[i]) {
      assert ProjectAcceptable(text, ps[i]);
      NameKept(text, ps[i]);
    }
  }

  /**
   The slices of every accepted day: nonnegative, no two alike, within the tolerance of the grand total, and
   exactly the grand total when, and only when, nothing is overcounted.
   */
  lemma CompleteDaysConserve(l: Locale, date: string, d: RawDay, account: Option<string>, knownZone: string -> bool)
    requires Acceptable(l.text, d, account, knownZone)
    ensures var day, ps := CanonicalDay(l, date, d, account), NormalizedProjects(l.text, d.projects);
            && NonNegative(day.slices) && DistinctBy(day.slices, SliceKey)
            && d.total <= SumBy(day.slices, SLICE_SECONDS) <= d.total + 0.001
            && (SumBy(day.slices, SLICE_SECONDS) == d.total <==> NothingOvercounted(d.total, ps))
  {
    var ps, order := NormalizedProjects(l.text, d.projects), ByKey(l.collate, SliceKey);
    AcceptableIs(l.text, d, account, knownZone);
    CanonicalDayIs(l, date, d, account, ps, TotalRows(ps) + ProjectRows(d.projects) + RowsOf(None, d.rows),
        DaySlices(d.total, ps));
    AcceptedAreSound(l.text, d.projects);
    AcceptedProjects(l.text, d.projects);
    DaySlicesNonNegative(d.total, ps);
    ExactConservation(d.total, ps);
    DaySlicesDistinct(d.total, ps);
    var raw, slices := DaySlices(d.total, ps), Sort(DaySlices(d.total, ps), order);
    Acceptances(d.total, ps);
    hide *;
    SortContents(raw, order);
    SumByPermuted(raw, slices, SLICE_SECONDS);
    DistinctByPermuted(raw, slices, SliceKey);
    SameMembers(raw, slices);
    NonNegativeMembers(raw, slices);
  }

  lemma Acceptances(total: real, ps: seq<Project>)
    requires SumsAcceptable(total, ps)
    ensures SumBy(DaySlices(total, ps), SLICE_SECONDS) <= total + TOLERANCE
  {
    hide SumBy, DaySlices, ProjectSum, Overcounted;
  }

  lemma NonNegativeMembers(a: seq<NormalizedSlice>, b: seq<NormalizedSlice>)
    requires NonNegative(a) && forall s :: s in b ==> s in a
    ensures NonNegative(b)
  {
    forall i | 0 <= i < |b| ensures b[i].seconds >= 0.0 {
      assert b[i] in b;
    }
  }
}
