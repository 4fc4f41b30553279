/** Which days are accepted, read off the day as it arrives. */
module Acceptance {
  import opened Options
  import opened SliceTypes
  import opened Text
  import opened Orders
  import opened SummaryDay
  import opened Normalize
  import opened Conservation
  import opened NormalizedContent

  // ---- Rows and entities ----

  /** No row is blank or negative, and no two are of the same dimension, name, entity type and machine. */
  ghost predicate RowsFine(rs: seq<RawRow>) {
    && (forall r :: r in rs ==> Trim(r.name) != "" && r.seconds >= 0.0)
    && forall i, j :: 0 <= i < j < |rs| ==>
         rs[i].dimension != rs[j].dimension || rs[i].name != rs[j].name || rs[i].entityType != rs[j].entityType
         || MachineText(rs[i]) != MachineText(rs[j])
  }

  ghost function MachineText(r: RawRow): string {
    match r.machine case Some(m) => m case None => ""
  }

  /** No entity is blank or negative, and no two of one type have the same name in normal form. */
  ghost predicate EntitiesFine(text: TextOps, es: seq<RawEntity>) {
    && (forall e :: e in es ==> Trim(e.name) != "" && e.seconds >= 0.0)
    && forall i, j :: 0 <= i < j < |es| ==>
         es[i].entityType != es[j].entityType
         || NormalizeEntity(text, es[i].name, es[i].entityType) != NormalizeEntity(text, es[j].name, es[j].entityType)
  }

  lemma NamesDiffer()
    ensures forall a, b :: DimensionName(a) == DimensionName(b) <==> a == b
    ensures forall a, b :: TypeName(a) == TypeName(b) <==> a == b
    ensures forall a :: TypeName(a) != ""
  {
  }

  lemma KeysDiffer(project: Option<string>, a: RawRow, b: RawRow)
    ensures RowKey(RowOf(project, a)) == RowKey(RowOf(project, b)) <==>
            a.dimension == b.dimension && a.name == b.name && a.entityType == b.entityType
                && MachineText(a) == MachineText(b)
  {
    NamesDiffer();
    hide DimensionName, TypeName;
    var x, y := RowKey(RowOf(project, a)), RowKey(RowOf(project, b));
    assert x[2] == y[2] <==> a.dimension == b.dimension;
    assert x[4] == y[4] <==> a.entityType == b.entityType;
    assert x == y <==> x[0] == y[0] && x[1] == y[1] && x[2] == y[2] && x[3] == y[3] && x[4] == y[4] && x[5] == y[5];
  }

  lemma RowsFineIs(project: Option<string>, rs: seq<RawRow>)
    ensures RowsAcceptable(project, rs) <==> RowsFine(rs)
  {
    var rows := RowsOf(project, rs);
    forall i, j | 0 <= i < j < |rs|
      ensures RowKey(rows[i]) == RowKey(rows[j]) <==>
              rs[i].dimension == rs[j].dimension && rs[i].name == rs[j].name && rs[i].entityType == rs[j].entityType
              && MachineText(rs[i]) == MachineText(rs[j])
    {
      KeysDiffer(project, rs[i], rs[j]);
    }
    assert |rows| == |rs|;
    hide RowKey, RowOf, RowsOf, MachineText, Trim;
    if RowsFine(rs) {
      forall i | 0 <= i < |rs| ensures NotBlank(rs[i].name) && rs[i].seconds >= 0.0 { assert rs[i] in rs; }
    }
  }

  lemma EntitiesFineIs(text: TextOps, es: seq<RawEntity>)
    ensures EntitiesAcceptable(text, es) <==> EntitiesFine(text, es)
  {
    var ns := NormalizedEntities(text, es);
    NamesDiffer();
    forall i, j | 0 <= i < j < |es|
      ensures EntityKey(ns[i]) == EntityKey(ns[j]) <==>
              es[i].entityType == es[j].entityType
              && NormalizeEntity(text, es[i].name, es[i].entityType)
                 == NormalizeEntity(text, es[j].name, es[j].entityType)
    {
      hide NormalizeEntity, TypeName;
      var x, y := EntityKey(ns[i]), EntityKey(ns[j]);
      assert x == y <==> x[0] == y[0] && x[1] == y[1];
    }
    assert |ns| == |es|;
    hide EntityKey, NormalizedEntities, NormalizeEntity, Trim;
    if EntitiesFine(text, es) {
      forall i | 0 <= i < |es| ensures NotBlank(es[i].name) && es[i].seconds >= 0.0 { assert es[i] in es; }
    }
  }

  // ---- Projects ----

  ghost predicate ProjectFine(text: TextOps, p: RawProject) {
    Trim(p.name) != "" && p.seconds >= 0.0 && EntitiesFine(text, Listed(p)) && RowsFine(p.rows)
  }

  lemma ProjectFineIs(text: TextOps, p: RawProject)
    ensures ProjectAcceptable(text, p) <==> ProjectFine(text, p)
  {
    EntitiesFineIs(text, Listed(p));
    RowsFineIs(Some(p.name), p.rows);
    assert p.entities.None? ==> EntitiesFine(text, []);
    hide EntitiesFine, EntitiesAcceptable, RowsFine, RowsAcceptable, Trim;
  }

  ghost predicate ProjectsFine(text: TextOps, ps: seq<RawProject>) {
    && (forall p :: p in ps ==> ProjectFine(text, p))
    && forall i, j :: 0 <= i < j < |ps| ==> ps[i].name != ps[j].name
  }

  lemma ProjectsFineIs(text: TextOps, ps: seq<RawProject>)
    ensures ProjectsAcceptable(text, ps) <==> ProjectsFine(text, ps)
  {
    forall p ensures ProjectAcceptable(text, p) <==> ProjectFine(text, p) { ProjectFineIs(text, p); }
    hide ProjectAcceptable, ProjectFine;
    if ProjectsFine(text, ps) {
      forall i | 0 <= i < |ps| ensures ProjectAcceptable(text, ps[i]) { assert ps[i] in ps; }
    }
  }

  // ---- Overcounts ----

  /** Seconds by which the entities of the project exceed it. */
  ghost function Excess(p: RawProject): real {
    if ListedSeconds(Listed(p)) > p.seconds then ListedSeconds(Listed(p)) - p.seconds else 0.0
  }

  ghost function ExcessSeconds(ps: seq<RawProject>): real {
    if ps == [] then 0.0 else ExcessSeconds(ps[..|ps| - 1]) + Excess(ps[|ps| - 1])
  }

  /** All overcounted seconds of the day: in its projects, and of the projects against the day. */
  ghost function OvercountedSeconds(d: RawDay): real {
    ExcessSeconds(d.projects)
    + if ProjectSeconds(d.projects) > d.total then ProjectSeconds(d.projects) - d.total else 0.0
  }

  lemma ExcessIs(text: TextOps, p: RawProject)
    requires ProjectFine(text, p)
    ensures ProjectExcess(NormalizedProject(text, p)) == Excess(p)
  {
    ListedSum(text, Listed(p));
    var q := NormalizedProject(text, p);
    assert q.entities == NormalizedEntities(text, Listed(p));
    assert Listed(p) == [] ==> ListedSeconds(Listed(p)) == 0.0;
    hide EntitiesFine, RowsFine, NormalizedEntities, SumBy, ListedSeconds, Trim;
  }

  lemma {:induction false} ExcessesAre(text: TextOps, ps: seq<RawProject>)
    requires forall p :: p in ps ==> ProjectFine(text, p)
    ensures SumBy(NormalizedProjects(text, ps), EXCESS) == ExcessSeconds(ps)
  {
    if ps != [] {
      var n := |ps| - 1;
      ExcessesAre(text, ps[..n]);
      ExcessIs(text, ps[n]);
      var all := NormalizedProjects(text, ps);
      assert all[..n] == NormalizedProjects(text, ps[..n]) && all[n] == NormalizedProject(text, ps[n]);
      hide NormalizedProject, NormalizedProjects, ProjectFine, ProjectExcess, Excess;
    }
  }

  lemma {:induction false} EachWithin(ps: seq<Project>, i: nat)
    requires i < |ps|
    ensures ProjectExcess(ps[i]) <= SumBy(ps, EXCESS)
  {
    ExcessesVanish(ps[..|ps| - 1]);
    if i < |ps| - 1 {
      EachWithin(ps[..|ps| - 1], i);
      hide ProjectExcess;
    }
  }

  lemma OvercountedIs(p: Project)
    ensures Overcounted(p) <==> ProjectExcess(p) > 0.001
  {
    hide SumBy;
  }

  /** The three checks of the sums come down to one bound on all overcounted seconds. */
  lemma SumsMean(total: real, ps: seq<Project>)
    requires AllSound(ps)
    ensures SumsAcceptable(total, ps) <==> SumBy(ps, EXCESS) + Max(0.0, ProjectSum(ps) - total) <= 0.001
  {
    DaySlicesSum(total, ps);
    ExcessesVanish(ps);
    forall i | 0 <= i < |ps|
      ensures ProjectExcess(ps[i]) <= SumBy(ps, EXCESS) && (Overcounted(ps[i]) <==> ProjectExcess(ps[i]) > 0.001)
    {
      EachWithin(ps, i);
      OvercountedIs(ps[i]);
    }
    hide SumBy, DaySlices, ProjectSum, EntitySum, AllSound, Overcounted, ProjectExcess;
  }

  // ---- The law ----

  /** The day or the account names a zone, not two different ones, and it is known. */
  ghost predicate ZoneFine(d: RawDay, account: Option<string>, knownZone: string -> bool) {
    var given, expected := NamedZone(d.timezone), NamedZone(account);
    && (given || expected) && (given && expected ==> d.timezone.value == account.value)
    && knownZone(if d.timezone.Some? then d.timezone.value else account.value)
  }

  ghost predicate NamedZone(zone: Option<string>) {
    zone.Some? && zone.value != ""
  }

  /**
   A day is accepted exactly when nothing in it is blank, negative or doubled, its zone is known, and all its overcounts
   together stay within a millisecond.
   */
  lemma AcceptanceMeans(text: TextOps, d: RawDay, account: Option<string>, knownZone: string -> bool)
    ensures Acceptable(text, d, account, knownZone) <==>
            && d.total >= 0.0 && ZoneFine(d, account, knownZone)
            && ProjectsFine(text, d.projects) && RowsFine(d.rows)
            && OvercountedSeconds(d) <= 0.001
  {
    hide *;
    ProjectsFineIs(text, d.projects);
    RowsFineIs(None, d.rows);
    ZoneFineIs(d, account, knownZone);
    AcceptableIs(text, d, account, knownZone);
    if ProjectsFine(text, d.projects) { OvercountsMean(text, d); }
  }

  lemma ZoneFineIs(d: RawDay, account: Option<string>, knownZone: string -> bool)
    ensures TimezoneAcceptable(d, account, knownZone) <==> ZoneFine(d, account, knownZone)
  {
  }

  lemma OvercountsMean(text: TextOps, d: RawDay)
    requires ProjectsFine(text, d.projects)
    ensures SumsAcceptable(d.total, NormalizedProjects(text, d.projects)) <==> OvercountedSeconds(d) <= 0.001
  {
    ProjectsFineIs(text, d.projects);
    assert forall p :: p in d.projects ==> ProjectFine(text, p) by { hide ProjectFine; }
    hide ProjectsFine, ProjectsAcceptable, ProjectFine;
    AcceptedAreSound(text, d.projects);
    SumsMean(d.total, NormalizedProjects(text, d.projects));
    ProjectsSum(text, d.projects);
    ExcessesAre(text, d.projects);
    hide SumsAcceptable, ProjectSum, SumBy, NormalizedProjects, ExcessSeconds, ProjectSeconds, AllSound;
  }
}
