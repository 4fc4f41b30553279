/** What an import stores, read off the dump. */
module ImportedContent {
  import opened SliceTypes
  import opened Text
  import opened Orders
  import opened Rearrange
  import opened Locales
  import opened Canonical
  import opened Importer

  // ---- Dependencies ----

  /** The canonical dependencies are the nonempty texts that trimming and NFC leave, each once. */
  lemma CanonicalMeans(l: Locale, ds: seq<string>)
    requires TotalOrder(l.ordinal)
    ensures var r := Canonicalized(l, ds);
            && (forall x :: x in r <==> x != "" && exists d :: d in ds && x == l.text.nfc(Trim(d)))
            && forall i, j :: 0 <= i < j < |r| ==> r[i] != r[j] && l.ordinal(r[i], r[j])
  {
    CanonicalIsOrderedSet(l, ds);
    var r := Canonicalized(l, ds);
    assert forall x :: x in MeaningOf(l, ds) <==> x != "" && exists d :: d in ds && x == l.text.nfc(Trim(d)) by {
      hide Trim;
    }
    UniquesAre(l, ds);
    SortContents(Uniques(l, ds), l.ordinal);
    hide MeaningOf, Sort, Uniques, Trim;
    NoRepeatsKept(Uniques(l, ds), r);
  }

  lemma NoRepeatsKept(a: seq<string>, b: seq<string>)
    requires NoRepeats(a) && multiset(a) == multiset(b)
    ensures NoRepeats(b)
  {
    forall i, j | 0 <= i < j < |b| ensures b[i] != b[j] {
      if b[i] == b[j] {
        Twice(b, i, j);
        OnceEach(a, b[i]);
      }
    }
  }

  lemma Twice(b: seq<string>, i: nat, j: nat)
    requires i < j < |b| && b[i] == b[j]
    ensures multiset(b)[b[i]] >= 2
  {
    assert b == b[..i] + [b[i]] + b[i + 1..j] + [b[j]] + b[j + 1..];
  }

  // ---- Seconds ----

  ghost function ListedSeconds(es: seq<EntityRow>): real {
    if es == [] then 0.0 else ListedSeconds(es[..|es| - 1]) + es[|es| - 1].seconds
  }

  /** Seconds of all entities of the day. */
  ghost function DaySeconds(ps: seq<ProjectDay>): real {
    if ps == [] then 0.0 else DaySeconds(ps[..|ps| - 1]) + ListedSeconds(ps[|ps| - 1].entities)
  }

  /** Seconds of the entities of one type whose name has the normal form. */
  ghost function NamedSeconds(text: TextOps, es: seq<EntityRow>, entity: string, t: EntityType): real {
    if es == [] then 0.0
    else
      var e := es[|es| - 1];
      NamedSeconds(text, es[..|es| - 1], entity, t)
      + if e.entityType == t && NormalizeEntity(text, e.name, e.entityType) == entity then e.seconds else 0.0
  }

  /** The same over all projects of the name. */
  ghost function RecordedSeconds(text: TextOps, ps: seq<ProjectDay>, project: string, entity: string,
                                 t: EntityType): real {
    if ps == [] then 0.0
    else
      var p := ps[|ps| - 1];
      RecordedSeconds(text, ps[..|ps| - 1], project, entity, t)
      + if p.name == project then NamedSeconds(text, p.entities, entity, t) else 0.0
  }

  ghost predicate Names(text: TextOps, ps: seq<ProjectDay>, project: string, entity: string, t: EntityType) {
    exists p :: p in ps && p.name == project
                && exists e ::
                   e in p.entities && e.entityType == t && NormalizeEntity(text, e.name, e.entityType) == entity
  }

  lemma {:induction false} ItemsTotal(text: TextOps, p: ProjectDay)
    ensures SumBy(ProjectItems(text, p), SECONDS) == ListedSeconds(p.entities)
    decreases |p.entities|
  {
    var n := |p.entities|;
    if n > 0 {
      var shorter := p.(entities := p.entities[..n - 1]);
      ItemsTotal(text, shorter);
      assert ProjectItems(text, p)[..n - 1] == ProjectItems(text, shorter);
      hide NormalizeEntity;
    }
  }

  lemma {:induction false} DayTotal(text: TextOps, ps: seq<ProjectDay>)
    ensures SumBy(DayItems(text, ps), SECONDS) == DaySeconds(ps)
  {
    if ps != [] {
      var n := |ps| - 1;
      DayTotal(text, ps[..n]);
      ItemsTotal(text, ps[n]);
      SumByAppend(DayItems(text, ps[..n]), ProjectItems(text, ps[n]), SECONDS);
      hide SumBy, ProjectItems, ListedSeconds;
    }
  }

  lemma {:induction false} SecondsAppend(a: seq<Slice>, b: seq<Slice>, k: Key)
    ensures SecondsWith(a + b, k) == SecondsWith(a, k) + SecondsWith(b, k)
    decreases |b|
  {
    if b == [] {
      assert a + b == a;
    } else {
      SecondsAppend(a, b[..|b| - 1], k);
      assert (a + b)[..|a + b| - 1] == a + b[..|b| - 1];
    }
  }

  lemma {:induction false} ItemsNamed(text: TextOps, p: ProjectDay, project: string, entity: string, t: EntityType)
    ensures SecondsWith(ProjectItems(text, p), Key(project, entity, t, EntitySlice)) ==
            if p.name == project then NamedSeconds(text, p.entities, entity, t) else 0.0
    decreases |p.entities|
  {
    var n := |p.entities|;
    if n > 0 {
      var shorter := p.(entities := p.entities[..n - 1]);
      ItemsNamed(text, shorter, project, entity, t);
      assert ProjectItems(text, p)[..n - 1] == ProjectItems(text, shorter);
      hide NormalizeEntity;
    }
  }

  lemma {:induction false} DayNamed(text: TextOps, ps: seq<ProjectDay>, project: string, entity: string, t: EntityType)
    ensures SecondsWith(DayItems(text, ps), Key(project, entity, t, EntitySlice))
            == RecordedSeconds(text, ps, project, entity, t)
  {
    if ps != [] {
      var n := |ps| - 1;
      DayNamed(text, ps[..n], project, entity, t);
      ItemsNamed(text, ps[n], project, entity, t);
      SecondsAppend(DayItems(text, ps[..n]), ProjectItems(text, ps[n]), Key(project, entity, t, EntitySlice));
      hide SecondsWith, ProjectItems, NamedSeconds;
    }
  }

  lemma {:induction false} KeysNamed(text: TextOps, ps: seq<ProjectDay>, project: string, entity: string, t: EntityType)
    ensures HasKey(DayItems(text, ps), Key(project, entity, t, EntitySlice)) <==> Names(text, ps, project, entity, t)
  {
    var k := Key(project, entity, t, EntitySlice);
    if ps != [] {
      var n := |ps| - 1;
      KeysNamed(text, ps[..n], project, entity, t);
      var a, b := DayItems(text, ps[..n]), ProjectItems(text, ps[n]);
      assert forall j :: 0 <= j < |b| ==> b[j] == EntityItem(text, ps[n].name, ps[n].entities[j]);
      KeyOfConcat(a, b, k);
      NamesStep(text, ps, project, entity, t);
      assert HasKey(b, k) <==>
        ps[n].name == project
        && exists e ::
           e in ps[n].entities && e.entityType == t && NormalizeEntity(text, e.name, e.entityType) == entity by {
        hide NormalizeEntity;
        if e :| ps[n].name == project && e in ps[n].entities && e.entityType == t
                && NormalizeEntity(text, e.name, e.entityType) == entity {
          var j :| 0 <= j < |ps[n].entities| && ps[n].entities[j] == e;
          assert b[j].key == k;
        }
      }
      hide HasKey, Names, ProjectItems;
    }
  }

  lemma KeyOfConcat(a: seq<Slice>, b: seq<Slice>, k: Key)
    ensures HasKey(a + b, k) <==> HasKey(a, k) || HasKey(b, k)
  {
    var all := a + b;
    if i :| 0 <= i < |a| && a[i].key == k { assert all[i].key == k; }
    if i :| 0 <= i < |b| && b[i].key == k { assert all[|a| + i].key == k; }
  }

  lemma NamesStep(text: TextOps, ps: seq<ProjectDay>, project: string, entity: string, t: EntityType)
    requires ps != []
    ensures var n := |ps| - 1;
            Names(text, ps, project, entity, t) <==>
            || Names(text, ps[..n], project, entity, t)
            || (ps[n].name == project
                && exists e ::
                   e in ps[n].entities && e.entityType == t && NormalizeEntity(text, e.name, e.entityType) == entity)
  {
    hide NormalizeEntity;
    assert ps == ps[..|ps| - 1] + [ps[|ps| - 1]];
  }

  // ---- The rows of a day ----

  /**
   A day is stored with one row for each entity, whose seconds are those of all its spellings, and with a residual row
   exactly when more than a second is left or the day has heartbeats.
   */
  lemma StoredMeans(text: TextOps, d: DumpDay)
    ensures var rows, rest := StoredSlices(text, d), d.total - DaySeconds(d.projects);
            && (forall i, j :: 0 <= i < j < |rows| ==> rows[i].key != rows[j].key)
            && (forall r :: r in rows && r.key.kind == EntitySlice ==>
                  && Names(text, d.projects, r.key.project, r.key.entity, r.key.entityType)
                  && r.seconds == RecordedSeconds(text, d.projects, r.key.project, r.key.entity, r.key.entityType))
            && (forall project, entity, t :: Names(text, d.projects, project, entity, t) ==>
                  HasKey(rows, Key(project, entity, t, EntitySlice)))
            && (forall r :: r in rows && r.key.kind != EntitySlice ==>
                  && r.key == Key("__unattributed__", "__unattributed__", Unattributed, UnattributedResidual)
                  && (rest > 1.0 || d.beats != []) && r.seconds == if rest > 0.0 then rest else 0.0)
            && (rest > 1.0 || d.beats != [] ==>
                  HasKey(rows, Key("__unattributed__", "__unattributed__", Unattributed, UnattributedResidual)))
  {
    hide *;
    DayTotal(text, d.projects);
    RowsAre(text, d);
    var items, rest := DayItems(text, d.projects), d.total - DaySeconds(d.projects);
    AddAllIs(items);
    forall k ensures HasKey(AddAll(items), k) <==> HasKey(items, k)
             ensures SecondsWith(AddAll(items), k) == SecondsWith(items, k) {
      MergedByKey(items, k);
    }
    forall project, entity, t
      ensures HasKey(items, Key(project, entity, t, EntitySlice)) <==> Names(text, d.projects, project, entity, t)
      ensures SecondsWith(items, Key(project, entity, t, EntitySlice))
              == RecordedSeconds(text, d.projects, project, entity, t)
    {
      KeysNamed(text, d.projects, project, entity, t);
      DayNamed(text, d.projects, project, entity, t);
    }
    EntityKeys(text, d.projects);
    RowsOfDay(text, d, AddAll(items), StoredSlices(text, d), rest);
  }

  lemma EntityKeys(text: TextOps, ps: seq<ProjectDay>)
    ensures forall k :: HasKey(DayItems(text, ps), k) ==> k.kind == EntitySlice
  {
    ItemsAreEntities(text, ps);
    hide DayItems;
  }

  /** The merged entity rows, and the residual row behind them. */
  lemma RowsAre(text: TextOps, d: DumpDay)
    requires SumBy(DayItems(text, d.projects), SECONDS) == DaySeconds(d.projects)
    ensures var rest := d.total - DaySeconds(d.projects);
            StoredSlices(text, d) == AddAll(DayItems(text, d.projects))
            + if rest > 1.0 || d.beats != []
              then [Slice(Key("__unattributed__", "__unattributed__", Unattributed, UnattributedResidual),
                          if rest > 0.0 then rest else 0.0)] else []
  {
    ResidualIsNew(text, d.projects, Max(0.0, d.total - EntitySeconds(text, d)));
    hide DayItems, AddAll, SumBy, IndexOf, DaySeconds;
  }

  lemma {:induction false} SecondsOfRow(rows: seq<Slice>, i: nat)
    requires DistinctBy(rows, SLICE_KEY) && i < |rows|
    ensures SecondsWith(rows, rows[i].key) == rows[i].seconds
    decreases |rows|
  {
    var n := |rows| - 1;
    assert forall j :: 0 <= j < n ==> SLICE_KEY(rows[j]) != SLICE_KEY(rows[n]);
    assert DistinctBy(rows[..n], SLICE_KEY);
    if i < n { SecondsOfRow(rows[..n], i); } else { NoSeconds(rows[..n], rows[n].key); }
  }

  lemma {:induction false} NoSeconds(rows: seq<Slice>, k: Key)
    requires forall j :: 0 <= j < |rows| ==> rows[j].key != k
    ensures SecondsWith(rows, k) == 0.0
  {
    if rows != [] { NoSeconds(rows[..|rows| - 1], k); }
  }

  lemma RowsOfDay(text: TextOps, d: DumpDay, merged: seq<Slice>, rows: seq<Slice>, rest: real)
    requires DistinctBy(merged, SLICE_KEY)
    requires forall k :: HasKey(merged, k) ==> k.kind == EntitySlice
    requires forall project, entity, t ::
               (HasKey(merged, Key(project, entity, t, EntitySlice)) <==> Names(text, d.projects, project, entity, t))
               && SecondsWith(merged, Key(project, entity, t, EntitySlice))
                  == RecordedSeconds(text, d.projects, project, entity, t)
    requires rows == merged
                     + if rest > 1.0 || d.beats != []
                       then [Slice(Key("__unattributed__", "__unattributed__", Unattributed, UnattributedResidual),
                                   if rest > 0.0 then rest else 0.0)] else []
    ensures forall i, j :: 0 <= i < j < |rows| ==> rows[i].key != rows[j].key
    ensures forall r :: r in rows && r.key.kind == EntitySlice ==>
              && Names(text, d.projects, r.key.project, r.key.entity, r.key.entityType)
              && r.seconds == RecordedSeconds(text, d.projects, r.key.project, r.key.entity, r.key.entityType)
    ensures forall project, entity, t :: Names(text, d.projects, project, entity, t) ==>
              HasKey(rows, Key(project, entity, t, EntitySlice))
    ensures forall r :: r in rows && r.key.kind != EntitySlice ==>
              && r.key == Key("__unattributed__", "__unattributed__", Unattributed, UnattributedResidual)
              && (rest > 1.0 || d.beats != []) && r.seconds == if rest > 0.0 then rest else 0.0
    ensures rest > 1.0 || d.beats != [] ==>
              HasKey(rows, Key("__unattributed__", "__unattributed__", Unattributed, UnattributedResidual))
  {
    hide Names, RecordedSeconds, SecondsWith;
    var residual := rows[|merged|..];
    forall i: nat | i < |merged|
      ensures HasKey(merged, merged[i].key) && merged[i].key.kind == EntitySlice && rows[i] == merged[i]
              && SecondsWith(merged, merged[i].key) == merged[i].seconds
    {
      SecondsOfRow(merged, i);
    }
    forall i, j | 0 <= i < j < |rows| ensures rows[i].key != rows[j].key {
      if j < |merged| { assert SLICE_KEY(merged[i]) != SLICE_KEY(merged[j]); }
    }
    forall k | HasKey(merged, k) ensures HasKey(rows, k) {
      var i :| 0 <= i < |merged| && merged[i].key == k;
      assert rows[i].key == k;
    }
    forall r | r in rows && r.key.kind == EntitySlice ensures r in merged {
      var i :| 0 <= i < |rows| && rows[i] == r;
    }
    if rest > 1.0 || d.beats != [] { assert rows[|merged|].key.kind == UnattributedResidual; }
    forall r | r in merged
      ensures Names(text, d.projects, r.key.project, r.key.entity, r.key.entityType)
      ensures r.seconds == RecordedSeconds(text, d.projects, r.key.project, r.key.entity, r.key.entityType)
    {
      var i :| 0 <= i < |merged| && merged[i] == r;
      var k := r.key;
      assert k == Key(k.project, k.entity, k.entityType, EntitySlice);
    }
  }
}
