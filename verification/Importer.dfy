/** The day loop of the dump importer into an empty archive: slices, residuals and heartbeat occurrences. */
module Importer {
  import opened Options
  import opened SliceTypes
  import opened Text
  import opened Orders
  import opened Rearrange
  import opened Locales
  import opened Canonical

  const DIVERGENCE := 1.0
  const UNATTRIBUTED := "__unattributed__"

  datatype EntityRow = EntityRow(name: string, entityType: EntityType, seconds: real)
  datatype ProjectDay = ProjectDay(name: string, entities: seq<EntityRow>)
  datatype DumpDay = DumpDay(date: string, total: real, projects: seq<ProjectDay>, beats: seq<Beat>)

  datatype Key = Key(project: string, entity: string, entityType: EntityType, kind: SliceKind)
  datatype Slice = Slice(key: Key, seconds: real)
  datatype StoredDay = StoredDay(date: string, total: real, slices: seq<Slice>)

  const SECONDS: Slice -> real := (s: Slice) => s.seconds
  const SLICE_KEY: Slice -> Key := (s: Slice) => s.key

  // ---- The entity rows of a day, in order ----

  function EntityItem(text: TextOps, project: string, e: EntityRow): Slice {
    Slice(Key(project, NormalizeEntity(text, e.name, e.entityType), e.entityType, EntitySlice), e.seconds)
  }

  function ProjectItems(text: TextOps, p: ProjectDay): seq<Slice> {
    seq(|p.entities|, i requires 0 <= i < |p.entities| => EntityItem(text, p.name, p.entities[i]))
  }

  function DayItems(text: TextOps, ps: seq<ProjectDay>): seq<Slice> {
    if ps == [] then [] else DayItems(text, ps[..|ps| - 1]) + ProjectItems(text, ps[|ps| - 1])
  }

  function EntitySeconds(text: TextOps, d: DumpDay): real {
    SumBy(DayItems(text, d.projects), SECONDS)
  }

  function Max(x: real, y: real): real { if x < y then y else x }

  predicate WritesResidual(text: TextOps, d: DumpDay) {
    d.total - EntitySeconds(text, d) > DIVERGENCE || d.beats != []
  }

  function ResidualItem(seconds: real): Slice {
    Slice(Key(UNATTRIBUTED, UNATTRIBUTED, Unattributed, UnattributedResidual), seconds)
  }

  // ---- Upserting with added seconds ----

  function IndexOf(rows: seq<Slice>, k: Key): Option<nat> {
    if rows == [] then None
    else if rows[|rows| - 1].key == k then Some(|rows| - 1)
    else IndexOf(rows[..|rows| - 1], k)
  }

  function AddSlice(rows: seq<Slice>, x: Slice): seq<Slice> {
    var i := IndexOf(rows, x.key);
    if i.Some? && i.value < |rows| then rows[i.value := rows[i.value].(seconds := rows[i.value].seconds + x.seconds)]
        else rows + [x]
  }

  function AddAll(items: seq<Slice>): seq<Slice> {
    if items == [] then [] else AddSlice(AddAll(items[..|items| - 1]), items[|items| - 1])
  }

  /** The rows a day ends up with. */
  function StoredSlices(text: TextOps, d: DumpDay): seq<Slice> {
    var rows := AddAll(DayItems(text, d.projects));
    if WritesResidual(text, d) then AddSlice(rows, ResidualItem(Max(0.0, d.total - EntitySeconds(text, d)))) else rows
  }

  lemma {:induction false} IndexIs(rows: seq<Slice>, k: Key)
    ensures var i := IndexOf(rows, k);
            && (i.Some? ==> i.value < |rows| && rows[i.value].key == k)
            && (i.None? ==> forall j :: 0 <= j < |rows| ==> rows[j].key != k)
  {
    if rows != [] { IndexIs(rows[..|rows| - 1], k); }
  }

  /** One upsert adds its seconds and keeps keys distinct. */
  lemma AddSliceIs(rows: seq<Slice>, x: Slice)
    ensures SumBy(AddSlice(rows, x), SECONDS) == SumBy(rows, SECONDS) + x.seconds
    ensures DistinctBy(rows, SLICE_KEY) ==> DistinctBy(AddSlice(rows, x), SLICE_KEY)
    ensures |AddSlice(rows, x)| == |rows| + if IndexOf(rows, x.key).None? then 1 else 0
  {
    IndexIs(rows, x.key);
    var i := IndexOf(rows, x.key);
    if i.Some? {
      SumChanged(rows, i.value, rows[i.value].(seconds := rows[i.value].seconds + x.seconds));
    } else {
      assert (rows + [x])[..|rows|] == rows;
    }
    hide IndexOf;
  }

  lemma SumChanged(rows: seq<Slice>, i: nat, x: Slice)
    requires i < |rows|
    ensures SumBy(rows[i := x], SECONDS) == SumBy(rows, SECONDS) - rows[i].seconds + x.seconds
  {
    var changed := rows[i := x];
    SumByRemove(rows, i, SECONDS);
    SumByRemove(changed, i, SECONDS);
    hide SumBy;
    assert changed[..i] == rows[..i] && changed[i + 1..] == rows[i + 1..];
  }

  lemma {:induction false} AddAllIs(items: seq<Slice>)
    ensures SumBy(AddAll(items), SECONDS) == SumBy(items, SECONDS)
    ensures DistinctBy(AddAll(items), SLICE_KEY)
    ensures |AddAll(items)| <= |items|
  {
    if items != [] {
      AddAllIs(items[..|items| - 1]);
      AddSliceIs(AddAll(items[..|items| - 1]), items[|items| - 1]);
      hide AddSlice, DistinctBy;
    }
  }

  // ---- What a row holds ----

  /** Seconds of all items with the key. */
  function SecondsWith(items: seq<Slice>, k: Key): real {
    if items == [] then 0.0
    else SecondsWith(items[..|items| - 1], k) + if items[|items| - 1].key == k then items[|items| - 1].seconds else 0.0
  }

  predicate HasKey(items: seq<Slice>, k: Key) {
    exists i | 0 <= i < |items| :: items[i].key == k
  }

  lemma HasKeyLast(items: seq<Slice>, k: Key)
    requires items != []
    ensures HasKey(items, k) <==> HasKey(items[..|items| - 1], k) || items[|items| - 1].key == k
  {
    var n := |items| - 1;
    if HasKey(items[..n], k) {
      var i :| 0 <= i < n && items[..n][i].key == k;
      assert items[i].key == k;
    }
    if HasKey(items, k) {
      var i :| 0 <= i < |items| && items[i].key == k;
      if i < n { assert items[..n][i].key == k; }
    }
  }

  lemma AddSliceSeconds(rows: seq<Slice>, x: Slice, k: Key)
    requires DistinctBy(rows, SLICE_KEY)
    ensures HasKey(AddSlice(rows, x), k) <==> HasKey(rows, k) || x.key == k
    ensures SecondsWith(AddSlice(rows, x), k) == SecondsWith(rows, k) + if x.key == k then x.seconds else 0.0
  {
    IndexIs(rows, x.key);
    var i := IndexOf(rows, x.key);
    if i.Some? {
      var added := AddSlice(rows, x);
      SecondsChanged(rows, i.value, added[i.value], k);
      hide IndexOf, SecondsWith;
      assert forall j :: 0 <= j < |rows| ==> added[j].key == rows[j].key;
      if HasKey(rows, k) {
        var j :| 0 <= j < |rows| && rows[j].key == k;
        assert added[j].key == k;
      }
    } else {
      var added := rows + [x];
      assert added[..|rows|] == rows;
      HasKeyLast(added, k);
    }
  }

  lemma {:induction false} SecondsChanged(rows: seq<Slice>, i: nat, x: Slice, k: Key)
    requires i < |rows| && x.key == rows[i].key
    ensures SecondsWith(rows[i := x], k) == SecondsWith(rows, k) + if x.key == k
            then x.seconds - rows[i].seconds else 0.0
    decreases |rows|
  {
    var n := |rows| - 1;
    if i < n {
      SecondsChanged(rows[..n], i, x, k);
      assert rows[i := x][..n] == rows[..n][i := x];
    } else {
      assert rows[i := x][..n] == rows[..n];
    }
  }

  /** Each key has one row, with the seconds of all entity rows that normalise to it; nothing else is stored. */
  lemma {:induction false} MergedByKey(items: seq<Slice>, k: Key)
    ensures HasKey(AddAll(items), k) <==> HasKey(items, k)
    ensures SecondsWith(AddAll(items), k) == SecondsWith(items, k)
  {
    if items != [] {
      MergedByKey(items[..|items| - 1], k);
      AddAllIs(items[..|items| - 1]);
      AddSliceSeconds(AddAll(items[..|items| - 1]), items[|items| - 1], k);
      HasKeyLast(items, k);
      hide AddSlice, DistinctBy, HasKey;
    }
  }

  lemma {:induction false} ItemsAreEntities(text: TextOps, ps: seq<ProjectDay>)
    ensures forall i :: 0 <= i < |DayItems(text, ps)| ==> DayItems(text, ps)[i].key.kind == EntitySlice
  {
    if ps != [] {
      ItemsAreEntities(text, ps[..|ps| - 1]);
      hide NormalizeEntity;
    }
  }

  /**
   Each day's stored seconds: the larger of total and entity sum with a residual, else at most a second below the
   total.
   */
  lemma DayConserves(text: TextOps, d: DumpDay)
    ensures var stored, entities := SumBy(StoredSlices(text, d), SECONDS), EntitySeconds(text, d);
            && (WritesResidual(text, d) ==> stored == Max(d.total, entities))
            && (!WritesResidual(text, d) ==> stored == entities >= d.total - DIVERGENCE)
    ensures DistinctBy(StoredSlices(text, d), SLICE_KEY)
  {
    var items := DayItems(text, d.projects);
    AddAllIs(items);
    AddSliceIs(AddAll(items), ResidualItem(Max(0.0, d.total - EntitySeconds(text, d))));
    hide AddAll, AddSlice, DayItems, SumBy, DistinctBy;
  }

  /** The residual is a row of its own. */
  lemma ResidualIsNew(text: TextOps, ps: seq<ProjectDay>, seconds: real)
    ensures IndexOf(AddAll(DayItems(text, ps)), ResidualItem(seconds).key).None?
  {
    var items, k := DayItems(text, ps), ResidualItem(seconds).key;
    ItemsAreEntities(text, ps);
    MergedByKey(items, k);
    IndexIs(AddAll(items), k);
    hide DayItems, AddAll, IndexOf;
  }

  // ---- Heartbeats ----

  datatype StoredBeat = StoredBeat(id: string, payload: Payload, occurrences: nat)
  datatype Variant = Variant(id: string, payload: Payload, conflict: bool, occurrences: nat)

  function BeatCount(rows: seq<StoredBeat>): nat {
    if rows == [] then 0 else BeatCount(rows[..|rows| - 1]) + rows[|rows| - 1].occurrences
  }

  function VariantCount(rows: seq<Variant>): nat {
    if rows == [] then 0 else VariantCount(rows[..|rows| - 1]) + rows[|rows| - 1].occurrences
  }

  lemma {:induction false} BumpBeat(rows: seq<StoredBeat>, i: nat)
    requires i < |rows|
    ensures BeatCount(rows[i := rows[i].(occurrences := rows[i].occurrences + 1)]) == BeatCount(rows) + 1
    decreases |rows|
  {
    var n, bumped := |rows| - 1, rows[i := rows[i].(occurrences := rows[i].occurrences + 1)];
    if i < n {
      BumpBeat(rows[..n], i);
      assert bumped[..n] == rows[..n][i := rows[i].(occurrences := rows[i].occurrences + 1)];
    } else {
      assert bumped[..n] == rows[..n];
    }
  }

  lemma {:induction false} BumpVariant(rows: seq<Variant>, i: nat)
    requires i < |rows|
    ensures VariantCount(rows[i := rows[i].(occurrences := rows[i].occurrences + 1)]) == VariantCount(rows) + 1
    decreases |rows|
  {
    var n, bumped := |rows| - 1, rows[i := rows[i].(occurrences := rows[i].occurrences + 1)];
    if i < n {
      BumpVariant(rows[..n], i);
      assert bumped[..n] == rows[..n][i := rows[i].(occurrences := rows[i].occurrences + 1)];
    } else {
      assert bumped[..n] == rows[..n];
    }
  }

  function AllBeats(ds: seq<DumpDay>): seq<Beat> {
    if ds == [] then [] else AllBeats(ds[..|ds| - 1]) + ds[|ds| - 1].beats
  }

  /** The same id with different canonical payloads. */
  ghost predicate HasConflict(l: Locale, beats: seq<Beat>) {
    exists i, j ::
        0 <= i < j < |beats| && beats[i].id == beats[j].id && PayloadOf(l, beats[i]) != PayloadOf(l, beats[j])
  }

  ghost predicate RepeatsADate(ds: seq<DumpDay>) {
    exists i, j :: 0 <= i < j < |ds| && ds[i].date == ds[j].date
  }

  /** Rows of the days stored so far. */
  function RowCount(days: seq<StoredDay>): nat {
    if days == [] then 0 else RowCount(days[..|days| - 1]) + |days[|days| - 1].slices|
  }
}
