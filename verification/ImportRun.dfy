/** One import into an empty archive: what it stores and the counters it reports. */
module ImportRun {
  import opened Options
  import opened Text
  import opened Orders
  import opened Locales
  import opened Canonical
  import opened Importer
  import opened ImportTables

  ghost predicate AllAgree(l: Locale, seen: map<string, Payload>, read: seq<Beat>) {
    forall i :: 0 <= i < |read| && read[i].id in seen ==> PayloadOf(l, read[i]) == seen[read[i].id]
  }

  lemma AgreeMeansNoConflict(l: Locale, seen: map<string, Payload>, read: seq<Beat>)
    requires SeenFits(l, seen, read)
    ensures AllAgree(l, seen, read) <==> !HasConflict(l, read)
  {
    hide PayloadOf;
    if !AllAgree(l, seen, read) {
      var i :| 0 <= i < |read| && PayloadOf(l, read[i]) != seen[read[i].id];
      assert IsFirst(l, read, read[i].id, seen[read[i].id]);
      var j :| 0 <= j < |read| && read[j].id == read[i].id && PayloadOf(l, read[j]) == seen[read[i].id];
      assert i < j || j < i;
    }
  }

  lemma ReadOne(l: Locale, seen: map<string, Payload>, read: seq<Beat>, b: Beat)
    requires SeenFits(l, seen, read)
    ensures b.id in seen ==> SeenFits(l, seen, read + [b])
    ensures b.id in seen ==>
            (AllAgree(l, seen, read + [b]) <==> AllAgree(l, seen, read) && PayloadOf(l, b) == seen[b.id])
    ensures b.id !in seen ==> SeenFits(l, seen[b.id := PayloadOf(l, b)], read + [b])
    ensures b.id !in seen ==> (AllAgree(l, seen[b.id := PayloadOf(l, b)], read + [b]) <==> AllAgree(l, seen, read))
  {
    hide PayloadOf;
    var all := read + [b];
    assert forall i :: 0 <= i < |read| ==> all[i] == read[i];
    assert all[|read|] == b;
    forall id | id in seen ensures IsFirst(l, all, id, seen[id]) {
      assert IsFirst(l, read, id, seen[id]);
      var i :| 0 <= i < |read| && read[i].id == id && PayloadOf(l, read[i]) == seen[id]
               && forall j :: 0 <= j < i ==> read[j].id != id;
      assert all[i] == read[i];
    }
    if b.id !in seen {
      assert forall j :: 0 <= j < |read| ==> all[j].id != b.id;
      assert IsFirst(l, all, b.id, PayloadOf(l, b));
    }
  }

  class Tables {
    var days: seq<StoredDay>
    var beats: seq<StoredBeat>
    var variants: seq<Variant>
    var seen: map<string, Payload>
    var sliceCount: nat
    var mergedSliceRows: nat
    var unattributedSliceCount: nat
    var unattributedSeconds: real
    var heartbeatCount: nat
    var duplicateHeartbeatIds: nat
    var duplicateOccurrences: nat
    var conflictingHeartbeatIds: nat

    constructor ()
      ensures Empty()
    {
      days, beats, variants, seen := [], [], [], map[];
      sliceCount, mergedSliceRows, unattributedSliceCount, unattributedSeconds := 0, 0, 0, 0.0;
      heartbeatCount, duplicateHeartbeatIds, duplicateOccurrences, conflictingHeartbeatIds := 0, 0, 0, 0;
    }

    ghost predicate Empty()
      reads this
    {
      && days == [] && beats == [] && variants == [] && seen == map[]
      && sliceCount == mergedSliceRows == unattributedSliceCount == 0 && unattributedSeconds == 0.0
      && heartbeatCount == duplicateHeartbeatIds == duplicateOccurrences == conflictingHeartbeatIds == 0
    }

    /** Every beat read is a stored heartbeat, a duplicate or a conflict, and an occurrence of one variant. */
    ghost predicate CountsFit(read: seq<Beat>)
      reads this
    {
      && heartbeatCount + duplicateHeartbeatIds + conflictingHeartbeatIds == |read|
      && duplicateOccurrences == duplicateHeartbeatIds + conflictingHeartbeatIds
      && |beats| == heartbeatCount && BeatCount(beats) == heartbeatCount + duplicateHeartbeatIds
      && VariantCount(variants) == |read|
    }

    ghost predicate RowsFit(l: Locale, read: seq<Beat>)
      reads this
    {
      BeatsFit(l, beats, seen, read) && VariantsFit(l, variants, seen, read)
    }

    ghost predicate Sound(l: Locale, read: seq<Beat>)
      reads this
    {
      CountsFit(read) && RowsFit(l, read) && SeenFits(l, seen, read)
          && (conflictingHeartbeatIds == 0 <==> AllAgree(l, seen, read))
    }

    method FindBeat(id: string) returns (r: nat)
      requires HasBeat(beats, id)
      ensures r < |beats| && beats[r].id == id
    {
      r := 0;
      while r < |beats| && beats[r].id != id
        invariant r <= |beats| && forall j :: 0 <= j < r ==> beats[j].id != id
      {
        r := r + 1;
      }
    }

    method FindVariant(id: string, payload: Payload) returns (r: Option<nat>)
      ensures r.Some? <==> HasVariant(variants, id, payload)
      ensures r.Some? ==> r.value < |variants| && variants[r.value].id == id && variants[r.value].payload == payload
    {
      for i := 0 to |variants|
        invariant forall j :: 0 <= j < i ==> !(variants[j].id == id && variants[j].payload == payload)
      {
        if variants[i].id == id && variants[i].payload == payload { return Some(i); }
      }
      r := None;
    }

    /** Insert a variant, or count one more occurrence of it. */
    method PutVariant(id: string, payload: Payload, conflict: bool)
      modifies this`variants
      ensures VariantCount(variants) == old(VariantCount(variants)) + 1
      ensures VariantCounted(old(variants), variants, id, payload, conflict)
    {
      var at := FindVariant(id, payload);
      ghost var before := variants;
      if at.Some? {
        var i := at.value;
        BumpVariant(variants, i);
        variants := variants[i := variants[i].(occurrences := variants[i].occurrences + 1)];
      } else {
        variants := variants + [Variant(id, payload, conflict, 1)];
        assert variants[..|before|] == before;
      }
    }

    method BumpBeatRow(id: string)
      requires HasBeat(beats, id)
      modifies this`beats
      ensures |beats| == |old(beats)| && BeatCount(beats) == old(BeatCount(beats)) + 1
      ensures BeatCounted(old(beats), beats, id)
    {
      var at := FindBeat(id);
      BumpBeat(beats, at);
      beats := beats[at := beats[at].(occurrences := beats[at].occurrences + 1)];
    }

    /** One heartbeat: new, an identical repeat, or a conflict; a conflict ends the import unless it is allowed. */
    method ReadBeat(l: Locale, allowConflicts: bool, b: Beat, ghost read: seq<Beat>) returns (ok: bool)
      requires Sound(l, read)
      modifies this`beats, this`variants, this`seen, this`heartbeatCount, this`duplicateHeartbeatIds,
          this`duplicateOccurrences, this`conflictingHeartbeatIds
      ensures ok ==> Sound(l, read + [b])
      ensures ok ==> (allowConflicts || conflictingHeartbeatIds == old(conflictingHeartbeatIds))
      ensures !ok ==> !allowConflicts && HasConflict(l, read + [b])
    {
      hide PayloadOf, VariantCount, BeatCount, HasBeat, SeenFits, AllAgree, HasConflict, BeatsFit, VariantsFit,
           VariantCounted, BeatCounted;
      var payload := PayloadOf(l, b);
      ReadOne(l, seen, read, b);
      ghost var before, listed := beats, variants;
      if b.id in seen {
        AgreeMeansNoConflict(l, seen, read + [b]);
        duplicateOccurrences := duplicateOccurrences + 1;
        if seen[b.id] == payload {
          duplicateHeartbeatIds := duplicateHeartbeatIds + 1;
          SeenIsStored(l, beats, seen, read, b.id);
          BumpBeatRow(b.id);
          BeatsRepeat(l, before, beats, seen, read, b);
          PutVariant(b.id, payload, false);
          VariantsStep(l, listed, variants, seen, read, b, false);
          return true;
        }
        conflictingHeartbeatIds := conflictingHeartbeatIds + 1;
        if !allowConflicts { return false; }
        PutVariant(b.id, payload, true);
        VariantsStep(l, listed, variants, seen, read, b, true);
        BeatsConflict(l, beats, seen, read, b);
        return true;
      }
      VariantsKnow(l, variants, seen, read, b.id, payload);
      BeatsStart(l, beats, seen, read, b);
      seen := seen[b.id := payload];
      beats := beats + [StoredBeat(b.id, payload, 1)];
      NewBeat(before, b.id, payload);
      PutVariant(b.id, payload, false);
      VariantsStep(l, listed, variants, seen, read, b, false);
      heartbeatCount := heartbeatCount + 1;
      ok := true;
    }

    /** The rows of one day: entity slices merged by normalised key, and the residual. */
    method ReadSlices(l: Locale, d: DumpDay) returns (rows: seq<Slice>)
      modifies this`sliceCount, this`mergedSliceRows, this`unattributedSliceCount, this`unattributedSeconds
      ensures rows == StoredSlices(l.text, d)
      ensures sliceCount == old(sliceCount) + |rows|
      ensures sliceCount + mergedSliceRows == old(sliceCount + mergedSliceRows) + |DayItems(l.text, d.projects)|
              + if WritesResidual(l.text, d) then 1 else 0
      ensures unattributedSliceCount == old(unattributedSliceCount) + if WritesResidual(l.text, d) then 1 else 0
      ensures unattributedSeconds == old(unattributedSeconds) + if WritesResidual(l.text, d)
              then Max(0.0, d.total - EntitySeconds(l.text, d)) else 0.0
    {
      rows := [];
      var entitySeconds, ps := 0.0, d.projects;
      NoItems(l.text, ps);
      hide *;
      for i := 0 to |ps|
        invariant rows == AddAll(DayItems(l.text, ps[..i]))
                  && entitySeconds == SumBy(DayItems(l.text, ps[..i]), SECONDS)
        invariant sliceCount == old(sliceCount) + |rows|
        invariant sliceCount + mergedSliceRows == old(sliceCount + mergedSliceRows) + |DayItems(l.text, ps[..i])|
        invariant unattributedSliceCount == old(unattributedSliceCount)
                  && unattributedSeconds == old(unattributedSeconds)
      {
        ItemsStep(l.text, ps, i);
        rows, entitySeconds := ReadProject(l, ps[i], rows, entitySeconds, DayItems(l.text, ps[..i]));
      }
      assert ps[..|ps|] == ps;
      EntitySecondsIs(l.text, d);
      rows := WriteResidual(l, d, rows, d.total - entitySeconds);
    }

    /** The residual slice, for a day with more than a second left or with heartbeats. */
    method WriteResidual(l: Locale, d: DumpDay, before: seq<Slice>, residual: real) returns (rows: seq<Slice>)
      requires before == AddAll(DayItems(l.text, d.projects)) && residual == d.total - EntitySeconds(l.text, d)
      modifies this`sliceCount, this`unattributedSliceCount, this`unattributedSeconds
      ensures rows == StoredSlices(l.text, d)
      ensures sliceCount == old(sliceCount) + |rows| - |before| == old(sliceCount) + if WritesResidual(l.text, d)
              then 1 else 0
      ensures unattributedSliceCount == old(unattributedSliceCount) + if WritesResidual(l.text, d) then 1 else 0
      ensures unattributedSeconds == old(unattributedSeconds) + if WritesResidual(l.text, d)
              then Max(0.0, residual) else 0.0
    {
      hide SumBy, DayItems, AddAll, AddSlice, EntitySeconds, IndexOf;
      rows := before;
      if residual > DIVERGENCE || |d.beats| > 0 {
        var seconds := Max(0.0, residual);
        ResidualIsNew(l.text, d.projects, seconds);
        AddSliceIs(rows, ResidualItem(seconds));
        rows := AddSlice(rows, ResidualItem(seconds));
        sliceCount, unattributedSliceCount, unattributedSeconds := sliceCount + 1, unattributedSliceCount + 1,
            unattributedSeconds + seconds;
      }
    }

    method ReadProject(l: Locale, p: ProjectDay, before: seq<Slice>, sum: real, ghost items: seq<Slice>)
      returns (rows: seq<Slice>, seconds: real)
      requires before == AddAll(items) && sum == SumBy(items, SECONDS)
      modifies this`sliceCount, this`mergedSliceRows
      ensures rows == AddAll(items + ProjectItems(l.text, p))
              && seconds == SumBy(items + ProjectItems(l.text, p), SECONDS)
      ensures sliceCount == old(sliceCount) + |rows| - |before|
      ensures sliceCount + mergedSliceRows == old(sliceCount + mergedSliceRows) + |p.entities|
    {
      rows, seconds := before, sum;
      ghost var all, more := items, ProjectItems(l.text, p);
      ItemCount(l.text, p);
      hide AddSlice, EntityItem, IndexOf, AddAll, SumBy, ProjectItems;
      for i := 0 to |p.entities|
        invariant all == items + more[..i]
        invariant rows == AddAll(all) && seconds == SumBy(all, SECONDS)
        invariant sliceCount == old(sliceCount) + |rows| - |before|
        invariant sliceCount + mergedSliceRows == old(sliceCount + mergedSliceRows) + i
      {
        var x := EntityItem(l.text, p.name, p.entities[i]);
        ItemAt(l.text, p, i);
        assert more[..i + 1] == more[..i] + [x];
        NextItem(all, x);
        ItemSeconds(l.text, p.name, p.entities[i]);
        if IndexOf(rows, x.key).Some? { mergedSliceRows := mergedSliceRows + 1; } else { sliceCount := sliceCount + 1; }
        rows := AddSlice(rows, x);
        seconds := seconds + p.entities[i].seconds;
        all := all + [x];
      }
      assert more[..|p.entities|] == more;
    }

    /** The first i days are stored and their heartbeats read. */
    ghost predicate Progress(l: Locale, dump: seq<DumpDay>, i: nat)
      reads this
    {
      && i <= |dump| && |days| == i && sliceCount == RowCount(days)
      && (forall j :: 0 <= j < i ==> days[j] == StoredDay(dump[j].date, dump[j].total, StoredSlices(l.text, dump[j])))
      && !RepeatsADate(dump[..i]) && Sound(l, AllBeats(dump[..i]))
    }

    lemma StoredOneMore(l: Locale, dump: seq<DumpDay>, i: nat, before: seq<StoredDay>)
      requires i < |dump| && |before| == i && !RepeatsADate(dump[..i + 1]) && sliceCount == RowCount(days)
      requires forall j :: 0 <= j < i ==>
               before[j] == StoredDay(dump[j].date, dump[j].total, StoredSlices(l.text, dump[j]))
      requires days == before + [StoredDay(dump[i].date, dump[i].total, StoredSlices(l.text, dump[i]))]
      requires Sound(l, AllBeats(dump[..i]) + dump[i].beats)
      ensures Progress(l, dump, i + 1)
    {
      BeatsOfNext(dump, i);
      hide Sound, StoredSlices, RepeatsADate, RowCount;
    }

    /** One pass of the day loop. */
    method ImportDay(l: Locale, dump: seq<DumpDay>, i: nat, allowConflicts: bool) returns (ok: bool)
      requires i < |dump| && Progress(l, dump, i)
      modifies this
      ensures ok ==>
              Progress(l, dump, i + 1) && (allowConflicts || conflictingHeartbeatIds == old(conflictingHeartbeatIds))
      ensures !ok ==> RepeatsADate(dump) || (!allowConflicts && HasConflict(l, AllBeats(dump)))
    {
      ghost var read, before := AllBeats(dump[..i]), days;
      hide StoredSlices, PayloadOf, HasConflict, Sound, RepeatsADate, RowCount, AllBeats;
      var known := FindDate(dump[i].date);
      DatesSoFar(dump, days, i);
      if known { return false; }
      StoreDay(l, dump[i], read);
      ok := ReadBeats(l, allowConflicts, dump[i].beats, read);
      if ok {
        StoredOneMore(l, dump, i, before);
      } else {
        ConflictStays(l, dump, i);
      }
    }

    /**
     The import succeeds exactly when no date is repeated and no conflict must end it; its counters then match what
     is stored and what was read.
     */
    method ImportAll(l: Locale, dump: seq<DumpDay>, allowConflicts: bool) returns (ok: bool)
      requires Empty()
      modifies this
      ensures ok <==> !RepeatsADate(dump) && (allowConflicts || !HasConflict(l, AllBeats(dump)))
      ensures ok ==> CountsFit(AllBeats(dump)) && (conflictingHeartbeatIds == 0 <==> !HasConflict(l, AllBeats(dump)))
      ensures ok ==> SeenFits(l, seen, AllBeats(dump)) && RowsFit(l, AllBeats(dump))
      ensures ok ==> sliceCount == RowCount(days) && |days| == |dump|
      ensures ok ==> forall i :: 0 <= i < |dump| ==>
              days[i] == StoredDay(dump[i].date, dump[i].total, StoredSlices(l.text, dump[i]))
    {
      NothingImported(l, dump);
      hide *;
      for i := 0 to |dump|
        invariant Progress(l, dump, i)
        invariant !allowConflicts ==> conflictingHeartbeatIds == 0
      {
        ok := ImportDay(l, dump, i, allowConflicts);
        if !ok { return; }
      }
      assert dump[..|dump|] == dump;
      Imported(l, dump);
      ok := true;
    }

    lemma NothingImported(l: Locale, dump: seq<DumpDay>)
      requires Empty()
      ensures Progress(l, dump, 0) && conflictingHeartbeatIds == 0
    {
      assert dump[..0] == [];
      assert AllAgree(l, seen, []);
    }

    lemma Imported(l: Locale, dump: seq<DumpDay>)
      requires Progress(l, dump, |dump|)
      ensures SeenFits(l, seen, AllBeats(dump)) && RowsFit(l, AllBeats(dump))
      ensures !RepeatsADate(dump) && CountsFit(AllBeats(dump))
              && (conflictingHeartbeatIds == 0 <==> !HasConflict(l, AllBeats(dump)))
      ensures sliceCount == RowCount(days) && |days| == |dump|
      ensures forall i :: 0 <= i < |dump| ==>
              days[i] == StoredDay(dump[i].date, dump[i].total, StoredSlices(l.text, dump[i]))
    {
      assert dump[..|dump|] == dump;
      AgreeMeansNoConflict(l, seen, AllBeats(dump));
      hide StoredSlices, HasConflict, CountsFit, RowsFit, AllAgree, RepeatsADate, SeenFits, RowCount, AllBeats;
    }

    /** The day's total and slices; the heartbeat tables stay as they are. */
    method StoreDay(l: Locale, d: DumpDay, ghost read: seq<Beat>)
      requires Sound(l, read) && sliceCount == RowCount(days)
      modifies this`days, this`sliceCount, this`mergedSliceRows, this`unattributedSliceCount, this`unattributedSeconds
      ensures Sound(l, read) && days == old(days) + [StoredDay(d.date, d.total, StoredSlices(l.text, d))]
      ensures sliceCount == RowCount(days) && conflictingHeartbeatIds == old(conflictingHeartbeatIds)
    {
      hide StoredSlices, SeenFits, AllAgree, HasBeat, HasVariant, BeatCount, VariantCount;
      ghost var before := days;
      var rows := ReadSlices(l, d);
      days := days + [StoredDay(d.date, d.total, rows)];
      assert days[..|before|] == before;
    }

    method FindDate(date: string) returns (found: bool)
      ensures found <==> exists i :: 0 <= i < |days| && days[i].date == date
    {
      for i := 0 to |days|
        invariant forall j :: 0 <= j < i ==> days[j].date != date
      {
        if days[i].date == date { return true; }
      }
      found := false;
    }

    method ReadBeats(l: Locale, allowConflicts: bool, list: seq<Beat>, ghost read: seq<Beat>) returns (ok: bool)
      requires Sound(l, read)
      modifies this`beats, this`variants, this`seen, this`heartbeatCount, this`duplicateHeartbeatIds,
          this`duplicateOccurrences, this`conflictingHeartbeatIds
      ensures ok ==>
              Sound(l, read + list) && (allowConflicts || conflictingHeartbeatIds == old(conflictingHeartbeatIds))
      ensures !ok ==> !allowConflicts && HasConflict(l, read + list)
    {
      hide Sound, HasConflict;
      assert read + list[..0] == read;
      for i := 0 to |list|
        invariant Sound(l, read + list[..i])
        invariant allowConflicts || conflictingHeartbeatIds == old(conflictingHeartbeatIds)
      {
        assert read + list[..i + 1] == read + list[..i] + [list[i]];
        var fine := ReadBeat(l, allowConflicts, list[i], read + list[..i]);
        if !fine {
          ConflictGrows(l, read + list[..i + 1], list[i + 1..]);
          assert read + list == read + list[..i + 1] + list[i + 1..];
          return false;
        }
      }
      assert list[..|list|] == list;
      ok := true;
    }
  }

  lemma NoItems(text: TextOps, ps: seq<ProjectDay>)
    ensures DayItems(text, ps[..0]) == [] && AddAll([]) == [] && SumBy([], SECONDS) == 0.0
  {
  }

  lemma ItemsStep(text: TextOps, ps: seq<ProjectDay>, i: nat)
    requires i < |ps|
    ensures DayItems(text, ps[..i + 1]) == DayItems(text, ps[..i]) + ProjectItems(text, ps[i])
    ensures |ProjectItems(text, ps[i])| == |ps[i].entities|
  {
    hide EntityItem;
    assert ps[..i + 1][..i] == ps[..i];
  }

  lemma EntitySecondsIs(text: TextOps, d: DumpDay)
    ensures EntitySeconds(text, d) == SumBy(DayItems(text, d.projects), SECONDS)
  {
  }

  lemma ItemCount(text: TextOps, p: ProjectDay)
    ensures |ProjectItems(text, p)| == |p.entities|
  {
  }

  lemma ItemAt(text: TextOps, p: ProjectDay, i: nat)
    requires i < |p.entities|
    ensures |ProjectItems(text, p)| == |p.entities|
            && ProjectItems(text, p)[i] == EntityItem(text, p.name, p.entities[i])
  {
    hide EntityItem;
  }

  lemma NextItem(items: seq<Slice>, x: Slice)
    ensures AddAll(items + [x]) == AddSlice(AddAll(items), x)
    ensures SumBy(items + [x], SECONDS) == SumBy(items, SECONDS) + x.seconds
    ensures |AddSlice(AddAll(items), x)| == |AddAll(items)| + if IndexOf(AddAll(items), x.key).None? then 1 else 0
  {
    assert (items + [x])[..|items|] == items;
    AddSliceIs(AddAll(items), x);
    hide AddSlice;
  }

  lemma ItemSeconds(text: TextOps, project: string, e: EntityRow)
    ensures EntityItem(text, project, e).seconds == e.seconds
  {
    hide NormalizeEntity;
  }

  lemma ConflictGrows(l: Locale, a: seq<Beat>, b: seq<Beat>)
    requires HasConflict(l, a)
    ensures HasConflict(l, a + b)
  {
    hide PayloadOf;
    var i, j :| 0 <= i < j < |a| && a[i].id == a[j].id && PayloadOf(l, a[i]) != PayloadOf(l, a[j]);
    assert (a + b)[i] == a[i] && (a + b)[j] == a[j];
  }

  lemma {:induction false} PrefixBeats(dump: seq<DumpDay>, i: nat) returns (rest: seq<Beat>)
    requires i <= |dump|
    ensures AllBeats(dump) == AllBeats(dump[..i]) + rest
    decreases |dump|
  {
    if i == |dump| {
      assert dump[..i] == dump;
      rest := [];
    } else {
      var n := |dump| - 1;
      assert dump[..n][..i] == dump[..i];
      var r := PrefixBeats(dump[..n], i);
      rest := r + dump[n].beats;
    }
  }

  lemma BeatsOfNext(dump: seq<DumpDay>, i: nat)
    requires i < |dump|
    ensures AllBeats(dump[..i + 1]) == AllBeats(dump[..i]) + dump[i].beats
  {
    assert dump[..i + 1][..i] == dump[..i];
  }

  lemma ConflictStays(l: Locale, dump: seq<DumpDay>, i: nat)
    requires i < |dump| && HasConflict(l, AllBeats(dump[..i]) + dump[i].beats)
    ensures HasConflict(l, AllBeats(dump))
  {
    hide *;
    BeatsOfNext(dump, i);
    var rest := PrefixBeats(dump, i + 1);
    ConflictGrows(l, AllBeats(dump[..i + 1]), rest);
  }

  lemma DatesSoFar(dump: seq<DumpDay>, days: seq<StoredDay>, i: nat)
    requires i < |dump| && |days| == i && !RepeatsADate(dump[..i]) && forall j :: 0 <= j < i ==>
             days[j].date == dump[j].date
    ensures (exists j :: 0 <= j < |days| && days[j].date == dump[i].date) <==> RepeatsADate(dump[..i + 1])
    ensures RepeatsADate(dump[..i + 1]) ==> RepeatsADate(dump)
  {
    var next := dump[..i + 1];
    assert forall j :: 0 <= j < i ==> next[j] == dump[..i][j] == dump[j];
    if exists j :: 0 <= j < |days| && days[j].date == dump[i].date {
      var j :| 0 <= j < |days| && days[j].date == dump[i].date;
      assert next[j].date == next[i].date;
    }
    if RepeatsADate(next) {
      var a, b :| 0 <= a < b < |next| && next[a].date == next[b].date;
      assert dump[a].date == dump[b].date;
      assert forall x, y :: 0 <= x < y < i ==> dump[..i][x].date != dump[..i][y].date;
      assert b == i;
      assert days[a].date == dump[i].date;
    }
  }
}
