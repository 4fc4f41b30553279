/** The reconciliation of one archived day: one transaction that checks, replaces, preserves or rejects. */
module Reconcile {
  import opened Options
  import opened SliceTypes
  import opened Text
  import opened Orders
  import opened Rearrange
  import opened SummaryDay
  import opened ArchiveModel
  import Calendar

  // ---- The loops of the transaction ----

  method CheckArithmetic(day: Day) returns (refusal: Option<Report>)
    ensures refusal == ArithmeticRefusal(day)
  {
    if day.totalSeconds < -TOLERANCE { return Some(Report(Rejected, DayFailed, [MathematicalViolation])); }
    var sum, slices := 0.0, day.slices;
    assert slices[..0] == [];
    for i := 0 to |slices|
      invariant sum == SumBy(slices[..i], SLICE_SECONDS) && !HasNegative(slices[..i])
    {
      if slices[i].seconds < 0.0 { return Some(Report(Rejected, DayFailed, [NegativeSlice, MathematicalViolation])); }
      assert slices[..i + 1][..i] == slices[..i];
      sum := sum + slices[i].seconds;
    }
    assert slices[..|slices|] == slices;
    hide SumBy;
    var delta := sum - day.totalSeconds;
    if Abs(delta) > TOLERANCE {
      var codes := if delta > TOLERANCE then [Overcount, MathematicalViolation] else [MathematicalViolation];
      return Some(Report(Rejected, DayFailed, codes));
    }
    refusal := None;
  }

  /** The loop over the heartbeats as they arrived, with the text seen first for each. */
  method RawTextsConflict(raw: seq<RawBeat>) returns (conflict: bool)
    ensures conflict <==> RawConflict(raw)
  {
    var exact: map<(string, string), string> := map[];
    hide RawKey;
    for i := 0 to |raw|
      invariant forall j :: 0 <= j < i ==> RawKey(raw[j]) in exact && exact[RawKey(raw[j])] == raw[j].json
      invariant forall k :: k in exact ==> exists j :: 0 <= j < i && RawKey(raw[j]) == k
    {
      var key := RawKey(raw[i]);
      if key in exact && exact[key] != raw[i].json {
        ghost var j :| 0 <= j < i && RawKey(raw[j]) == key;
        return true;
      }
      exact := exact[key := raw[i].json];
    }
    conflict := false;
  }

  /** Does a project archived with entities lose them? */
  method LosesSomeProject(rows: map<Key, SliceRow>, day: Day) returns (loses: bool)
    ensures loses <==> exists k | k in rows.Keys :: k.kind == EntitySlice && LosesProject(day, k.project)
  {
    var detailed := set k | k in rows.Keys && k.kind == EntitySlice :: k.project;
    var left := detailed;
    hide LosesProject;
    while left != {}
      invariant left <= detailed && forall p :: p in detailed - left ==> !LosesProject(day, p)
    {
      var p :| p in left;
      if LosesProject(day, p) { return true; }
      left := left - {p};
    }
    loses := false;
  }

  /** Once an insert has failed, the transaction has failed. */
  lemma {:induction false} UpsertFails(w: Work, keys: seq<Key>, slices: seq<NormalizedSlice>, version: nat, n: nat)
    requires n <= |keys| == |slices| && UpsertAll(w, keys[..n], slices[..n], version).None?
    ensures UpsertAll(w, keys, slices, version).None?
    decreases |keys|
  {
    if n == |keys| {
      assert keys[..n] == keys && slices[..n] == slices;
    } else {
      var m := |keys| - 1;
      assert keys[..m][..n] == keys[..n] && slices[..m][..n] == slices[..n];
      UpsertFails(w, keys[..m], slices[..m], version, n);
    }
  }

  method UpsertSlices(text: TextOps, day: Day, rows: map<Key, SliceRow>, nextId: nat, version: nat)
    returns (w: Option<Work>, incoming: set<Key>)
    ensures w == UpsertAll(Work(rows, nextId), RowsKeys(text, day), day.slices, version)
    ensures w.Some? ==> incoming == KeySet(RowsKeys(text, day))
  {
    ghost var keys, start := RowsKeys(text, day), Work(rows, nextId);
    var slices, work := day.slices, Work(rows, nextId);
    incoming := {};
    hide SliceRowKey, Upsert;
    assert keys[..0] == [] && slices[..0] == [];
    for i := 0 to |slices|
      invariant UpsertAll(start, keys[..i], slices[..i], version) == Some(work)
      invariant incoming == KeySet(keys[..i])
    {
      var k := SliceRowKey(text, day, slices[i]);
      assert keys[i] == k && keys[..i + 1] == keys[..i] + [k];
      UpsertStep(start, keys, slices, version, i);
      incoming := incoming + {k};
      var next := Upsert(rows.Keys, work, k, slices[i], version);
      if next.None? {
        UpsertFails(start, keys, slices, version, i + 1);
        return None, incoming;
      }
      work := next.value;
    }
    assert keys[..|keys|] == keys && slices[..|slices|] == slices;
    w := Some(work);
  }

  lemma UpsertStep(w: Work, keys: seq<Key>, slices: seq<NormalizedSlice>, version: nat, i: nat)
    requires i < |keys| == |slices|
    ensures UpsertAll(w, keys[..i + 1], slices[..i + 1], version)
         == var before := UpsertAll(w, keys[..i], slices[..i], version);
            if before.None? then None else Upsert(w.rows.Keys, before.value, keys[i], slices[i], version)
  {
    assert keys[..i + 1][..i] == keys[..i] && slices[..i + 1][..i] == slices[..i];
    hide Upsert;
  }

  /** The first incoming slice with the key of an allocation. */
  method FindSeconds(text: TextOps, day: Day, k: Key) returns (seconds: Option<real>)
    ensures seconds == SecondsFor(RowsKeys(text, day), day.slices, k)
  {
    ghost var keys := RowsKeys(text, day);
    var slices := day.slices;
    hide SliceRowKey;
    assert keys[0..] == keys && slices[0..] == slices;
    for i := 0 to |slices|
      invariant SecondsFor(keys, slices, k) == SecondsFor(keys[i..], slices[i..], k)
    {
      if SliceRowKey(text, day, slices[i]) == k { return Some(slices[i].seconds); }
      assert keys[i..][1..] == keys[i + 1..] && slices[i..][1..] == slices[i + 1..];
    }
    seconds := None;
  }

  /** Adjust, reattach or detach each allocation of the date; None when the database refuses one. */
  method OverlayAllocations(text: TextOps, day: Day, rows: map<Key, SliceRow>, allocations: seq<Allocation>)
    returns (r: Option<seq<Allocation>>)
    ensures r == OverlayAll(rows, allocations, RowsKeys(text, day), day.slices)
  {
    ghost var keys := RowsKeys(text, day);
    var done: seq<Allocation> := [];
    hide RowsKeys, SecondsFor;
    for i := 0 to |allocations|
      invariant |done| == i
      invariant forall j :: 0 <= j < i ==>
                done[j] == Overlaid(allocations[j], SecondsFor(keys, day.slices, allocations[j].key))
      invariant forall j :: 0 <= j < i ==>
                !RefusedByTrigger(rows, allocations[j], SecondsFor(keys, day.slices, allocations[j].key))
    {
      var a := allocations[i];
      var seconds := FindSeconds(text, day, a.key);
      if seconds.Some? {
        if !a.active || Abs(a.seconds - seconds.value) > TOLERANCE {
          if a.key !in rows || Abs(rows[a.key].seconds - seconds.value) > TOLERANCE {
            hide Overlaid;
            assert RefusedByTrigger(rows, allocations[i], SecondsFor(keys, day.slices, allocations[i].key)) by {
              OverlayChanges(a, seconds.value);
            }
            return None;
          }
          a := a.(active := true, seconds := seconds.value);
        }
      } else if a.active {
        a := a.(active := false);
      }
      done := done + [a];
    }
    hide Overlaid, RefusedByTrigger;
    assert done == seq(|allocations|, i requires 0 <= i < |allocations| =>
           Overlaid(allocations[i], SecondsFor(keys, day.slices, allocations[i].key)));
    r := Some(done);
  }

  lemma OverlayChanges(a: Allocation, seconds: real)
    requires !a.active || Abs(a.seconds - seconds) > TOLERANCE
    ensures Overlaid(a, Some(seconds)) != a
  {
  }

  /** Delete the archived rows that are absent from the incoming set. */
  method Retire(rows: map<Key, SliceRow>, archived: set<Key>, incoming: set<Key>, ghost keys: seq<Key>)
    returns (kept: map<Key, SliceRow>)
    requires rows.Keys == archived + incoming && incoming == KeySet(keys)
    ensures kept == Retained(rows, keys)
  {
    kept := rows;
    var stale := archived - incoming;
    while stale != {}
      invariant stale <= archived - incoming
      invariant kept == map k | k in rows && (k in incoming || k in stale) :: rows[k]
    {
      var k :| k in stale;
      kept := kept - {k};
      stale := stale - {k};
    }
  }

  /** The date's dimension totals are deleted and inserted anew; None when the table refuses a row. */
  method InsertDimensions(day: Day) returns (r: Option<seq<Row>>)
    ensures r == if DimensionsStorable(day) then Some(day.rows) else None
  {
    var inserted: seq<Row> := [];
    hide HasProjectId, DimensionKey;
    for i := 0 to |day.rows|
      invariant inserted == day.rows[..i]
      invariant forall j :: 0 <= j < i ==> HasProjectId(day, day.rows[j])
      invariant DistinctBy(inserted, DimensionKey)
    {
      var row := day.rows[i];
      if !HasProjectId(day, row) { return None; }
      if exists j | 0 <= j < |inserted| :: DimensionKey(inserted[j]) == DimensionKey(row) {
        ghost var j :| 0 <= j < |inserted| && DimensionKey(inserted[j]) == DimensionKey(row);
        assert DimensionKey(day.rows[j]) == DimensionKey(day.rows[i]);
        return None;
      }
      inserted := inserted + [row];
    }
    assert day.rows[..|day.rows|] == day.rows;
    r := Some(inserted);
  }

  method FindConflict(stored: map<string, string>, h: HeartbeatLayer) returns (found: bool)
    requires h.Beats?
    ensures found <==> Conflicted(stored, h)
  {
    found := h.conflicts > 0;
    for i := 0 to |h.beats|
      invariant found <==> h.conflicts > 0 || exists j ::
                0 <= j < i && h.beats[j].id in stored && stored[h.beats[j].id] != h.beats[j].hash
    {
      if h.beats[i].id in stored && stored[h.beats[i].id] != h.beats[i].hash { found := true; }
    }
  }

  method StoreBeats(stored: map<string, string>, beats: seq<Beat>)
    returns (after: map<string, string>, members: set<string>)
    ensures after == Stored(stored, beats) && members == Ids(beats)
  {
    after, members := stored, {};
    assert beats[..0] == [];
    assert Stored(stored, beats[..0]) == stored && Ids(beats[..0]) == {};
    hide Stored, Ids;
    for i := 0 to |beats|
      invariant after == Stored(stored, beats[..i]) && members == Ids(beats[..i])
    {
      StoreStep(stored, beats, i);
      if beats[i].id !in after { after := after[beats[i].id := beats[i].hash]; }
      members := members + {beats[i].id};
    }
    assert beats[..|beats|] == beats;
  }

  lemma StoreStep(stored: map<string, string>, beats: seq<Beat>, i: nat)
    requires i < |beats|
    ensures var before, b := Stored(stored, beats[..i]), beats[i];
            Stored(stored, beats[..i + 1]) == if b.id in before then before else before[b.id := b.hash]
    ensures Ids(beats[..i + 1]) == Ids(beats[..i]) + {beats[i].id}
  {
    assert beats[..i + 1][..i] == beats[..i] && beats[..i + 1] == beats[..i] + [beats[i]];
  }

  lemma {:induction false} UpsertedKeys(w: Work, keys: seq<Key>, slices: seq<NormalizedSlice>, version: nat)
    requires |keys| == |slices| && UpsertAll(w, keys, slices, version).Some?
    ensures UpsertAll(w, keys, slices, version).value.rows.Keys == w.rows.Keys + KeySet(keys)
  {
    if keys != [] {
      var n := |keys| - 1;
      UpsertedKeys(w, keys[..n], slices[..n], version);
      assert keys == keys[..n] + [keys[n]];
      hide Written;
    }
  }

  // ---- The archive ----

  class Archive {
    var days: map<string, DayArchive>
    var beats: map<string, string>
    var nextId: nat
    var generation: nat

    ghost function Contents(): State
      reads this
    {
      State(days, beats, nextId, generation)
    }

    lemma ContentsAre()
      ensures Contents() == State(days, beats, nextId, generation)
    {
    }

    constructor ()
      ensures Contents() == State(map[], map[], 1, 1)
    {
      days, beats, nextId, generation := map[], map[], 1, 1;
    }

    /** One call: the report and the archive are those of `After`; when it throws, nothing has changed. */
    method ReconcileDay(text: TextOps, c: Candidate, o: CallOptions) returns (r: Outcome)
      modifies this
      ensures (Contents(), r) == After(text, old(Contents()), c, o)
    {
      hide *;
      ghost var start := Contents();
      AfterIs(text, start, c, o);
      if !Calendar.IsValidDateString(c.date) { return Returned(Report(Rejected, DayFailed, [MissingDate])); }
      match c.summaries
      case Restricted(code) => return Returned(Report(Preserved, DaySkipped, [CodeOr(code, "SUMMARIES_RESTRICTED")]));
      case Failed(code) => return Returned(Report(Rejected, DayFailed, [CodeOr(code, "SUMMARIES_FAILED")]));
      case Skipped => return Returned(Report(Preserved, DaySkipped, []));
      case Complete(day) =>
        var conflict := RawTextsConflict(o.rawBeats);
        if conflict { return Threw; }
        var refusal := CheckArithmetic(day);
        if refusal.Some? { return Returned(refusal.value); }
        r := Transaction(text, c, o, day);
    }

    method Transaction(text: TextOps, c: Candidate, o: CallOptions, day: Day) returns (r: Outcome)
      modifies this
      ensures (Contents(), r) == AfterGuards(text, old(Contents()), c, o, day)
    {
      hide *;
      ghost var start := Contents();
      ContentsAre();
      GuardsAre(text, start, c, o, day);
      var d := if c.date in days then days[c.date] else NOTHING_ARCHIVED;
      DayAtIs(start, c.date);
      if o.cancelled { return Returned(Report(Preserved, DaySkipped, [RunCancelled])); }
      if c.generation != generation { return Returned(Report(Rejected, DayFailed, [StaleGeneration])); }
      if o.pinned.Some? && o.pinned.value != "" && c.timezone != o.pinned.value {
        return Returned(Report(Rejected, DayFailed, [OtherTimezone]));
      }
      if o.expected.Some? && Version(d) != o.expected.value {
        return Returned(Report(Rejected, DayFailed, [StaleVersion]));
      }
      if SameContent(d, day) {
        r := Refresh(c, o, day);
        return;
      }
      var losesProject := LosesSomeProject(d.rows, day);
      LosesDetailIs(d, day, losesProject);
      if (d.accepted.Some? && d.accepted.value.content.fidelity == EntityDetail && day.fidelity == CoarseProject)
         || (HadDetail(d) && !HasSlice(day, EntitySlice) && !VerifiedZeroDay(day))
         || (d.rows != map[] && day.totalSeconds == 0.0 && !VerifiedZeroDay(day))
         || (!VerifiedZeroDay(day) && losesProject) {
        days := days[c.date := d.(downgraded := true)];
        ContentsAre();
        DowngradeIs(start, c, o);
        return Returned(Report(Preserved, DayPartial, [DetailDowngrade] + Today(c, o)));
      }
      r := Replace(text, c, o, day);
    }

    /** The content is the accepted one: only the evidence and the verification metadata move. */
    method Refresh(c: Candidate, o: CallOptions, day: Day) returns (r: Outcome)
      modifies this
      ensures (Contents(), r) == AfterUnchanged(old(Contents()), c, o, day)
    {
      var d, h := if c.date in days then days[c.date] else NOTHING_ARCHIVED, c.heartbeats;
      var status, evidence, codes := DaySucceeded, d.evidence, HeartbeatCodes(beats, h);
      hide Stored, Ids, Conflicted, Today, HeartbeatCodes, VerifiedZeroDay;
      match h {
        case Beats(list, _) =>
          var conflict := FindConflict(beats, h);
          if conflict {
            status := DayPartial;
          } else if evidence.None? || evidence.value.content != list {
            var after, members := StoreBeats(beats, list);
            evidence := Some(Evidence(if d.evidence.Some? then d.evidence.value.version + 1
                else 1, list, members, true));
            beats := after;
          } else {
            evidence := Some(evidence.value.(matches := true));
          }
        case BeatsSkipped =>
          if !VerifiedZeroDay(day) { status := DayPartial; }
        case _ =>
          status := DayPartial;
      }
      var accepted := if d.accepted.Some?
          then Some(d.accepted.value.(evidenceMatches := status == DaySucceeded)) else None;
      days := days[c.date := d.(accepted := accepted, evidence := evidence, downgraded := false)];
      r := Returned(Report(Unchanged, status, Today(c, o) + codes));
    }

    /** The evidence part of an update. */
    method ReplaceEvidence(c: Candidate, day: Day, d: DayArchive)
      returns (matches: bool, evidence: Option<Evidence>, stored: map<string, string>)
      requires d == DayAt(Contents(), c.date)
      ensures matches == EvidenceAccepted(beats, c.heartbeats)
      ensures evidence == EvidenceAfterUpdate(Contents(), c, day)
      ensures stored == if matches then Stored(beats, c.heartbeats.beats) else beats
    {
      var h := c.heartbeats;
      matches, evidence, stored := false, d.evidence, beats;
      hide Stored, Ids, Conflicted, VerifiedZeroDay, DayAt;
      match h {
        case Beats(list, _) =>
          var conflict := FindConflict(beats, h);
          if conflict {
            evidence := Demoted(evidence);
          } else {
            var members;
            stored, members := StoreBeats(beats, list);
            var version := if evidence.None? then 1 else if evidence.value.content == list then evidence.value.version
                else evidence.value.version + 1;
            evidence := Some(Evidence(version, list, members, true));
            matches := true;
          }
        case BeatsSkipped =>
          if !VerifiedZeroDay(day) { evidence := Demoted(evidence); }
        case _ =>
          evidence := Demoted(evidence);
      }
    }

    /** Slices, allocations, totals, evidence and layer state change together or not at all. */
    method Replace(text: TextOps, c: Candidate, o: CallOptions, day: Day) returns (r: Outcome)
      modifies this
      ensures (Contents(), r) == AfterUpdate(text, old(Contents()), c, o, day)
    {
      hide *;
      ghost var start := Contents();
      ContentsAre();
      var d := if c.date in days then days[c.date] else NOTHING_ARCHIVED;
      DayAtIs(start, c.date);
      UpdateFails(text, start, c, o, day);
      var w, incoming := UpsertSlices(text, day, d.rows, nextId, Version(d) + 1);
      UpdatedRowsIs(text, start, c, day);
      if w.None? { return Threw; }
      if o.failure == AfterSlices { return Threw; }
      ghost var keys := RowsKeys(text, day);
      var allocations := OverlayAllocations(text, day, w.value.rows, d.allocations);
      if allocations.None? { return Threw; }
      KeysFit(text, day);
      UpsertedKeys(Work(d.rows, nextId), keys, day.slices, Version(d) + 1);
      var rows := Retire(w.value.rows, d.rows.Keys, incoming, keys);
      if o.failure == AfterAllocations { return Threw; }
      var dimensions := InsertDimensions(day);
      if dimensions.None? { return Threw; }
      var matches, evidence, stored := ReplaceEvidence(c, day, d);
      if o.failure == BeforeCommit { return Threw; }
      var zero := VerifiedZeroDay(day);
      var codes := Today(c, o) + (if zero then [ZeroAccepted] else []) + HeartbeatCodes(beats, c.heartbeats);
      UpdateIs(text, start, c, o, day, w.value, allocations.value);
      days := days[c.date := DayArchive(rows, Some(TotalOf(day)), dimensions.value, allocations.value,
                                       Some(Accepted(Version(d) + 1, day, zero || matches)), evidence, false)];
      beats := stored;
      nextId := w.value.nextId;
      ContentsAre();
      r := Returned(Report(Updated, if zero || matches then DaySucceeded else DayPartial, codes));
    }
  }

  // ---- The specification, one step at a time ----

  function AfterGuards(text: TextOps, s: State, c: Candidate, o: CallOptions, day: Day): (State, Outcome) {
    var d := DayAt(s, c.date);
    if StaleCall(d, s.generation, c, o).Some? then (s, Returned(StaleCall(d, s.generation, c, o).value))
    else if SameContent(d, day) then AfterUnchanged(s, c, o, day)
    else if LosesDetail(d, day) then AfterDowngrade(s, c, o)
    else AfterUpdate(text, s, c, o, day)
  }

  lemma AfterIs(text: TextOps, s: State, c: Candidate, o: CallOptions)
    ensures !Calendar.IsValidDateString(c.date) ==>
            After(text, s, c, o) == (s, Returned(Report(Rejected, DayFailed, [MissingDate])))
    ensures Aborts(c, o) <==> Calendar.IsValidDateString(c.date) && c.summaries.Complete? && RawConflict(o.rawBeats)
    ensures Aborts(c, o) ==> After(text, s, c, o) == (s, Threw)
    ensures Calendar.IsValidDateString(c.date) && !Aborts(c, o) ==>
              (After(text, s, c, o) == match c.summaries
              case Restricted(code) =>
                  (s, Returned(Report(Preserved, DaySkipped, [CodeOr(code, "SUMMARIES_RESTRICTED")])))
              case Failed(code) => (s, Returned(Report(Rejected, DayFailed, [CodeOr(code, "SUMMARIES_FAILED")])))
              case Skipped => (s, Returned(Report(Preserved, DaySkipped, [])))
              case Complete(day) =>
                if ArithmeticRefusal(day).Some? then (s, Returned(ArithmeticRefusal(day).value))
                    else AfterGuards(text, s, c, o, day))
  {
    hide AfterUnchanged, AfterDowngrade, AfterUpdate, StaleCall, SameContent, LosesDetail, ArithmeticRefusal, CodeOr,
         RawConflict, Calendar.IsValidDateString;
  }

  lemma GuardsAre(text: TextOps, s: State, c: Candidate, o: CallOptions, day: Day)
    ensures AfterGuards(text, s, c, o, day) ==
              var d := DayAt(s, c.date);
              if o.cancelled then (s, Returned(Report(Preserved, DaySkipped, [RunCancelled])))
              else if c.generation != s.generation then (s, Returned(Report(Rejected, DayFailed, [StaleGeneration])))
              else if o.pinned.Some? && o.pinned.value != ""
                  && c.timezone != o.pinned.value then (s, Returned(Report(Rejected, DayFailed, [OtherTimezone])))
              else if o.expected.Some? && Version(d) != o.expected.value
                  then (s, Returned(Report(Rejected, DayFailed, [StaleVersion])))
              else if SameContent(d, day) then AfterUnchanged(s, c, o, day)
              else if LosesDetail(d, day) then AfterDowngrade(s, c, o)
              else AfterUpdate(text, s, c, o, day)
  {
    hide AfterUnchanged, AfterDowngrade, AfterUpdate, SameContent, LosesDetail, DayAt, Version;
  }

  lemma DayAtIs(s: State, date: string)
    ensures DayAt(s, date) == if date in s.days then s.days[date] else NOTHING_ARCHIVED
  {
  }

  lemma LosesDetailIs(d: DayArchive, day: Day, losesProject: bool)
    requires losesProject <==> exists k | k in d.rows.Keys :: k.kind == EntitySlice && LosesProject(day, k.project)
    ensures LosesDetail(d, day) <==>
            || (d.accepted.Some? && d.accepted.value.content.fidelity == EntityDetail && day.fidelity == CoarseProject)
            || (HadDetail(d) && !HasSlice(day, EntitySlice) && !VerifiedZeroDay(day))
            || (d.rows != map[] && day.totalSeconds == 0.0 && !VerifiedZeroDay(day))
            || (!VerifiedZeroDay(day) && losesProject)
  {
    hide HadDetail, HasSlice, VerifiedZeroDay, LosesProject;
  }

  lemma DowngradeIs(s: State, c: Candidate, o: CallOptions)
    ensures AfterDowngrade(s, c, o)
            == (State(s.days[c.date := DayAt(s, c.date).(downgraded := true)], s.beats, s.nextId, s.generation),
                                        Returned(Report(Preserved, DayPartial, [DetailDowngrade] + Today(c, o))))
  {
    hide DayAt, Today;
  }

  lemma UpdatedRowsIs(text: TextOps, s: State, c: Candidate, day: Day)
    ensures UpdatedRows(text, s, c, day)
         == UpsertAll(Work(DayAt(s, c.date).rows, s.nextId), RowsKeys(text, day), day.slices,
             Version(DayAt(s, c.date)) + 1)
  {
    hide UpsertAll, RowsKeys, DayAt, Version;
  }

  lemma KeysFit(text: TextOps, day: Day)
    ensures |RowsKeys(text, day)| == |day.slices|
    ensures forall i :: 0 <= i < |day.slices| ==> RowsKeys(text, day)[i] == SliceRowKey(text, day, day.slices[i])
  {
    hide SliceRowKey;
  }

  lemma UpdateFails(text: TextOps, s: State, c: Candidate, o: CallOptions, day: Day)
    ensures UpdatedRows(text, s, c, day).None? || o.failure != NoFailure || !DimensionsStorable(day) ==>
            AfterUpdate(text, s, c, o, day) == (s, Threw)
    ensures UpdatedRows(text, s, c, day).Some?
            && OverlayAll(UpdatedRows(text, s, c, day).value.rows, DayAt(s, c.date).allocations, RowsKeys(text, day),
               day.slices).None?
            ==> AfterUpdate(text, s, c, o, day) == (s, Threw)
  {
    hide UpdatedRows, OverlayAll, RowsKeys, DayAt, DimensionsStorable;
  }

  lemma UpdateIs(text: TextOps, s: State, c: Candidate, o: CallOptions, day: Day, w: Work, allocations: seq<Allocation>)
    requires UpdatedRows(text, s, c, day) == Some(w) && o.failure == NoFailure && DimensionsStorable(day)
    requires OverlayAll(w.rows, DayAt(s, c.date).allocations, RowsKeys(text, day), day.slices) == Some(allocations)
    ensures var zero, matches := VerifiedZeroDay(day), EvidenceAccepted(s.beats, c.heartbeats);
            AfterUpdate(text, s, c, o, day) ==
              (State(s.days[c.date := DayArchive(Retained(w.rows, RowsKeys(text, day)), Some(TotalOf(day)),
                  day.rows, allocations,
                                                 Some(Accepted(Version(DayAt(s, c.date)) + 1, day, zero || matches)),
                                                 EvidenceAfterUpdate(s, c, day), false)],
                     if matches then Stored(s.beats, c.heartbeats.beats) else s.beats, w.nextId, s.generation),
               Returned(Report(Updated, if zero || matches then DaySucceeded else DayPartial,
                               Today(c, o) + (if zero then [ZeroAccepted] else [])
                                   + HeartbeatCodes(s.beats, c.heartbeats))))
  {
    hide UpdatedRows, OverlayAll, RowsKeys, DayAt, VerifiedZeroDay, EvidenceAfterUpdate, Stored, Today,
         HeartbeatCodes, Retained, Version, TotalOf, DimensionsStorable, Conflicted;
  }
}
