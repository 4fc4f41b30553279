/**
 What a reconciliation reports and what it leaves as the evidence of its date, read off the call and the archive before
 it: exactly when heartbeats count, which status and which advisory codes come back, and what is stored.
 */
module ReconcileReports {
  import opened Options
  import opened SliceTypes
  import opened Text
  import opened Orders
  import opened SummaryDay
  import opened ArchiveModel
  import opened Reconcile
  import opened ReconcileFacts
  import opened ReconcileRuns
  import opened ArchiveHistory
  import opened ArchiveDetail
  import Calendar

  // ---- The words of the reports ----

  /** Complete heartbeats without a conflict among themselves or with a stored observation. */
  ghost predicate CleanBeats(stored: map<string, string>, h: HeartbeatLayer) {
    && h.Beats? && h.conflicts == 0
    && forall b :: b in h.beats && b.id in stored ==> stored[b.id] == b.hash
  }

  ghost predicate IsZero(day: Day) {
    day.fidelity == VerifiedZero || day.isVerifiedZero
  }

  /** The advisory code that the heartbeats of a call are worth. */
  ghost predicate HeartbeatCode(stored: map<string, string>, h: HeartbeatLayer, code: ReconcileCode) {
    match h
    case Beats(_, _) => !CleanBeats(stored, h) && code == PayloadConflict
    case BeatsRestricted(given) => code == LayerCode(if given != "" then given else "HEARTBEATS_RESTRICTED")
    case BeatsFailed(given) => code == LayerCode(if given != "" then given else "HEARTBEATS_FAILED")
    case BeatsSkipped => false
  }

  lemma CleanIs(stored: map<string, string>, h: HeartbeatLayer)
    ensures CleanBeats(stored, h) <==> EvidenceAccepted(stored, h)
  {
    if h.Beats? && !CleanBeats(stored, h) && h.conflicts == 0 {
      var b :| b in h.beats && b.id in stored && stored[b.id] != b.hash;
      var i :| 0 <= i < |h.beats| && h.beats[i] == b;
      assert h.beats[i].id in stored;
    }
  }

  lemma HeartbeatCodesAre(stored: map<string, string>, h: HeartbeatLayer)
    ensures forall code :: code in HeartbeatCodes(stored, h) <==> HeartbeatCode(stored, h, code)
  {
    CleanIs(stored, h);
    hide CleanBeats, Conflicted;
  }

  // ---- An update ----

  /** What the evidence of a date is after a call that may replace it. */
  ghost predicate EvidenceFollows(before: Option<Evidence>, after: Option<Evidence>, accepted: bool, beats: seq<Beat>) {
    if accepted then
      && after.Some? && after.value.content == beats
      && (forall id :: id in after.value.members <==> exists b :: b in beats && b.id == id)
      && after.value.version == if before.None? then 1
                                else before.value.version + if before.value.content == beats then 0 else 1
    else
      && (after.Some? <==> before.Some?)
      && (before.Some? ==> after.value.content == before.value.content && after.value.members == before.value.members
                           && after.value.version == before.value.version)
  }

  /**
   After an update the evidence counts as matching exactly if the heartbeats of the call are complete and clean, or the
   day is a verified zero without heartbeats and the evidence matched before.
   */
  lemma UpdatedEvidence(text: TextOps, s: State, c: Candidate, o: CallOptions)
    requires After(text, s, c, o).1.Returned? && After(text, s, c, o).1.report.disposition == Updated
    ensures c.summaries.Complete?
    ensures var before, after := DayAt(s, c.date).evidence, DayAt(After(text, s, c, o).0, c.date).evidence;
            && (after.Some? && after.value.matches <==>
                || CleanBeats(s.beats, c.heartbeats)
                || (c.heartbeats.BeatsSkipped? && IsZero(c.summaries.day) && before.Some? && before.value.matches))
            && EvidenceFollows(before, after, CleanBeats(s.beats, c.heartbeats),
                               if c.heartbeats.Beats? then c.heartbeats.beats else [])
  {
    Outcomes(text, s, c, o);
    var day := c.summaries.day;
    UpdateSucceeds(text, s, c, o, day);
    AfterUpdateIs(text, s, c, o, day);
    CleanIs(s.beats, c.heartbeats);
    hide After, AfterUpdate, DayAt, Conflicted, CleanBeats, EvidenceAccepted, Replaces, UpdatedRows, OverlayAll,
         DimensionsStorable;
  }

  /** The day and the report of an update that goes through. */
  lemma AfterUpdateIs(text: TextOps, s: State, c: Candidate, o: CallOptions, day: Day)
    requires IsUpdate(AfterUpdate(text, s, c, o, day).1)
    ensures var (after, r) := AfterUpdate(text, s, c, o, day);
            var d, clean := DayAt(after, c.date), EvidenceAccepted(s.beats, c.heartbeats);
            && d.evidence == EvidenceAfterUpdate(s, c, day)
            && d.accepted == Some(Accepted(Version(DayAt(s, c.date)) + 1, day, VerifiedZeroDay(day) || clean))
            && !d.downgraded && d.total == Some(TotalOf(day)) && d.dimensions == day.rows
            && r.report == UpdateReport(s, c, o, day)
            && after.beats == (if clean then Stored(s.beats, c.heartbeats.beats) else s.beats)
            && after.generation == s.generation
  {
    UpdateSucceeds(text, s, c, o, day);
    hide RowsKeys, UpdatedRows, OverlayAll, DimensionsStorable, Retained, EvidenceAfterUpdate, EvidenceAccepted,
         VerifiedZeroDay, HeartbeatCodes, Today, Stored, UpdateReport, TotalOf, Version;
  }

  /**
   Observations after a call: nothing stored changes, and those of accepted heartbeats are stored as they came
   first.
   */
  ghost predicate BeatsFollow(before: map<string, string>, after: map<string, string>, accepted: bool,
                              beats: seq<Beat>) {
    && (forall id :: id in before ==> id in after && after[id] == before[id])
    && (forall id :: id in after && id !in before ==>
       accepted && exists i: nat :: FirstBeat(beats, i, id) && after[id] == beats[i].hash)
    && (accepted ==> forall b :: b in beats ==> b.id in after)
  }

  ghost predicate FirstBeat(beats: seq<Beat>, i: nat, id: string) {
    i < |beats| && beats[i].id == id && forall j :: 0 <= j < i ==> beats[j].id != id
  }

  lemma FirstKept(beats: seq<Beat>, n: nat, i: nat, id: string)
    requires n <= |beats| && FirstBeat(beats[..n], i, id)
    ensures FirstBeat(beats, i, id) && i < n && beats[..n][i] == beats[i]
  {
    assert forall j :: 0 <= j <= i ==> beats[..n][j] == beats[j];
  }

  lemma FirstNew(beats: seq<Beat>, n: nat, id: string)
    requires n < |beats| && beats[n].id == id && id !in Ids(beats[..n])
    ensures FirstBeat(beats, n, id)
  {
    forall j | 0 <= j < n ensures beats[j].id != id {
      assert beats[..n][j] in beats[..n];
    }
  }

  lemma {:induction false} StoredFirst(before: map<string, string>, beats: seq<Beat>, id: string) returns (i: nat)
    requires id in Stored(before, beats) && id !in before
    ensures FirstBeat(beats, i, id) && Stored(before, beats)[id] == beats[i].hash
  {
    var n := |beats| - 1;
    StoredKeeps(before, beats[..n]);
    hide FirstBeat;
    if id in Stored(before, beats[..n]) {
      i := StoredFirst(before, beats[..n], id);
      FirstKept(beats, n, i, id);
    } else {
      FirstNew(beats, n, id);
      i := n;
    }
  }

  lemma StoredFollows(before: map<string, string>, beats: seq<Beat>)
    ensures BeatsFollow(before, Stored(before, beats), true, beats)
  {
    StoredKeeps(before, beats);
    hide Stored;
    forall id | id in Stored(before, beats) && id !in before
      ensures exists i: nat :: FirstBeat(beats, i, id) && Stored(before, beats)[id] == beats[i].hash
    {
      var i := StoredFirst(before, beats, id);
    }
  }

  /** Status, codes and the rest of the date after an update. */
  lemma UpdatedReport(text: TextOps, s: State, c: Candidate, o: CallOptions)
    requires After(text, s, c, o).1.Returned? && After(text, s, c, o).1.report.disposition == Updated
    ensures c.summaries.Complete?
    ensures var (after, r) := After(text, s, c, o);
            var day, d, clean := c.summaries.day, DayAt(after, c.date), CleanBeats(s.beats, c.heartbeats);
            && r.report.status == (if IsZero(day) || clean then DaySucceeded else DayPartial)
            && (forall code :: code in r.report.codes <==>
                  || (code == Provisional && c.date == o.today)
                  || (code == ZeroAccepted && IsZero(day))
                  || HeartbeatCode(s.beats, c.heartbeats, code))
            && d.accepted.Some? && d.accepted.value.content == day && !d.downgraded
            && d.accepted.value.version ==
               1 + (if DayAt(s, c.date).accepted.Some? then DayAt(s, c.date).accepted.value.version else 0)
            && (d.accepted.value.evidenceMatches <==> IsZero(day) || clean)
            && d.total == Some(DailyTotal(day.timezone, day.totalSeconds, day.projectSumSeconds, day.metrics))
            && d.dimensions == day.rows
            && BeatsFollow(s.beats, after.beats, clean, if c.heartbeats.Beats? then c.heartbeats.beats else [])
  {
    Outcomes(text, s, c, o);
    var day := c.summaries.day;
    AfterUpdateIs(text, s, c, o, day);
    CleanIs(s.beats, c.heartbeats);
    HeartbeatCodesAre(s.beats, c.heartbeats);
    if c.heartbeats.Beats? { StoredFollows(s.beats, c.heartbeats.beats); }
    hide After, AfterUpdate, DayAt, Conflicted, CleanBeats, EvidenceAccepted, Replaces, Stored, HeartbeatCodes,
         HeartbeatCode, EvidenceAfterUpdate;
  }

  // ---- The same summary again ----

  lemma UnchangedIs(s: State, c: Candidate, o: CallOptions, day: Day)
    ensures var (after, r) := AfterUnchanged(s, c, o, day);
            var before, d, h := DayAt(s, c.date), DayAt(after, c.date), c.heartbeats;
            var clean := EvidenceAccepted(s.beats, h);
            var known := clean && before.evidence.Some? && before.evidence.value.content == h.beats;
            && r.Returned? && !d.downgraded
            && r.report.status ==
               (if clean || (h.BeatsSkipped? && VerifiedZeroDay(day)) then DaySucceeded else DayPartial)
            && r.report.codes == Today(c, o) + HeartbeatCodes(s.beats, h)
            && (before.accepted.Some? ==>
                  d.accepted == Some(before.accepted.value.(evidenceMatches := r.report.status == DaySucceeded)))
            && d.evidence == (if known then Some(before.evidence.value.(matches := true))
                              else if clean then Some(AcceptedEvidence(before.evidence, h.beats)) else before.evidence)
            && after.beats == (if clean && !known then Stored(s.beats, h.beats) else s.beats)
  {
    hide EvidenceAccepted, VerifiedZeroDay, HeartbeatCodes, Today, Stored, AcceptedEvidence;
  }

  /** The codes of an unchanged date. */
  lemma UnchangedCodes(text: TextOps, s: State, c: Candidate, o: CallOptions)
    requires After(text, s, c, o).1.Returned? && After(text, s, c, o).1.report.disposition == Unchanged
    ensures forall code :: code in After(text, s, c, o).1.report.codes <==>
              (code == Provisional && c.date == o.today) || HeartbeatCode(s.beats, c.heartbeats, code)
  {
    Outcomes(text, s, c, o);
    UnchangedIs(s, c, o, c.summaries.day);
    HeartbeatCodesAre(s.beats, c.heartbeats);
    hide After, AfterUpdate, AfterUnchanged, DayAt, Conflicted, EvidenceAccepted, Replaces, Stored, HeartbeatCodes,
         HeartbeatCode, Passes, SameContent;
  }

  lemma KnownEvidence(s: State, date: string)
    requires EvidenceSound(s) && DayAt(s, date).evidence.Some?
    ensures var e := DayAt(s, date).evidence.value;
            && (forall id :: id in e.members <==> exists b :: b in e.content && b.id == id)
            && forall b :: b in e.content ==> b.id in s.beats
  {
    var e := DayAt(s, date).evidence.value;
    assert date in s.days;
    assert e.members == Ids(e.content) && e.members <= s.beats.Keys;
    forall b | b in e.content ensures b.id in s.beats { assert b.id in Ids(e.content); }
  }

  /** The accepted content once more: only evidence and verification metadata can move. */
  lemma UnchangedReport(text: TextOps, s: State, c: Candidate, o: CallOptions)
    requires EvidenceSound(s)
    requires After(text, s, c, o).1.Returned? && After(text, s, c, o).1.report.disposition == Unchanged
    ensures c.summaries.Complete? && DayAt(s, c.date).accepted.Some?
    ensures DayAt(s, c.date).accepted.value.content == c.summaries.day
    ensures var (after, r) := After(text, s, c, o);
            var day, before, d := c.summaries.day, DayAt(s, c.date), DayAt(after, c.date);
            var clean := CleanBeats(s.beats, c.heartbeats);
            var beats := if c.heartbeats.Beats? then c.heartbeats.beats else [];
            && r.report.status ==
               (if clean || (c.heartbeats.BeatsSkipped? && IsZero(day)) then DaySucceeded else DayPartial)
            && (forall code :: code in r.report.codes <==>
                  (code == Provisional && c.date == o.today) || HeartbeatCode(s.beats, c.heartbeats, code))
            && d.accepted == Some(before.accepted.value.(evidenceMatches := r.report.status == DaySucceeded))
               && !d.downgraded
            && (d.evidence.Some? && d.evidence.value.matches <==>
                clean || (before.evidence.Some? && before.evidence.value.matches))
            && EvidenceFollows(before.evidence, d.evidence, clean, beats)
            && BeatsFollow(s.beats, after.beats, clean, beats)
  {
    Outcomes(text, s, c, o);
    SameContentIs(DayAt(s, c.date), c.summaries.day);
    UnchangedIs(s, c, o, c.summaries.day);
    CleanIs(s.beats, c.heartbeats);
    HeartbeatCodesAre(s.beats, c.heartbeats);
    if c.heartbeats.Beats? { StoredFollows(s.beats, c.heartbeats.beats); }
    if DayAt(s, c.date).evidence.Some? { KnownEvidence(s, c.date); }
    hide After, AfterUpdate, AfterUnchanged, DayAt, Conflicted, CleanBeats, EvidenceAccepted, Replaces, Stored,
         HeartbeatCodes, HeartbeatCode, Passes, EvidenceSound, FirstBeat, SameContent;
  }

  lemma SameContentIs(d: DayArchive, day: Day)
    ensures SameContent(d, day) <==> d.accepted.Some? && d.accepted.value.content == day
  {
  }

  // ---- Refusals ----

  /** The archive is left as it was, with this answer. */
  ghost predicate Answers(text: TextOps, s: State, c: Candidate, o: CallOptions, d: Disposition, status: DayStatus,
                          codes: seq<ReconcileCode>) {
    After(text, s, c, o) == (s, Returned(Report(d, status, codes)))
  }

  /** The answers to a call without a complete summary of a valid date. */
  lemma LayerRefusals(text: TextOps, s: State, c: Candidate, o: CallOptions)
    ensures !Calendar.IsValidDateString(c.date) ==> Answers(text, s, c, o, Rejected, DayFailed, [MissingDate])
    ensures Calendar.IsValidDateString(c.date) ==>
            match c.summaries
            case Restricted(code) =>
              Answers(text, s, c, o, Preserved, DaySkipped,
                  [LayerCode(if code != "" then code else "SUMMARIES_RESTRICTED")])
            case Failed(code) =>
              Answers(text, s, c, o, Rejected, DayFailed, [LayerCode(if code != "" then code else "SUMMARIES_FAILED")])
            case Skipped => Answers(text, s, c, o, Preserved, DaySkipped, [])
            case Complete(_) => true
  {
    AfterIs(text, s, c, o);
    hide After, Calendar.IsValidDateString;
  }

  /** A complete summary of a valid date whose heartbeat texts agree. */
  ghost predicate Judged(c: Candidate, o: CallOptions) {
    Calendar.IsValidDateString(c.date) && c.summaries.Complete? && !RawConflict(o.rawBeats)
  }

  /** The arithmetic of the summary is in order. */
  ghost predicate SoundArithmetic(day: Day) {
    && day.totalSeconds >= -0.001 && (forall x :: x in day.slices ==> x.seconds >= 0.0)
    && -0.001 <= SumBy(day.slices, (x: NormalizedSlice) => x.seconds) - day.totalSeconds <= 0.001
  }

  lemma SoundArithmeticIs(day: Day)
    ensures SoundArithmetic(day) <==> ArithmeticRefusal(day).None?
    ensures var sum := SumBy(day.slices, (x: NormalizedSlice) => x.seconds);
            ArithmeticRefusal(day).Some? ==>
              ArithmeticRefusal(day).value == Report(Rejected, DayFailed,
                if day.totalSeconds < -0.001 then [MathematicalViolation]
                else if exists x :: x in day.slices && x.seconds < 0.0 then [NegativeSlice, MathematicalViolation]
                else if sum - day.totalSeconds > 0.001 then [Overcount, MathematicalViolation]
                else [MathematicalViolation])
  {
    SameSum(day.slices);
    if x :| x in day.slices && x.seconds < 0.0 {
      var i :| 0 <= i < |day.slices| && day.slices[i] == x;
      assert HasNegative(day.slices);
    }
    hide SumBy;
  }

  lemma {:induction false} SameSum(slices: seq<NormalizedSlice>)
    ensures SumBy(slices, (x: NormalizedSlice) => x.seconds) == SumBy(slices, SLICE_SECONDS)
  {
    if slices != [] { SameSum(slices[..|slices| - 1]); }
  }

  /** Sums that are off, and calls that come too late: the reasons in the order in which they count. */
  lemma GuardRefusals(text: TextOps, s: State, c: Candidate, o: CallOptions)
    requires Judged(c, o)
    ensures var day, d := c.summaries.day, DayAt(s, c.date);
            var version := if d.accepted.Some? then d.accepted.value.version else 0;
            var sum := SumBy(day.slices, (x: NormalizedSlice) => x.seconds);
            if day.totalSeconds < -0.001 then Answers(text, s, c, o, Rejected, DayFailed, [MathematicalViolation])
            else if exists x :: x in day.slices && x.seconds < 0.0 then
              Answers(text, s, c, o, Rejected, DayFailed, [NegativeSlice, MathematicalViolation])
            else if sum - day.totalSeconds > 0.001 then
              Answers(text, s, c, o, Rejected, DayFailed, [Overcount, MathematicalViolation])
            else if sum - day.totalSeconds < -0.001 then
              Answers(text, s, c, o, Rejected, DayFailed, [MathematicalViolation])
            else if o.cancelled then Answers(text, s, c, o, Preserved, DaySkipped, [RunCancelled])
            else if c.generation != s.generation then Answers(text, s, c, o, Rejected, DayFailed, [StaleGeneration])
            else if o.pinned.Some? && o.pinned.value != "" && c.timezone != o.pinned.value then
              Answers(text, s, c, o, Rejected, DayFailed, [OtherTimezone])
            else if o.expected.Some? && version != o.expected.value then
              Answers(text, s, c, o, Rejected, DayFailed, [StaleVersion])
            else Passes(s, c, o)
  {
    var day := c.summaries.day;
    AfterIs(text, s, c, o);
    GuardsAre(text, s, c, o, day);
    SoundArithmeticIs(day);
    PassesIs(s, c, o);
    StaleIs(DayAt(s, c.date), s.generation, c, o);
    hide After, AfterGuards, AfterUnchanged, AfterDowngrade, AfterUpdate, DayAt, SumBy, ArithmeticRefusal,
         SameContent, LosesDetail, Calendar.IsValidDateString, RawConflict, StaleCall, Passes, SoundArithmetic;
  }

  lemma PassesIs(s: State, c: Candidate, o: CallOptions)
    requires Judged(c, o)
    ensures Passes(s, c, o) <==>
            ArithmeticRefusal(c.summaries.day).None? && StaleCall(DayAt(s, c.date), s.generation, c, o).None?
  {
    hide ArithmeticRefusal, StaleCall, DayAt, RawConflict, Calendar.IsValidDateString;
  }

  lemma StaleIs(d: DayArchive, generation: nat, c: Candidate, o: CallOptions)
    ensures StaleCall(d, generation, c, o).None? <==>
            !o.cancelled && c.generation == generation
            && !(o.pinned.Some? && o.pinned.value != "" && c.timezone != o.pinned.value)
            && !(o.expected.Some? && Version(d) != o.expected.value)
  {
  }

  /**
   Heartbeat texts conflict exactly when one id and hash come in two texts; then a complete summary of a valid date
   throws.
   */
  lemma TextsMean(text: TextOps, s: State, c: Candidate, o: CallOptions)
    ensures RawConflict(o.rawBeats) <==>
            exists a, b :: a in o.rawBeats && b in o.rawBeats && a.id == b.id && a.hash == b.hash && a.json != b.json
    ensures RawConflict(o.rawBeats) && Calendar.IsValidDateString(c.date) && c.summaries.Complete? ==>
            After(text, s, c, o) == (s, Threw)
  {
    var raw := o.rawBeats;
    if a, b :| a in raw && b in raw && a.id == b.id && a.hash == b.hash && a.json != b.json {
      var i :| 0 <= i < |raw| && raw[i] == a;
      var j :| 0 <= j < |raw| && raw[j] == b;
      assert RawKey(raw[i]) == RawKey(raw[j]);
    }
    hide Calendar.IsValidDateString, Refusal, StaleCall, AfterUnchanged, AfterDowngrade, AfterUpdate,
         SameContent, LosesDetail;
  }

  // ---- Loss of detail ----

  /** The summary has a slice of the kind for the project. */
  ghost predicate Offers(day: Day, project: string, kind: SliceKind) {
    exists x :: x in day.slices && x.projectName == project && x.kind == kind
  }

  /** Nothing of the project's entities comes with the summary, as far as the lookup of its scope can tell. */
  ghost predicate Withholds(day: Day, project: string) {
    if project in day.scopes then
      day.scopes[project].state == Absent
          || (Offers(day, project, ProjectSummary) && !Offers(day, project, EntitySlice))
    else
      !FoundUnlisted(day, project) || (Offers(day, project, ProjectSummary) && !Offers(day, project, EntitySlice))
  }

  lemma OffersIs(day: Day, project: string, kind: SliceKind)
    ensures Offers(day, project, kind) <==> HasProjectSlice(day, project, kind)
  {
    if Offers(day, project, kind) {
      var x :| x in day.slices && x.projectName == project && x.kind == kind;
      var i :| 0 <= i < |day.slices| && day.slices[i] == x;
    }
  }

  /** The reasons to keep what is archived although the summary is new and passes the guards. */
  ghost predicate KeepsOld(d: DayArchive, day: Day) {
    || (d.accepted.Some? && d.accepted.value.content.fidelity == EntityDetail && day.fidelity == CoarseProject)
    || (!IsZero(day)
        && (|| (d.rows != map[] && day.totalSeconds == 0.0)
            || exists k :: k in d.rows && k.kind == EntitySlice
                 && ((forall x :: x in day.slices ==> x.kind != EntitySlice) || Withholds(day, k.project))))
  }

  lemma KeepsOldIs(d: DayArchive, day: Day)
    ensures KeepsOld(d, day) <==> LosesDetail(d, day)
  {
    forall project, kind ensures Offers(day, project, kind) <==> HasProjectSlice(day, project, kind) {
      OffersIs(day, project, kind);
    }
    assert HasSlice(day, EntitySlice) <==> exists x :: x in day.slices && x.kind == EntitySlice by {
      if x :| x in day.slices && x.kind == EntitySlice {
        var i :| 0 <= i < |day.slices| && day.slices[i] == x;
      }
    }
    hide Offers, HasProjectSlice, HasSlice, FoundUnlisted;
    assert forall project :: Withholds(day, project) <==> LosesProject(day, project);
    assert forall k :: k in d.rows <==> k in d.rows.Keys;
    hide Withholds, LosesProject;
  }

  /** What a call that passes the guards amounts to. */
  lemma PassingCall(text: TextOps, s: State, c: Candidate, o: CallOptions)
    requires Passes(s, c, o) && c.summaries.Complete?
    ensures var (after, r) := After(text, s, c, o);
            var d, day := DayAt(s, c.date), c.summaries.day;
            if d.accepted.Some? && d.accepted.value.content == day then IsUnchanged(r)
            else if KeepsOld(d, day) then
              && r.Returned? && r.report.disposition == Preserved && r.report.status == DayPartial
              && (forall code ::
                 code in r.report.codes <==> code == DetailDowngrade || (code == Provisional && c.date == o.today))
              && after == s.(days := s.days[c.date := d.(downgraded := true)])
            else IsUpdate(r) || r.Threw?
  {
    var d, day := DayAt(s, c.date), c.summaries.day;
    SameContentIs(d, day);
    KeepsOldIs(d, day);
    Outcomes(text, s, c, o);
    UpdateOutcome(text, s, c, o, day);
    if !SameContent(d, day) && LosesDetail(d, day) { PassingIs(text, s, c, o, day); }
    hide After, AfterUpdate, AfterUnchanged, KeepsOld, LosesDetail, SameContent, DayAt, Passes, Aborts;
  }

  lemma PassingIs(text: TextOps, s: State, c: Candidate, o: CallOptions, day: Day)
    requires Passes(s, c, o) && c.summaries == SummaryLayer.Complete(day)
    requires !SameContent(DayAt(s, c.date), day) && LosesDetail(DayAt(s, c.date), day)
    ensures After(text, s, c, o) == AfterDowngrade(s, c, o)
  {
    hide DayAt, SameContent, LosesDetail, AfterUpdate, AfterUnchanged, Refusal, StaleCall, Aborts;
  }

  // ---- Rows, allocations and dimension totals of an update ----

  /** Where a slice is stored: project, entity in normal form, type and kind. */
  ghost predicate StoredUnder(text: TextOps, day: Day, x: NormalizedSlice, k: Key) {
    && k.entity == NormalizeEntity(text, x.entity, x.entityType) && k.entityType == x.entityType && k.kind == x.kind
    && k.project == if x.isUnattributed || (x.projectName == "" && forall p :: p in day.projects ==> p.name != "")
                    then "__unattributed__" else x.projectName
  }

  /** The slice is stored under the key, and no earlier one is. */
  ghost predicate FirstUnder(text: TextOps, day: Day, i: nat, k: Key) {
    && i < |day.slices| && StoredUnder(text, day, day.slices[i], k)
    && forall j :: 0 <= j < i ==> !StoredUnder(text, day, day.slices[j], k)
  }

  /** The slice is stored under the key, and no later one is. */
  ghost predicate LastUnder(text: TextOps, day: Day, i: nat, k: Key) {
    && i < |day.slices| && StoredUnder(text, day, day.slices[i], k)
    && forall j :: i < j < |day.slices| ==> !StoredUnder(text, day, day.slices[j], k)
  }

  lemma StoredUnderIs(text: TextOps, day: Day)
    ensures |RowsKeys(text, day)| == |day.slices|
    ensures forall i, k :: 0 <= i < |day.slices| ==>
            (StoredUnder(text, day, day.slices[i], k) <==> k == RowsKeys(text, day)[i])
  {
    KeysFit(text, day);
    if exists i | 0 <= i < |day.projects| :: day.projects[i].name == "" {
      var i :| 0 <= i < |day.projects| && day.projects[i].name == "";
      assert day.projects[i] in day.projects;
    }
    hide RowsKeys, NormalizeEntity;
  }

  /** The rows are the slices of the day, the last of each key, written with the version. */
  ghost predicate RowsAre(text: TextOps, rows: map<Key, SliceRow>, day: Day, version: nat) {
    && (forall k :: k in rows <==> exists x :: x in day.slices && StoredUnder(text, day, x, k))
    && (forall i: nat, k :: LastUnder(text, day, i, k) && k in rows ==>
          && rows[k].seconds == day.slices[i].seconds && rows[k].rootCount == day.slices[i].rootCount
          && rows[k].metrics == day.slices[i].metrics && rows[k].version == version)
  }

  lemma RowsAreLast(text: TextOps, rows: map<Key, SliceRow>, day: Day, version: nat)
    requires rows.Keys == KeySet(RowsKeys(text, day)) && RowsHoldLast(rows, RowsKeys(text, day), day.slices, version)
    ensures RowsAre(text, rows, day, version)
  {
    var keys := RowsKeys(text, day);
    StoredUnderIs(text, day);
    hide RowsKeys, StoredUnder;
    forall k ensures k in rows <==> exists x :: x in day.slices && StoredUnder(text, day, x, k) {
      assert k in rows <==> k in keys;
      if k in keys {
        var i :| 0 <= i < |keys| && keys[i] == k;
        assert day.slices[i] in day.slices && StoredUnder(text, day, day.slices[i], k);
      }
    }
    forall i: nat, k | LastUnder(text, day, i, k) && k in rows
      ensures rows[k] == Written(rows[k].id, day.slices[i], version)
    {
      assert keys[i] == k;
      assert IsLast(keys, i) by {
        forall j | i < j < |keys| ensures keys[j] != keys[i] {
          assert !StoredUnder(text, day, day.slices[j], k);
        }
      }
    }
  }

  /** The rows of an updated date. */
  lemma UpdatedSlices(text: TextOps, s: State, c: Candidate, o: CallOptions)
    requires After(text, s, c, o).1.Returned? && After(text, s, c, o).1.report.disposition == Updated
    ensures c.summaries.Complete?
    ensures RowsAre(text, DayAt(After(text, s, c, o).0, c.date).rows, c.summaries.day,
                    1 + (if DayAt(s, c.date).accepted.Some? then DayAt(s, c.date).accepted.value.version else 0))
  {
    hide *;
    UpdatedIs(After(text, s, c, o).1);
    UpdateHoldsLast(text, s, c, o);
    UpdatedReport(text, s, c, o);
    HoldsLastMeans(text, DayAt(After(text, s, c, o).0, c.date));
    RowsAreLast(text, DayAt(After(text, s, c, o).0, c.date).rows, c.summaries.day,
                DayAt(After(text, s, c, o).0, c.date).accepted.value.version);
  }

  lemma UpdatedIs(r: Outcome)
    ensures r.Returned? && r.report.disposition == Updated <==> IsUpdate(r)
  {
  }

  lemma HoldsLastMeans(text: TextOps, d: DayArchive)
    requires HoldsLast(text, d) && d.accepted.Some?
    ensures var day := d.accepted.value.content;
            d.rows.Keys == KeySet(RowsKeys(text, day))
                && RowsHoldLast(d.rows, RowsKeys(text, day), day.slices, d.accepted.value.version)
  {
    hide RowsKeys, RowsHoldLast, KeySet;
  }

  /** The first slice of the summary with the key of an allocation, if there is one, decides what becomes of it. */
  ghost predicate Follows(text: TextOps, day: Day, a: Allocation, b: Allocation) {
    && b.id == a.id && b.key == a.key && b.choice == a.choice
    && ((forall x :: x in day.slices ==> !StoredUnder(text, day, x, a.key)) ==> !b.active && b.seconds == a.seconds)
    && (forall i: nat :: FirstUnder(text, day, i, a.key) ==>
          b.active && b.seconds == if a.active && -0.001 <= a.seconds - day.slices[i].seconds <= 0.001 then a.seconds
                                   else day.slices[i].seconds)
  }

  lemma {:induction false} SecondsForFirst(keys: seq<Key>, slices: seq<NormalizedSlice>, k: Key, i: nat)
    requires |keys| == |slices| && i < |keys| && keys[i] == k && forall j :: 0 <= j < i ==> keys[j] != k
    ensures SecondsFor(keys, slices, k) == Some(slices[i].seconds)
  {
    if i > 0 { SecondsForFirst(keys[1..], slices[1..], k, i - 1); }
  }

  lemma SecondsFound(text: TextOps, day: Day, k: Key)
    ensures var seconds := SecondsFor(RowsKeys(text, day), day.slices, k);
            && (seconds.Some? ==> exists i: nat :: FirstUnder(text, day, i, k))
            && (forall i: nat :: FirstUnder(text, day, i, k) ==> seconds == Some(day.slices[i].seconds))
            && ((forall x :: x in day.slices ==> !StoredUnder(text, day, x, k)) ==> seconds.None?)
  {
    var keys := RowsKeys(text, day);
    StoredUnderIs(text, day);
    SecondsForIs(keys, day.slices, k);
    hide RowsKeys, StoredUnder, SecondsFor;
    if k in keys {
      var i := FirstAt(keys, k);
      assert FirstUnder(text, day, i, k);
      assert day.slices[i] in day.slices;
    }
    forall i: nat | FirstUnder(text, day, i, k) ensures SecondsFor(keys, day.slices, k) == Some(day.slices[i].seconds) {
      SecondsForFirst(keys, day.slices, k, i);
    }
  }

  ghost function FirstAt(keys: seq<Key>, k: Key): (i: nat)
    requires k in keys
    ensures i < |keys| && keys[i] == k && forall j :: 0 <= j < i ==> keys[j] != k
  {
    if keys[0] == k then 0 else 1 + FirstAt(keys[1..], k)
  }

  lemma OverlaidFollows(text: TextOps, day: Day, a: Allocation)
    ensures Follows(text, day, a, Overlaid(a, SecondsFor(RowsKeys(text, day), day.slices, a.key)))
  {
    SecondsFound(text, day, a.key);
    hide RowsKeys, StoredUnder, SecondsFor, FirstUnder;
  }

  /** Every allocation of an updated date is reattached or adjusted to its slice, or detached. */
  lemma UpdatedAllocations(text: TextOps, s: State, c: Candidate, o: CallOptions)
    requires After(text, s, c, o).1.Returned? && After(text, s, c, o).1.report.disposition == Updated
    ensures c.summaries.Complete?
    ensures var before, after := DayAt(s, c.date).allocations, DayAt(After(text, s, c, o).0, c.date).allocations;
            |after| == |before| && forall i :: 0 <= i < |before| ==> Follows(text, c.summaries.day, before[i], after[i])
  {
    var day, w := Update(text, s, c, o);
    var before := DayAt(s, c.date).allocations;
    forall i | 0 <= i < |before|
      ensures Follows(text, day, before[i],
              Overlaid(before[i], SecondsFor(RowsKeys(text, day), day.slices, before[i].key)))
    {
      OverlaidFollows(text, day, before[i]);
    }
    hide After, DayAt, Follows, RowsKeys, SecondsFor, Overlaid, UpdatedRows, RefusedByTrigger, StaleCall, LosesDetail,
         SameContent, ArithmeticRefusal, DimensionsStorable, Retained;
  }

  /** The table of dimension totals takes rows that name a known project, no two alike in scope, dimension and name. */
  lemma StorableMeans(day: Day)
    ensures DimensionsStorable(day) <==>
            && (forall r :: r in day.rows && r.projectName.Some? ==>
                  var p := r.projectName.value;
                  p != "" && (p == "__unattributed__" || (exists q :: q in day.projects && q.name == p)
                              || exists x :: x in day.slices && x.projectName == p))
            && (forall i, j :: 0 <= i < j < |day.rows| ==>
                  !(day.rows[i].projectName == day.rows[j].projectName && day.rows[i].dimension == day.rows[j].dimension
                    && day.rows[i].name == day.rows[j].name))
  {
    forall p ensures KnownProject(day, p) <==>
      || p == "__unattributed__" || (exists q :: q in day.projects && q.name == p)
      || exists x :: x in day.slices && x.projectName == p
    {
      KnownProjectIs(day, p);
    }
    hide KnownProject;
    assert forall i, j :: 0 <= i < |day.rows| && 0 <= j < |day.rows| ==>
      (DimensionKey(day.rows[i]) == DimensionKey(day.rows[j]) <==>
       day.rows[i].projectName == day.rows[j].projectName && day.rows[i].dimension == day.rows[j].dimension
       && day.rows[i].name == day.rows[j].name);
    assert (forall i :: 0 <= i < |day.rows| ==> HasProjectId(day, day.rows[i])) <==>
           forall r :: r in day.rows ==> HasProjectId(day, r);
  }

  lemma KnownProjectIs(day: Day, p: string)
    ensures KnownProject(day, p) <==>
            || p == "__unattributed__" || (exists q :: q in day.projects && q.name == p)
            || exists x :: x in day.slices && x.projectName == p
  {
    if q :| q in day.projects && q.name == p {
      var i :| 0 <= i < |day.projects| && day.projects[i] == q;
    }
    if x :| x in day.slices && x.projectName == p {
      var i :| 0 <= i < |day.slices| && day.slices[i] == x;
    }
  }
}
