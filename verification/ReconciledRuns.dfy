/**
 From the reconciliation of a date to the outcome of its run: the advisory codes as texts, and what a success is
 worth.
 */
module ReconciledRuns {
  import opened Options
  import opened Text
  import opened ArchiveModel
  import opened ReconcileReports
  import opened ArchiveDetail
  import opened RunExecution
  import O = Outcome

  function CodeText(code: ReconcileCode): string {
    match code
    case MissingDate => "MISSING_REQUESTED_DATE"
    case MathematicalViolation => "MATHEMATICAL_INVARIANT_VIOLATION"
    case NegativeSlice => "NEGATIVE_RESIDUAL"
    case Overcount => "OVERCOUNT_TOLERANCE_EXCEEDED"
    case RunCancelled => "RUN_CANCELLED"
    case StaleGeneration => "STALE_CONNECTION_GENERATION"
    case OtherTimezone => "TIMEZONE_MISMATCH"
    case StaleVersion => "STALE_SNAPSHOT_VERSION"
    case Provisional => "CURRENT_DAY_PROVISIONAL"
    case DetailDowngrade => "DETAIL_DOWNGRADE"
    case ZeroAccepted => "VERIFIED_ZERO_ACCEPTED"
    case PayloadConflict => "HEARTBEAT_PAYLOAD_CONFLICT"
    case LayerCode(text) => text
  }

  function StatusText(status: DayStatus): O.DayStatus {
    match status
    case DaySucceeded => O.Succeeded
    case DayPartial => O.Partial
    case DayFailed => O.Failed
    case DaySkipped => O.Skipped
  }

  /**
   What the worker gives back for a date that it reconciled: the disposition, the codes among those of fetching, and
   the status, or a lower one because of an optional layer.
   */
  ghost predicate Relays(w: WorkerResult, report: Report) {
    && w.Returned? && w.disposition == Some(report.disposition)
    && (forall code :: code in report.codes ==> CodeText(code) in w.codes)
    && (w.status == O.Succeeded ==> report.status == DaySucceeded)
  }

  // ---- Which codes of a reconciliation are warnings ----

  lemma StartsDiffer(code: string)
    requires code != "" && code[0] !in {'U', 'O', 'N', 'M', 'T', 'I', 'R', 'S'}
    ensures forall start, x: string :: start in O.WARNING_STARTS ==> code != start + x
  {
    forall start, x: string | start in O.WARNING_STARTS ensures code != start + x {
      assert (start + x)[0] == start[0];
    }
  }

  lemma EndsDiffer(code: string)
    requires |code| >= 2 && code[|code| - 2..] != "ED" && code[|code| - 2..] != "OR"
    ensures forall end, x: string :: end in O.WARNING_ENDS ==> code != x + end
  {
    forall end, x: string | end in O.WARNING_ENDS ensures code != x + end {
      assert (x + end)[|x + end| - 2..] == end[|end| - 2..];
    }
  }

  /** The informational codes and the payload conflict are none, a restriction without a code of its own is one. */
  lemma WarningTexts(x: string)
    ensures !O.Warns("CURRENT_DAY_PROVISIONAL") && !O.Warns("VERIFIED_ZERO_ACCEPTED")
    ensures !O.Warns("HEARTBEAT_PAYLOAD_CONFLICT") && !O.Warns("HEARTBEATS_FAILED")
    ensures O.Warns(x + "_RESTRICTED")
  {
    O.WarnsIs("CURRENT_DAY_PROVISIONAL");
    O.WarnsIs("VERIFIED_ZERO_ACCEPTED");
    StartsDiffer("HEARTBEAT_PAYLOAD_CONFLICT");
    EndsDiffer("HEARTBEAT_PAYLOAD_CONFLICT");
    StartsDiffer("HEARTBEATS_FAILED");
    forall end, y: string | end in O.WARNING_ENDS ensures "HEARTBEATS_FAILED" != y + end {
      assert (y + end)[|y + end| - 3] == end[|end| - 3];
    }
    assert "_RESTRICTED" in O.WARNING_ENDS;
  }

  // ---- What the success of a run says about a reconciled date ----

  /** The status that the executor computes from the rows it started with and from what happened. */
  ghost function RunStatusOf(rows: seq<O.Row>, world: nat -> Await): O.RunStatus {
    var after := FinalRows(rows, world);
    O.StatusOf(after, EndFlags(after, CancelledAtEnd(rows, world), HaltedAtEnd(rows, world)))
  }

  lemma SuccessOfADate(rows: seq<O.Row>, world: nat -> Await, j: nat)
    requires j < |rows| && (rows[j].status == O.Pending || rows[j].status == O.Running)
    requires RunStatusOf(rows, world) == O.RunSucceeded
    ensures var r := world(j).result;
            && r.Returned? && r.status == O.Succeeded
               && (r.disposition == Some(Updated) || r.disposition == Some(Unchanged))
            && forall code :: code in r.codes ==> !O.Warns(code)
  {
    SucceedsIff(rows, world);
    CleanRunMeans(rows, world);
    hide FinalRows, EndFlags, CancelledAtEnd, HaltedAtEnd, CleanRun, O.StatusOf, O.Warns;
    assert GoodWork(world(j));
  }

  /**
   A run with a date whose heartbeats were restricted never succeeds, whatever came of its summary: the advisory code
   alone prevents it, a verified zero included.
   */
  lemma RestrictedNeverSucceeds(text: TextOps, s: State, c: Candidate, o: CallOptions, rows: seq<O.Row>,
                                world: nat -> Await, j: nat, x: string)
    requires j < |rows| && (rows[j].status == O.Pending || rows[j].status == O.Running)
    requires After(text, s, c, o).1.Returned? && Relays(world(j).result, After(text, s, c, o).1.report)
    requires c.heartbeats == BeatsRestricted("") || c.heartbeats == BeatsRestricted(x + "_RESTRICTED")
    ensures RunStatusOf(rows, world) != O.RunSucceeded
  {
    hide *;
    if RunStatusOf(rows, world) == O.RunSucceeded {
      SuccessOfADate(rows, world, j);
      RelaysMeans(world(j).result, After(text, s, c, o).1.report);
      var y := if c.heartbeats == BeatsRestricted("") then "HEARTBEATS" else x;
      assert "HEARTBEATS" + "_RESTRICTED" == "HEARTBEATS_RESTRICTED";
      RestrictedCode(s.beats, c.heartbeats, y);
      AcceptedReports(text, s, c, o, LayerCode(y + "_RESTRICTED"));
      WarningTexts(y);
    }
  }

  lemma RelaysMeans(w: WorkerResult, report: Report)
    requires Relays(w, report)
    ensures w.Returned? && w.disposition == Some(report.disposition)
    ensures forall x :: LayerCode(x) in report.codes ==> x in w.codes
    ensures w.status == O.Succeeded ==> report.status == DaySucceeded
  {
    forall x | LayerCode(x) in report.codes ensures x in w.codes {
      assert CodeText(LayerCode(x)) in w.codes;
    }
  }

  lemma RestrictedCode(stored: map<string, string>, h: HeartbeatLayer, y: string)
    requires (h == BeatsRestricted("") && y + "_RESTRICTED" == "HEARTBEATS_RESTRICTED")
             || h == BeatsRestricted(y + "_RESTRICTED")
    ensures HeartbeatCode(stored, h, LayerCode(y + "_RESTRICTED"))
  {
  }

  /** An accepted summary reports the code of the heartbeats. */
  lemma AcceptedReports(text: TextOps, s: State, c: Candidate, o: CallOptions, code: ReconcileCode)
    requires After(text, s, c, o).1.Returned?
    requires var d := After(text, s, c, o).1.report.disposition; d == Updated || d == Unchanged
    requires HeartbeatCode(s.beats, c.heartbeats, code)
    ensures code in After(text, s, c, o).1.report.codes
  {
    if After(text, s, c, o).1.report.disposition == Updated {
      UpdatedReport(text, s, c, o);
    } else {
      UnchangedCodes(text, s, c, o);
    }
    hide After, HeartbeatCode;
  }

  /**
   When a run succeeds, every date that it reconciled is archived with its new summary, and it is a verified zero or
   the heartbeats that came with it are its matching evidence.
   */
  lemma SuccessMeansEvidence(text: TextOps, s: State, c: Candidate, o: CallOptions, rows: seq<O.Row>,
                             world: nat -> Await, j: nat)
    requires j < |rows| && (rows[j].status == O.Pending || rows[j].status == O.Running)
    requires EvidenceSound(s) && After(text, s, c, o).1.Returned?
             && Relays(world(j).result, After(text, s, c, o).1.report)
    requires RunStatusOf(rows, world) == O.RunSucceeded
    ensures c.summaries.Complete?
    ensures var d := DayAt(After(text, s, c, o).0, c.date);
            && d.accepted.Some? && d.accepted.value.content == c.summaries.day
            && (|| IsZero(c.summaries.day)
                || (CleanBeats(s.beats, c.heartbeats) && d.evidence.Some? && d.evidence.value.matches
                    && d.evidence.value.content == c.heartbeats.beats))
  {
    SuccessOfADate(rows, world, j);
    if After(text, s, c, o).1.report.disposition == Updated {
      UpdatedReport(text, s, c, o);
      UpdatedEvidence(text, s, c, o);
    } else {
      UnchangedReport(text, s, c, o);
    }
    hide After, RunStatusOf, O.Warns, DayAt, CleanBeats, BeatsFollow, HeartbeatCode, EvidenceSound;
  }

  // ---- Exactly which reports are worth a success ----

  /** The row of a date whose worker gives back the report as it is. */
  ghost predicate RowOfReport(row: O.Row, report: Report) {
    && row.status == StatusText(report.status) && row.disposition == Some(report.disposition)
    && forall code :: code in row.codes <==> exists c :: c in report.codes && CodeText(c) == code
  }

  /** Degraded heartbeats whose code is no warning. */
  ghost predicate QuietlyDegraded(stored: map<string, string>, h: HeartbeatLayer) {
    match h
    case Beats(_, _) => !CleanBeats(stored, h)
    case BeatsRestricted(code) => code != "" && !O.Warns(code)
    case BeatsFailed(code) => code == "" || !O.Warns(code)
    case BeatsSkipped => false
  }

  /**
   A date is worth a success exactly if its summary was accepted, new or as before, and its heartbeats were clean, or
   it is a verified zero whose heartbeats were skipped, or degraded without a warning while the summary was new.
   */
  lemma GoodReportIff(text: TextOps, s: State, c: Candidate, o: CallOptions, row: O.Row)
    requires EvidenceSound(s)
    requires After(text, s, c, o).1.Returned? && RowOfReport(row, After(text, s, c, o).1.report)
    ensures O.Good(row) <==>
            var d := After(text, s, c, o).1.report.disposition;
            && (d == Updated || d == Unchanged) && c.summaries.Complete?
            && (|| CleanBeats(s.beats, c.heartbeats)
                || (IsZero(c.summaries.day)
                    && (c.heartbeats.BeatsSkipped? || (d == Updated && QuietlyDegraded(s.beats, c.heartbeats)))))
  {
    hide *;
    var report := After(text, s, c, o).1.report;
    if report.disposition == Updated {
      UpdatedReport(text, s, c, o);
      GoodRow(row, report, s.beats, c.heartbeats, IsZero(c.summaries.day));
    } else if report.disposition == Unchanged {
      UnchangedReport(text, s, c, o);
      GoodRow(row, report, s.beats, c.heartbeats, IsZero(c.summaries.day));
    } else {
      WithheldRow(row, report);
    }
  }

  lemma WithheldRow(row: O.Row, report: Report)
    requires RowOfReport(row, report) && report.disposition != Updated && report.disposition != Unchanged
    ensures !O.Good(row)
  {
    hide O.Warns;
  }

  lemma GoodRow(row: O.Row, report: Report, stored: map<string, string>, h: HeartbeatLayer, zero: bool)
    requires RowOfReport(row, report) && (report.disposition == Updated || report.disposition == Unchanged)
    requires var enough := if report.disposition == Updated then zero else h.BeatsSkipped? && zero;
             report.status == if enough || CleanBeats(stored, h) then DaySucceeded else DayPartial
    requires forall c :: c in report.codes ==> c == Provisional || c == ZeroAccepted || HeartbeatCode(stored, h, c)
    requires forall c :: HeartbeatCode(stored, h, c) ==> c in report.codes
    ensures O.Good(row) <==>
            || CleanBeats(stored, h)
            || (zero && (h.BeatsSkipped? || (report.disposition == Updated && QuietlyDegraded(stored, h))))
  {
    WarningTexts("HEARTBEATS");
    assert "HEARTBEATS" + "_RESTRICTED" == "HEARTBEATS_RESTRICTED";
    CodesWarn(stored, h, row.codes, report.codes);
    assert CleanBeats(stored, h) ==> h.Beats?;
    hide O.Warns, CleanBeats, HeartbeatCode, CodeText;
  }

  lemma CodesWarn(stored: map<string, string>, h: HeartbeatLayer, texts: seq<string>, codes: seq<ReconcileCode>)
    requires forall text :: text in texts <==> exists c :: c in codes && CodeText(c) == text
    requires forall c :: c in codes ==> c == Provisional || c == ZeroAccepted || HeartbeatCode(stored, h, c)
    requires forall c :: HeartbeatCode(stored, h, c) ==> c in codes
    ensures (exists text :: text in texts && O.Warns(text)) <==>
            (h.BeatsRestricted? && (h.code == "" || O.Warns(h.code)))
                || (h.BeatsFailed? && h.code != "" && O.Warns(h.code))
  {
    WarningTexts("HEARTBEATS");
    assert "HEARTBEATS" + "_RESTRICTED" == "HEARTBEATS_RESTRICTED";
    hide O.Warns, CleanBeats;
    if h.BeatsRestricted? || h.BeatsFailed? {
      var code := LayerCode(if h.code != "" then h.code
                            else if h.BeatsRestricted? then "HEARTBEATS_RESTRICTED" else "HEARTBEATS_FAILED");
      assert HeartbeatCode(stored, h, code) && CodeText(code) in texts;
    }
  }
}
