/** The outcome of a sync run, aggregated over its date rows. */
module Outcome {
  import opened Options
  import ArchiveModel

  datatype DayStatus = Pending | Running | Succeeded | Partial | Failed | Skipped | Cancelled | Interrupted
  datatype Row = Row(date: string, status: DayStatus, disposition: Option<ArchiveModel.Disposition>, codes: seq<string>)
  datatype RunStatus = RunSucceeded | RunPartial | RunFailed | RunCancelled | RunInterrupted
  datatype Flags = Flags(cancelled: bool, interrupted: bool, registry: Option<bool>)
  datatype Aggregate = Aggregate(status: RunStatus, codes: set<string>)

  predicate Terminal(s: DayStatus) { s != Pending && s != Running }

  predicate AllTerminal(rows: seq<Row>) {
    forall i | 0 <= i < |rows| :: Terminal(rows[i].status)
  }

  predicate StartsWith(s: string, prefix: string) { |prefix| <= |s| && s[..|prefix|] == prefix }
  predicate EndsWith(s: string, suffix: string) { |suffix| <= |s| && s[|s| - |suffix|..] == suffix }

  /** The code tells of a degraded capability, lost detail, a restriction or an error. */
  predicate Degrades(code: string) {
    && code != "CURRENT_DAY_PROVISIONAL" && code != "VERIFIED_ZERO_ACCEPTED"
    && (code == "DETAIL_DOWNGRADE" || code == "NO_DATES_UPDATED" || EndsWith(code, "_RESTRICTED")
       || EndsWith(code, "_ERROR")
        || StartsWith(code, "UNSUPPORTED_") || StartsWith(code, "OVERCOUNT_") || StartsWith(code, "NEGATIVE_")
           || StartsWith(code, "MATHEMATICAL_")
        || StartsWith(code, "TIMEZONE_") || StartsWith(code, "MISSING_") || StartsWith(code, "INCOMPLETE_")
           || StartsWith(code, "REGISTRY_")
        || StartsWith(code, "STALE_"))
  }

  // ---- What the rows say ----

  predicate Useful(d: Option<ArchiveModel.Disposition>) {
    d == Some(ArchiveModel.Updated) || d == Some(ArchiveModel.Unchanged)
  }

  predicate Withheld(d: Option<ArchiveModel.Disposition>) {
    d == Some(ArchiveModel.Preserved) || d == Some(ArchiveModel.Rejected)
  }

  /** A row that proves its success: updated or unchanged, without a degrading code. */
  predicate ProvedSuccess(r: Row) {
    r.status == Succeeded && Useful(r.disposition) && forall j | 0 <= j < |r.codes| :: !Degrades(r.codes[j])
  }

  predicate HasStatus(rows: seq<Row>, s: DayStatus) {
    exists i | 0 <= i < |rows| :: rows[i].status == s
  }

  predicate OnlyStatus(rows: seq<Row>, s: DayStatus) {
    forall i | 0 <= i < |rows| :: rows[i].status == s
  }

  predicate AllProved(rows: seq<Row>) {
    forall i | 0 <= i < |rows| :: ProvedSuccess(rows[i])
  }

  predicate NothingGained(rows: seq<Row>) {
    HasStatus(rows, Failed) && !HasStatus(rows, Succeeded) && forall i | 0 <= i < |rows| :: rows[i].disposition.None?
  }

  /** The status of a run with date rows, in the order of precedence. */
  function StatusOf(rows: seq<Row>, f: Flags): RunStatus {
    if f.cancelled then RunCancelled
    else if f.interrupted then RunInterrupted
    else if f.registry.Some? then (if f.registry.value then RunSucceeded else RunFailed)
    else if rows == [] then RunFailed
    else if HasStatus(rows, Cancelled) then RunCancelled
    else if HasStatus(rows, Interrupted) then RunInterrupted
    else if OnlyStatus(rows, Skipped) then RunPartial
    else if AllProved(rows) then RunSucceeded
    else if NothingGained(rows) then RunFailed
    else RunPartial
  }

  predicate Throws(rows: seq<Row>, f: Flags) {
    !f.cancelled && !f.interrupted && f.registry.None? && !AllTerminal(rows)
  }

  function CodesIn(rows: seq<Row>): set<string> {
    set r, c | r in rows && c in r.codes :: c
  }

  // ---- The aggregation loop ----

  datatype Tally = Tally(succeeded: nat, partial: nat, failed: nat, skipped: nat, cancelled: nat, interrupted: nat,
                         useful: bool, withheld: bool, degraded: bool, proved: bool, codes: set<string>)

  function Count(rows: seq<Row>, s: DayStatus): nat {
    if rows == [] then 0 else Count(rows[..|rows| - 1], s) + if rows[|rows| - 1].status == s then 1 else 0
  }

  ghost predicate Tallied(t: Tally, rows: seq<Row>) {
    && t.succeeded == Count(rows, Succeeded) && t.partial == Count(rows, Partial) && t.failed == Count(rows, Failed)
    && t.skipped == Count(rows, Skipped) && t.cancelled == Count(rows, Cancelled)
       && t.interrupted == Count(rows, Interrupted)
    && (t.useful <==> exists i :: 0 <= i < |rows| && Useful(rows[i].disposition))
    && (t.withheld <==> exists i :: 0 <= i < |rows| && Withheld(rows[i].disposition))
    && (t.degraded <==> exists c :: c in CodesIn(rows) && Degrades(c))
    && (t.proved <==> forall i :: 0 <= i < |rows| && rows[i].status == Succeeded ==> Useful(rows[i].disposition))
    && t.codes == CodesIn(rows)
  }

  lemma LastRow(rows: seq<Row>, s: DayStatus)
    requires rows != []
    ensures HasStatus(rows, s) <==> HasStatus(rows[..|rows| - 1], s) || rows[|rows| - 1].status == s
    ensures OnlyStatus(rows, s) <==> OnlyStatus(rows[..|rows| - 1], s) && rows[|rows| - 1].status == s
  {
    var init := rows[..|rows| - 1];
    assert forall i :: 0 <= i < |init| ==> init[i] == rows[i];
    if HasStatus(init, s) {
      var i :| 0 <= i < |init| && init[i].status == s;
      assert rows[i].status == s;
    }
  }

  lemma {:induction false} CountSome(rows: seq<Row>, s: DayStatus)
    ensures Count(rows, s) <= |rows|
    ensures Count(rows, s) > 0 <==> HasStatus(rows, s)
    ensures Count(rows, s) == |rows| <==> OnlyStatus(rows, s)
  {
    if rows != [] {
      CountSome(rows[..|rows| - 1], s);
      LastRow(rows, s);
      hide HasStatus, OnlyStatus;
    }
  }

  /** Adding one row to the tally. */
  function Added(t: Tally, r: Row): Tally {
    Tally(t.succeeded + (if r.status == Succeeded then 1 else 0), t.partial + (if r.status == Partial then 1 else 0),
          t.failed + (if r.status == Failed then 1 else 0), t.skipped + (if r.status == Skipped then 1 else 0),
          t.cancelled + (if r.status == Cancelled then 1 else 0),
              t.interrupted + (if r.status == Interrupted then 1 else 0),
          t.useful || Useful(r.disposition), t.withheld || Withheld(r.disposition),
          t.degraded || exists c | c in r.codes :: Degrades(c),
          t.proved && (r.status == Succeeded ==> Useful(r.disposition)), t.codes + set c | c in r.codes)
  }

  lemma AddedTallies(t: Tally, rows: seq<Row>, i: nat)
    requires i < |rows| && Tallied(t, rows[..i])
    ensures Tallied(Added(t, rows[i]), rows[..i + 1])
  {
    var init, next := rows[..i], rows[..i + 1];
    assert next[..i] == init && next == init + [rows[i]];
    assert forall j :: 0 <= j < i ==> next[j] == init[j];
    assert next[i] == rows[i];
    hide Useful, Withheld, Degrades;
    assert CodesIn(next) == CodesIn(init) + set c | c in rows[i].codes;
  }

  method ReadCodes(codes: seq<string>) returns (all: set<string>, degraded: bool)
    ensures all == set c | c in codes
    ensures degraded <==> exists c :: c in codes && Degrades(c)
  {
    all, degraded := {}, false;
    hide Degrades;
    for j := 0 to |codes|
      invariant all == set c | c in codes[..j]
      invariant degraded <==> exists i :: 0 <= i < j && Degrades(codes[i])
    {
      assert codes[..j + 1] == codes[..j] + [codes[j]];
      all := all + {codes[j]};
      if Degrades(codes[j]) { degraded := true; }
    }
    assert codes[..|codes|] == codes;
  }

  method CountRow(t: Tally, r: Row) returns (after: Tally)
    ensures after == Added(t, r)
  {
    var codes, degraded := ReadCodes(r.codes);
    hide Useful, Withheld, Degrades;
    after := t.(codes := t.codes + codes, degraded := t.degraded || degraded,
                useful := t.useful || Useful(r.disposition), withheld := t.withheld || Withheld(r.disposition));
    match r.status {
      case Succeeded => after := after.(succeeded := t.succeeded + 1, proved := t.proved && Useful(r.disposition));
      case Partial => after := after.(partial := t.partial + 1);
      case Failed => after := after.(failed := t.failed + 1);
      case Skipped => after := after.(skipped := t.skipped + 1);
      case Cancelled => after := after.(cancelled := t.cancelled + 1);
      case Interrupted => after := after.(interrupted := t.interrupted + 1);
      case _ =>
    }
  }

  method TallyRows(rows: seq<Row>) returns (t: Tally)
    ensures Tallied(t, rows)
  {
    t := Tally(0, 0, 0, 0, 0, 0, false, false, false, true, {});
    assert rows[..0] == [];
    assert rows[..|rows|] == rows;
    assert Tallied(t, rows[..0]);
    hide *;
    for i := 0 to |rows|
      invariant Tallied(t, rows[..i])
    {
      AddedTallies(t, rows, i);
      t := CountRow(t, rows[i]);
    }
  }

  lemma DispositionCases(d: Option<ArchiveModel.Disposition>)
    ensures d.None? <==> !Useful(d) && !Withheld(d)
    ensures !(Useful(d) && Withheld(d))
  {
    if d.Some? {
      match d.value
      case Updated =>
      case Unchanged =>
      case Preserved =>
      case Rejected =>
    }
  }

  /** What the flags and counters of the tally decide. */
  lemma TallyDecides(t: Tally, rows: seq<Row>)
    requires Tallied(t, rows) && rows != [] && AllTerminal(rows)
    ensures t.cancelled > 0 <==> HasStatus(rows, Cancelled)
    ensures t.interrupted > 0 <==> HasStatus(rows, Interrupted)
    ensures t.skipped == |rows| <==> OnlyStatus(rows, Skipped)
    ensures AllProved(rows) <==>
            t.succeeded == |rows| && t.failed == 0 && t.partial == 0 && t.skipped == 0
            && !t.withheld && !t.degraded && t.proved
    ensures !t.useful && t.failed > 0 && t.succeeded == 0 && !t.withheld <==> NothingGained(rows)
  {
    CountSome(rows, Succeeded);
    CountSome(rows, Partial);
    CountSome(rows, Failed);
    CountSome(rows, Skipped);
    CountSome(rows, Cancelled);
    CountSome(rows, Interrupted);
    forall i | 0 <= i < |rows| ensures rows[i].disposition.None?
        <==> !Useful(rows[i].disposition) && !Withheld(rows[i].disposition) {
      DispositionCases(rows[i].disposition);
    }
    ProvedSplit(t, rows);
    hide Useful, Withheld, Degrades, AllProved, ProvedSuccess, Count, CodesIn, AllTerminal;
  }

  lemma ProvedSplit(t: Tally, rows: seq<Row>)
    requires Tallied(t, rows) && rows != []
    ensures OnlyStatus(rows, Succeeded) && !t.withheld && !t.degraded && t.proved <==> AllProved(rows)
    ensures OnlyStatus(rows, Succeeded) ==>
            !HasStatus(rows, Failed) && !HasStatus(rows, Partial) && !HasStatus(rows, Skipped)
  {
    if OnlyStatus(rows, Succeeded) && !t.degraded {
      forall i, j | 0 <= i < |rows| && 0 <= j < |rows[i].codes| ensures !Degrades(rows[i].codes[j]) {
        assert rows[i] in rows && rows[i].codes[j] in rows[i].codes;
        assert rows[i].codes[j] in CodesIn(rows);
      }
    }
    if AllProved(rows) {
      forall c | c in CodesIn(rows) ensures !Degrades(c) {
        var r :| r in rows && c in r.codes;
        var i :| 0 <= i < |rows| && rows[i] == r;
        var j :| 0 <= j < |r.codes| && r.codes[j] == c;
      }
      forall i | 0 <= i < |rows| ensures !Withheld(rows[i].disposition) {
        DispositionCases(rows[i].disposition);
      }
    }
    hide Useful, Withheld, Degrades, Count;
  }

  // ---- The outcome in plain terms ----

  const WARNING_CODES := {"DETAIL_DOWNGRADE", "NO_DATES_UPDATED"}
  const WARNING_ENDS := {"_RESTRICTED", "_ERROR"}
  const WARNING_STARTS := {
    "UNSUPPORTED_", "OVERCOUNT_", "NEGATIVE_", "MATHEMATICAL_", "TIMEZONE_", "MISSING_", "INCOMPLETE_", "REGISTRY_",
    "STALE_"
  }

  /** The forms of the codes that keep a run from succeeding. */
  ghost predicate Warns(code: string) {
    || code in WARNING_CODES
    || (exists end, x: string :: end in WARNING_ENDS && code == x + end)
    || (exists start, x: string :: start in WARNING_STARTS && code == start + x)
  }

  lemma EndsWithIs(s: string, suffix: string)
    ensures EndsWith(s, suffix) <==> exists x :: s == x + suffix
  {
    if EndsWith(s, suffix) { assert s == s[..|s| - |suffix|] + suffix; }
  }

  lemma StartsWithIs(s: string, prefix: string)
    ensures StartsWith(s, prefix) <==> exists x :: s == prefix + x
  {
    if StartsWith(s, prefix) { assert s == prefix + s[|prefix|..]; }
  }

  /** The two informational codes have none of the forms, so excluding them first changes nothing. */
  lemma InformationalCodes(code: string)
    requires code == "CURRENT_DAY_PROVISIONAL" || code == "VERIFIED_ZERO_ACCEPTED"
    ensures code !in WARNING_CODES
    ensures forall end :: end in WARNING_ENDS ==> !EndsWith(code, end)
    ensures forall start :: start in WARNING_STARTS ==> !StartsWith(code, start)
  {
    forall end | end in WARNING_ENDS ensures !EndsWith(code, end) {
      assert code[|code| - 1] != end[|end| - 1] || code[|code| - 4] != end[|end| - 4];
    }
    forall start | start in WARNING_STARTS ensures !StartsWith(code, start) {
      assert start[0] != code[0];
    }
  }

  lemma WarnsIs(code: string)
    ensures Degrades(code) <==> Warns(code)
  {
    forall end ensures EndsWith(code, end) <==> exists x :: code == x + end { EndsWithIs(code, end); }
    forall start ensures StartsWith(code, start) <==> exists x :: code == start + x { StartsWithIs(code, start); }
    if code == "CURRENT_DAY_PROVISIONAL" || code == "VERIFIED_ZERO_ACCEPTED" { InformationalCodes(code); }
    hide EndsWith, StartsWith;
  }

  /** A date that succeeded as updated or unchanged and has no warning. */
  ghost predicate Good(r: Row) {
    && r.status == Succeeded
    && (r.disposition == Some(ArchiveModel.Updated) || r.disposition == Some(ArchiveModel.Unchanged))
    && forall c :: c in r.codes ==> !Warns(c)
  }

  lemma GoodIs(r: Row)
    ensures ProvedSuccess(r) <==> Good(r)
  {
    forall c ensures Degrades(c) <==> Warns(c) { WarnsIs(c); }
    hide Degrades, Warns;
  }

  /** Every status of a run with date rows, and exactly when it is given. */
  lemma StatusMeans(rows: seq<Row>, f: Flags)
    requires f.registry.None?
    ensures StatusOf(rows, f) == RunCancelled <==>
            f.cancelled || (!f.interrupted && exists r :: r in rows && r.status == Cancelled)
    ensures StatusOf(rows, f) == RunInterrupted <==>
            !f.cancelled && (f.interrupted || ((exists r :: r in rows && r.status == Interrupted)
                                               && forall r :: r in rows ==> r.status != Cancelled))
    ensures StatusOf(rows, f) == RunSucceeded <==>
            !f.cancelled && !f.interrupted && rows != [] && forall r :: r in rows ==> Good(r)
    ensures StatusOf(rows, f) == RunFailed <==>
            !f.cancelled && !f.interrupted
            && (rows == [] || ((exists r :: r in rows && r.status == Failed)
                               && forall r :: r in rows ==>
                                    r.disposition.None? && r.status != Succeeded && r.status != Cancelled
                                    && r.status != Interrupted))
  {
    hide *;
    if rows != [] { assert rows[0] in rows; }
    HasStatusIs(rows, Cancelled);
    HasStatusIs(rows, Interrupted);
    HasStatusIs(rows, Failed);
    HasStatusIs(rows, Succeeded);
    AllGood(rows);
    NothingGainedIs(rows);
    StatusOfIs(rows, f);
    OnlySkippedIs(rows);
  }

  lemma HasStatusIs(rows: seq<Row>, s: DayStatus)
    ensures HasStatus(rows, s) <==> exists r :: r in rows && r.status == s
  {
  }

  lemma AllGood(rows: seq<Row>)
    ensures AllProved(rows) <==> forall r :: r in rows ==> Good(r)
    ensures AllProved(rows) ==> forall r :: r in rows ==> r.status == Succeeded
  {
    forall r ensures ProvedSuccess(r) <==> Good(r) { GoodIs(r); }
    assert forall r :: Good(r) ==> r.status == Succeeded;
    hide ProvedSuccess, Good;
  }

  lemma NothingGainedIs(rows: seq<Row>)
    ensures NothingGained(rows) <==>
            HasStatus(rows, Failed) && !HasStatus(rows, Succeeded) && forall r :: r in rows ==> r.disposition.None?
  {
    hide HasStatus;
  }

  lemma OnlySkippedIs(rows: seq<Row>)
    ensures OnlyStatus(rows, Skipped) <==> forall r :: r in rows ==> r.status == Skipped
  {
  }

  lemma StatusOfIs(rows: seq<Row>, f: Flags)
    ensures StatusOf(rows, f) ==
            if f.cancelled then RunCancelled
            else if f.interrupted then RunInterrupted
            else if f.registry.Some? then (if f.registry.value then RunSucceeded else RunFailed)
            else if rows == [] then RunFailed
            else if HasStatus(rows, Cancelled) then RunCancelled
            else if HasStatus(rows, Interrupted) then RunInterrupted
            else if OnlyStatus(rows, Skipped) then RunPartial
            else if AllProved(rows) then RunSucceeded
            else if NothingGained(rows) then RunFailed
            else RunPartial
  {
    hide HasStatus, OnlyStatus, AllProved, NothingGained;
  }

  lemma AllTerminalIs(rows: seq<Row>)
    ensures AllTerminal(rows) <==> forall row :: row in rows ==> row.status != Pending && row.status != Running
  {
  }

  /** aggregateRunOutcome: None is the exception for a nonterminal row. */
  method AggregateRunOutcome(rows: seq<Row>, f: Flags) returns (r: Option<Aggregate>)
    ensures r.None? <==>
              !f.cancelled && !f.interrupted && f.registry.None?
              && exists row :: row in rows && (row.status == Pending || row.status == Running)
    ensures r.None? <==> Throws(rows, f)
    ensures r.Some? ==> r.value.status == StatusOf(rows, f)
    ensures r.Some? && !f.cancelled && !f.interrupted && f.registry.None? ==>
              r.value.codes == CodesIn(rows) + if r.value.status == RunPartial
                  && OnlyStatus(rows, Skipped) then {"NO_DATES_UPDATED"} else {}
    ensures r.Some? && (f.cancelled || f.interrupted || f.registry.Some?) ==>
              r.value.codes == if f.cancelled then {"RUN_CANCELLED"} else {}
    ensures r.Some? && f.registry.None? ==>
              (r.value.status == RunSucceeded <==>
               !f.cancelled && !f.interrupted && rows != [] && forall row :: row in rows ==> Good(row))
  {
    hide Good;
    if f.registry.None? { StatusMeans(rows, f); }
    AllTerminalIs(rows);
    AllGood(rows);
    if f.cancelled { return Some(Aggregate(RunCancelled, {"RUN_CANCELLED"})); }
    if f.interrupted { return Some(Aggregate(RunInterrupted, {})); }
    if f.registry.Some? {
      return Some(Aggregate(if f.registry.value then RunSucceeded else RunFailed, {}));
    }
    if |rows| == 0 {
      assert rows == [];
      return Some(Aggregate(RunFailed, {}));
    }
    for i := 0 to |rows|
      invariant forall j :: 0 <= j < i ==> Terminal(rows[j].status)
    {
      if !Terminal(rows[i].status) { return None; }
    }
    var t := TallyRows(rows);
    TallyDecides(t, rows);
    assert t.codes == CodesIn(rows);
    assert OnlyStatus(rows, Skipped) ==>
           !HasStatus(rows, Cancelled) && !HasStatus(rows, Interrupted) && !AllProved(rows) by {
      SkippedOnly(rows);
    }
    hide Tallied, HasStatus, OnlyStatus, AllProved, NothingGained, CodesIn;
    if t.cancelled > 0 { return Some(Aggregate(RunCancelled, t.codes)); }
    if t.interrupted > 0 { return Some(Aggregate(RunInterrupted, t.codes)); }
    if t.skipped == |rows| { return Some(Aggregate(RunPartial, t.codes + {"NO_DATES_UPDATED"})); }
    if t.succeeded == |rows| && t.failed == 0 && t.partial == 0 && t.skipped == 0 && !t.withheld && !t.degraded
        && t.proved {
      return Some(Aggregate(RunSucceeded, t.codes));
    }
    if !t.useful && t.failed > 0 && t.succeeded == 0 && !t.withheld { return Some(Aggregate(RunFailed, t.codes)); }
    r := Some(Aggregate(RunPartial, t.codes));
  }

  lemma SkippedOnly(rows: seq<Row>)
    requires rows != []
    ensures OnlyStatus(rows, Skipped) ==>
            !HasStatus(rows, Cancelled) && !HasStatus(rows, Interrupted) && !AllProved(rows)
  {
    if OnlyStatus(rows, Skipped) { assert rows[0].status == Skipped; }
    hide Useful, Degrades;
  }

  /** Success of a run with date rows means that every row proves its own. */
  lemma SucceededIff(rows: seq<Row>, f: Flags)
    requires f.registry.None?
    ensures StatusOf(rows, f) == RunSucceeded <==> !f.cancelled && !f.interrupted && rows != [] && AllProved(rows)
  {
    if AllProved(rows) && rows != [] { assert ProvedSuccess(rows[0]); }
    hide Useful, Degrades, NothingGained;
  }
}
