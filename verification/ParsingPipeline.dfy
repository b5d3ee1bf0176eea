/**
 The artifact pipeline of one evidence job: a restartable run over fixed stages whose reports are
 kept in the persisted row.  A run may finish, raise anywhere, or die with the worker; it may be
 repeated, with or without force, any number of times.
 */
module ParsingPipeline {
  import opened Options

  // ----- Data model -----

  datatype Status = Success | Failed | Skipped | NotConfigured | Partial

  /** `count` is what the stage reports as done: inputs parsed, matches, events or chains. */
  datatype Report = Report(status: Status, reason: string, inputs: nat, count: nat, errors: seq<string>)

  type Reports = map<string, Report>

  datatype JobStatus = Running | Done | PartiallyDone | JobFailed

  datatype Row = Row(status: JobStatus, phase: string, stages: Reports, error: Option<string>, completed: bool)

  const PARSER_STAGES: seq<string> := [
    "parser:evtx", "parser:mft", "parser:usnjrnl", "parser:amcache", "parser:registry",
    "parser:prefetch", "parser:lnk", "parser:shellbags", "parser:jumplists", "parser:srum"]

  const LATER_STAGES: seq<string> := [
    "sigma:chainsaw", "sigma:hayabusa", "timeline", "analytics:yara", "analytics:ioc", "analytics:attack_chains"]

  const FAILURE := "failure"

  ghost predicate IsStage(key: string) {
    key in PARSER_STAGES || key in LATER_STAGES
  }

  /** The sixteen stages. */
  lemma StageNames(key: string)
    ensures IsStage(key) <==> key in {
      "parser:evtx", "parser:mft", "parser:usnjrnl", "parser:amcache", "parser:registry", "parser:prefetch",
      "parser:lnk", "parser:shellbags", "parser:jumplists", "parser:srum", "sigma:chainsaw", "sigma:hayabusa",
      "timeline", "analytics:yara", "analytics:ioc", "analytics:attack_chains"}
  {
  }

  lemma FailureIsNoStage()
    ensures !IsStage(FAILURE)
  {
  }

  // ----- One parser stage -----

  /** What the environment decides about a parser: its inputs, the tool, and each input's run. */
  datatype Tool = Tool(inputs: seq<string>, dllFound: bool, needsBatch: bool, batchFound: bool)

  predicate Configured(t: Tool) {
    t.dllFound && (!t.needsBatch || t.batchFound)
  }

  /** The inputs whose run did not exit cleanly with CSV output, in order. */
  function FailedInputs(inputs: seq<string>, produces: string -> bool): seq<string> {
    if inputs == [] then []
    else
      var n := |inputs| - 1;
      FailedInputs(inputs[..n], produces) + if produces(inputs[n]) then [] else [inputs[n]]
  }

  /** The positions listed are those of the failing inputs, in order. */
  ghost predicate FailingAt(inputs: seq<string>, produces: string -> bool, at: seq<nat>, failed: seq<string>) {
    && |at| == |failed| && (forall p, q :: 0 <= p < q < |at| ==> at[p] < at[q])
    && (forall p :: 0 <= p < |at| ==> at[p] < |inputs| && failed[p] == inputs[at[p]] && !produces(failed[p]))
    && forall i: nat :: i < |inputs| && !produces(inputs[i]) ==> i in at
  }

  lemma {:induction false} FailedInputsMean(inputs: seq<string>, produces: string -> bool) returns (at: seq<nat>)
    ensures FailingAt(inputs, produces, at, FailedInputs(inputs, produces))
  {
    hide FailingAt;
    if inputs == [] {
      at := [];
      NothingFails(produces);
    } else {
      var n := |inputs| - 1;
      at := FailedInputsMean(inputs[..n], produces);
      FailingNext(inputs[..n], produces, at, FailedInputs(inputs[..n], produces), inputs[n]);
      assert inputs == inputs[..n] + [inputs[n]];
      if produces(inputs[n]) {
        assert FailedInputs(inputs, produces) == FailedInputs(inputs[..n], produces);
      } else {
        at := at + [n];
      }
    }
  }

  lemma NothingFails(produces: string -> bool)
    ensures FailingAt([], produces, [], [])
  {
  }

  lemma FailingNext(inputs: seq<string>, produces: string -> bool, at: seq<nat>, failed: seq<string>, input: string)
    requires FailingAt(inputs, produces, at, failed)
    ensures if produces(input) then FailingAt(inputs + [input], produces, at, failed)
            else FailingAt(inputs + [input], produces, at + [|inputs|], failed + [input])
  {
    var longer, at' := inputs + [input], at + [|inputs|];
    forall i: nat | i < |longer| && !produces(longer[i]) ensures i in if produces(input) then at else at' {
      if i == |inputs| { assert at'[|at|] == i; } else { assert inputs[i] == longer[i]; }
    }
  }

  /** Coverage accounting: every input is counted once, as a success or as an error. */
  method ExecuteParser(t: Tool, produces: string -> bool) returns (r: Report)
    ensures r.inputs == |t.inputs|
    ensures r.status.Skipped? <==> t.inputs == []
    ensures r.status.NotConfigured? <==> t.inputs != [] && !(t.dllFound && (t.needsBatch ==> t.batchFound))
    ensures r.status.Failed? <==> t.inputs != [] && Configured(t) && exists p :: p in t.inputs && !produces(p)
    ensures r.status.Skipped? ==> r.reason == "No applicable artifacts"
    ensures r.status.NotConfigured? ==>
              r.reason == if t.dllFound then "RECmd_Batch_MC.reb is required" else "DLL not available"
    ensures !r.status.Partial?
    ensures r.status.Success? || r.status.Failed? ==>
              r.errors == FailedInputs(t.inputs, produces) && r.count + |r.errors| == r.inputs
    ensures r.status.Skipped? || r.status.NotConfigured? ==> r.errors == [] && r.count == 0
  {
    if t.inputs == [] {
      return Report(Skipped, "No applicable artifacts", 0, 0, []);
    }
    if !t.dllFound {
      return Report(NotConfigured, "DLL not available", |t.inputs|, 0, []);
    }
    if t.needsBatch && !t.batchFound {
      return Report(NotConfigured, "RECmd_Batch_MC.reb is required", |t.inputs|, 0, []);
    }
    var succeeded, errors := 0, [];
    for i := 0 to |t.inputs|
      invariant succeeded + |errors| == i
      invariant errors == FailedInputs(t.inputs[..i], produces)
      invariant errors == [] <==> forall j :: 0 <= j < i ==> produces(t.inputs[j])
    {
      assert t.inputs[..i + 1][..i] == t.inputs[..i];
      if produces(t.inputs[i]) {
        succeeded := succeeded + 1;
      } else {
        errors := errors + [t.inputs[i]];
      }
    }
    assert t.inputs[..|t.inputs|] == t.inputs;
    r := Report(if errors != [] then Failed else Success, "", |t.inputs|, succeeded, errors);
  }

  /** What a stage's report says about its plan entry. */
  ghost predicate StageOk(plan: map<string, Tool>, produces: (string, string) -> bool, key: string, r: Report)
    requires key in plan
  {
    var t := plan[key];
    && r.inputs == |t.inputs|
    && r.status == (if t.inputs == [] then Skipped else if !Configured(t) then NotConfigured
                    else if exists p :: p in t.inputs && !produces(key, p) then Failed else Success)
    && r.errors == (if Configured(t) then FailedInputs(t.inputs, input => produces(key, input)) else [])
    && r.count == (if Configured(t) then |t.inputs| - |r.errors| else 0)
  }

  /** All parsers of the plan: one report for each of the fixed keys. */
  method ExecuteParsers(plan: map<string, Tool>, produces: (string, string) -> bool) returns (stages: Reports)
    requires forall key :: key in PARSER_STAGES ==> key in plan
    ensures stages.Keys == set key | key in PARSER_STAGES
    ensures forall key :: key in stages ==> StageOk(plan, produces, key, stages[key])
  {
    stages := map[];
    for i := 0 to |PARSER_STAGES|
      invariant stages.Keys == set key | key in PARSER_STAGES[..i]
      invariant forall key :: key in stages ==> key in plan && StageOk(plan, produces, key, stages[key])
    {
      var key := PARSER_STAGES[i];
      var r := ExecuteParser(plan[key], input => produces(key, input));
      assert StageOk(plan, produces, key, r);
      stages := stages[key := r];
      assert PARSER_STAGES[..i + 1] == PARSER_STAGES[..i] + [key];
    }
    assert PARSER_STAGES[..|PARSER_STAGES|] == PARSER_STAGES;
  }

  // ----- One run -----

  /** A detector's run: not attempted, hits found, or an exception. */
  datatype Detector = Detector(configured: bool, hits: Option<nat>)

  function SigmaReport(hasEvtx: bool, d: Detector): Report {
    if !hasEvtx then Report(Skipped, "No EVTX artifacts", 0, 0, [])
    else if !d.configured then Report(NotConfigured, "Detector binary or rules unavailable", 0, 0, [])
    else if d.hits.Some? then Report(Success, "", 0, d.hits.value, [])
    else Report(Failed, "detector raised", 0, 0, [])
  }

  /**
   How a run ends: it gets to its verdict, raises after n statements, or the worker dies there.  A
   run that finds the workspace locked, or raises or dies before its first commit, never starts.
   */
  datatype Ending = Finishes | RaisesAfter(n: nat) | DiesAfter(n: nat) | NeverStarts

  /** Everything outside the pipeline's own logic that one run depends on. */
  datatype Input = Input(
    force: bool, parsers: Reports, hasEvtx: bool, chainsaw: Detector, hayabusa: Detector, events: nat,
    yara: Option<Report>, indicators: nat, iocMatches: nat, chains: nat, ending: Ending, reason: string)
  {
    /** What the parser phase returns; proved of `ExecuteParsers`. */
    ghost predicate Valid() { parsers.Keys == set key | key in PARSER_STAGES }
  }

  /**
   The statements of a run that touch the reports or the row.  `Enter` is the first persist after the start: the
   start has stored the very dictionary that the parser reports are then added to, so the copy assigned by
   this persist equals it and only the phase is written.
   */
  datatype Statement = Write(reports: Reports) | Enter(phase: string) | Persist(phase: string)

  function Statements(inp: Input): seq<Statement> {
    [ Write(inp.parsers),
      Enter("sigma"),
      Write(map["sigma:chainsaw" := SigmaReport(inp.hasEvtx, inp.chainsaw)]),
      Write(map["sigma:hayabusa" := SigmaReport(inp.hasEvtx, inp.hayabusa)]),
      Persist("timeline"),
      Write(map["timeline" := Report(Success, "", 0, inp.events, [])]),
      Persist("analytics"),
      Write(map["analytics:yara" :=
        if inp.yara.Some? then inp.yara.value else Report(NotConfigured, "YARA rules not configured", 0, 0, [])]),
      Persist("analytics"),
      Write(map["analytics:ioc" :=
        if inp.indicators > 0 then Report(Success, "", inp.indicators, inp.iocMatches, [])
        else Report(NotConfigured, "No IOC indicators", 0, 0, [])]),
      Write(map["analytics:attack_chains" := Report(Success, "", 0, inp.chains, [])]),
      Persist("analytics") ]
  }

  /** A finished job is left alone unless forced. */
  predicate LeftAlone(row: Option<Row>, force: bool) {
    row.Some? && (row.value.status.Done? || row.value.status.PartiallyDone?) && !force
  }

  function StartReports(row: Option<Row>, force: bool): Reports {
    if force || row.None? then map[] else row.value.stages - {FAILURE}
  }

  predicate AnyFailed(reports: Reports) {
    exists key :: key in reports && reports[key].status.Failed?
  }

  predicate AnyIncomplete(reports: Reports) {
    exists key :: key in reports && (reports[key].status.NotConfigured? || reports[key].status.Partial?)
  }

  function VerdictOf(reports: Reports): JobStatus {
    if AnyFailed(reports) then JobFailed else if AnyIncomplete(reports) then PartiallyDone else Done
  }

  function FailureRow(row: Row, reports: Reports, reason: string): Row {
    Row(JobFailed, row.phase, reports[FAILURE := Report(Failed, reason, 0, 0, [])], Some(reason), true)
  }

  /** The reports and the committed row after the first n statements. */
  function Executed(statements: seq<Statement>, n: nat, reports: Reports, row: Row): (Reports, Row)
    requires n <= |statements|
  {
    if n == 0 then (reports, row)
    else
      var (rs, committed) := Executed(statements, n - 1, reports, row);
      match statements[n - 1]
      case Write(more) => (rs + more, committed)
      case Enter(phase) => (rs, committed.(phase := phase))
      case Persist(phase) => (rs, committed.(phase := phase, stages := rs))
  }

  /** How many of the run's statements are executed. */
  function Stop(ending: Ending, all: nat): (n: nat)
    ensures n <= all && (ending.Finishes? ==> n == all)
  {
    match ending
    case Finishes => all
    case RaisesAfter(n) => if n < all then n else all
    case DiesAfter(n) => if n < all then n else all
    case NeverStarts => 0
  }

  /** What the six stages behind the parsers report. */
  ghost predicate LaterReports(inp: Input, reports: Reports) {
    && "sigma:chainsaw" in reports && IsSigmaReport(inp.hasEvtx, inp.chainsaw, reports["sigma:chainsaw"])
    && "sigma:hayabusa" in reports && IsSigmaReport(inp.hasEvtx, inp.hayabusa, reports["sigma:hayabusa"])
    && "timeline" in reports && reports["timeline"].status.Success? && reports["timeline"].count == inp.events
    && "analytics:yara" in reports
    && (if inp.yara.Some? then reports["analytics:yara"] == inp.yara.value
        else reports["analytics:yara"].status.NotConfigured? && reports["analytics:yara"].reason == "YARA rules not configured")
    && "analytics:ioc" in reports
    && (reports["analytics:ioc"].status.Success? <==> inp.indicators > 0)
    && (reports["analytics:ioc"].status.NotConfigured? <==> inp.indicators == 0)
    && (inp.indicators > 0 ==>
          reports["analytics:ioc"].inputs == inp.indicators && reports["analytics:ioc"].count == inp.iocMatches)
    && (inp.indicators == 0 ==> reports["analytics:ioc"].reason == "No IOC indicators")
    && "analytics:attack_chains" in reports && reports["analytics:attack_chains"].status.Success?
    && reports["analytics:attack_chains"].count == inp.chains
  }

  /** A detector is skipped without event logs, not configured without its files, and fails if it raises. */
  ghost predicate IsSigmaReport(hasEvtx: bool, d: Detector, r: Report) {
    && (r.status.Skipped? <==> !hasEvtx) && (r.status.NotConfigured? <==> hasEvtx && !d.configured)
    && (r.status.Success? <==> hasEvtx && d.configured && d.hits.Some?)
    && (r.status.Failed? <==> hasEvtx && d.configured && d.hits.None?)
    && (r.status.Success? ==> r.count == d.hits.value)
    && (r.status.Skipped? ==> r.reason == "No EVTX artifacts")
    && (r.status.NotConfigured? ==> r.reason == "Detector binary or rules unavailable")
  }

  /** The row a run leaves, from the reports it holds and the row it last committed. */
  function Conclude(inp: Input, reports: Reports, committed: Row): Row
    requires !inp.ending.NeverStarts?
  {
    match inp.ending
    case DiesAfter(_) => committed
    case RaisesAfter(_) => FailureRow(committed, reports, inp.reason)
    case Finishes =>
      var verdict := VerdictOf(reports);
      if verdict.JobFailed? then FailureRow(committed, reports, "Failed stages")
      else Row(verdict, "analytics", reports, None, true)
  }

  function FirstRow(start: Reports): Row {
    Row(Running, "parsing", start, None, false)
  }

  function Perform(inp: Input, statements: seq<Statement>, start: Reports): Row
    requires !inp.ending.NeverStarts?
  {
    var (reports, committed) := Executed(statements, Stop(inp.ending, |statements|), start, FirstRow(start));
    Conclude(inp, reports, committed)
  }

  /** The persisted row after one run. */
  function AfterRun(row: Option<Row>, inp: Input): Option<Row> {
    if inp.ending.NeverStarts? || LeftAlone(row, inp.force) then row
    else Some(Perform(inp, Statements(inp), StartReports(row, inp.force)))
  }

  /** The persisted row after a history of runs. */
  function AfterRuns(inputs: seq<Input>): Option<Row> {
    if inputs == [] then None
    else AfterRun(AfterRuns(inputs[..|inputs| - 1]), inputs[|inputs| - 1])
  }

  /** The persisted row, written by the run step by step. */
  class ProcessingJob {
    var row: Option<Row>

    method Run(inp: Input)
      modifies this
      ensures row == AfterRun(old(row), inp)
    {
      if inp.ending.NeverStarts? || LeftAlone(row, inp.force) { return; }
      var reports := StartReports(row, inp.force);
      var statements := Statements(inp);
      row := Some(FirstRow(reports));
      ghost var start := reports;
      for i := 0 to Stop(inp.ending, |statements|)
        invariant row.Some? && (reports, row.value) == Executed(statements, i, start, FirstRow(start))
      {
        match statements[i]
        case Write(more) => reports := reports + more;
        case Enter(phase) => row := Some(row.value.(phase := phase));
        case Persist(phase) => row := Some(row.value.(phase := phase, stages := reports));
      }
      if inp.ending.RaisesAfter? {
        row := Some(FailureRow(row.value, reports, inp.reason));
      } else if inp.ending.Finishes? {
        var verdict := VerdictOf(reports);
        if verdict.JobFailed? {
          row := Some(FailureRow(row.value, reports, "Failed stages"));
        } else {
          row := Some(Row(verdict, "analytics", reports, None, true));
        }
      }
    }
  }

  // ----- What every history keeps -----

  /** The reports this run writes in its first n statements. */
  function Written(statements: seq<Statement>, n: nat): Reports
    requires n <= |statements|
  {
    if n == 0 then map[]
    else if statements[n - 1].Write? then Written(statements, n - 1) + statements[n - 1].reports
    else Written(statements, n - 1)
  }

  lemma MoreReports(reports: Reports, own: Reports, more: Reports)
    ensures reports + own + more == reports + (own + more)
    ensures reports.Keys + own.Keys <= reports.Keys + (own + more).Keys
  {
  }

  lemma {:induction false} ExecutedReports(statements: seq<Statement>, n: nat, reports: Reports, row: Row)
    requires n <= |statements|
    ensures Executed(statements, n, reports, row).0 == reports + Written(statements, n)
    ensures var r := Executed(statements, n, reports, row).1;
      r.status == row.status && r.error == row.error && r.completed == row.completed
    ensures row.stages.Keys <= reports.Keys ==>
      Executed(statements, n, reports, row).1.stages.Keys <= reports.Keys + Written(statements, n).Keys
  {
    if n > 0 {
      ExecutedReports(statements, n - 1, reports, row);
      var own := Written(statements, n - 1);
      if statements[n - 1].Write? { MoreReports(reports, own, statements[n - 1].reports); }
    }
  }

  lemma {:induction false} WrittenContains(statements: seq<Statement>, n: nat, key: string)
    requires n <= |statements|
    ensures key in Written(statements, n) <==>
            exists i :: 0 <= i < n && statements[i].Write? && key in statements[i].reports
  {
    if n > 0 { WrittenContains(statements, n - 1, key); }
  }

  /** Which statement writes a stage. */
  ghost function WriterOf(key: string): nat {
    if key == "sigma:chainsaw" then 2
    else if key == "sigma:hayabusa" then 3
    else if key == "timeline" then 5
    else if key == "analytics:yara" then 7
    else if key == "analytics:ioc" then 9
    else if key == "analytics:attack_chains" then 10
    else 0
  }

  lemma StageIsWritten(inp: Input, key: string)
    requires inp.Valid()
    ensures IsStage(key) <==>
            exists i :: 0 <= i < |Statements(inp)| && Statements(inp)[i].Write? && key in Statements(inp)[i].reports
  {
    var s := Statements(inp);
    if IsStage(key) {
      LaterStages(key);
      var i := WriterOf(key);
      assert s[i].Write? && key in s[i].reports;
    }
    if i: nat :| i < |s| && s[i].Write? && key in s[i].reports {
      assert i == 0 || i == 2 || i == 3 || i == 5 || i == 7 || i == 9 || i == 10;
    }
  }

  lemma LaterStages(key: string)
    requires IsStage(key)
    ensures WriterOf(key) == 0 <==> key in PARSER_STAGES
  {
  }

  lemma WrittenKeys(inp: Input, n: nat)
    requires inp.Valid() && n <= |Statements(inp)|
    ensures forall key :: key in Written(Statements(inp), n) ==> IsStage(key)
    ensures n == |Statements(inp)| ==> forall key :: IsStage(key) <==> key in Written(Statements(inp), n)
  {
    forall key ensures key in Written(Statements(inp), n) ==> IsStage(key)
               ensures n == |Statements(inp)| ==> (IsStage(key) <==> key in Written(Statements(inp), n))
    {
      WrittenContains(Statements(inp), n, key);
      StageIsWritten(inp, key);
    }
  }

  /** Stored keys stay within the fixed stages plus "failure", which marks exactly the failed rows. */
  ghost predicate RowOk(row: Row) {
    && (forall key :: key in row.stages ==> IsStage(key) || key == FAILURE)
    && (FAILURE in row.stages <==> row.status.JobFailed?)
    && (row.completed <==> !row.status.Running?)
    && (row.error.Some? <==> row.status.JobFailed?)
  }

  lemma ConcludeFacts(inp: Input, reports: Reports, committed: Row)
    requires !inp.ending.NeverStarts? && FAILURE !in reports && committed.stages.Keys <= reports.Keys
    requires committed.status.Running? && committed.error.None? && !committed.completed
    ensures var row := Conclude(inp, reports, committed);
      && row.stages.Keys <= reports.Keys + {FAILURE}
      && (row.status.Running? <==> inp.ending.DiesAfter?)
      && (!inp.ending.DiesAfter? ==> row.stages - {FAILURE} == reports)
      && (inp.ending.RaisesAfter? ==> row.status.JobFailed? && row.error == Some(inp.reason))
      && (inp.ending.Finishes? ==> row.status == VerdictOf(reports))
      && (FAILURE in row.stages <==> row.status.JobFailed?)
      && (row.error.Some? <==> row.status.JobFailed?)
      && (row.completed <==> !row.status.Running?)
  {
  }

  /** What any run leaves, in terms of what it started from and what it wrote. */
  lemma PerformFacts(inp: Input, statements: seq<Statement>, start: Reports)
    requires !inp.ending.NeverStarts? && FAILURE !in start
    requires forall key :: key in Written(statements, Stop(inp.ending, |statements|)) ==> key != FAILURE
    ensures var row, own := Perform(inp, statements, start), Written(statements, Stop(inp.ending, |statements|));
      && row.stages.Keys <= start.Keys + own.Keys + {FAILURE}
      && (row.status.Running? <==> inp.ending.DiesAfter?)
      && (!inp.ending.DiesAfter? ==> row.stages - {FAILURE} == start + own)
      && (inp.ending.RaisesAfter? ==> row.status.JobFailed? && row.error == Some(inp.reason))
      && (inp.ending.Finishes? ==> row.status == VerdictOf(start + own))
      && (FAILURE in row.stages <==> row.status.JobFailed?)
      && (row.error.Some? <==> row.status.JobFailed?)
      && (row.completed <==> !row.status.Running?)
  {
    var n := Stop(inp.ending, |statements|);
    var (reports, committed) := Executed(statements, n, start, FirstRow(start));
    ExecutedReports(statements, n, start, FirstRow(start));
    ConcludeFacts(inp, reports, committed);
  }

  lemma OwnKeysOf(inp: Input)
    requires inp.Valid()
    ensures forall key :: key in Written(Statements(inp), Stop(inp.ending, |Statements(inp)|)) ==> IsStage(key) && key != FAILURE
  {
    WrittenKeys(inp, Stop(inp.ending, |Statements(inp)|));
    FailureIsNoStage();
  }

  lemma RunKeepsRowOk(row: Option<Row>, inp: Input)
    requires inp.Valid() && (row.Some? ==> RowOk(row.value))
    ensures var r := AfterRun(row, inp); r.Some? ==> RowOk(r.value)
    ensures AfterRun(row, inp).Some? <==> row.Some? || !inp.ending.NeverStarts?
  {
    if !inp.ending.NeverStarts? && !LeftAlone(row, inp.force) {
      OwnKeysOf(inp);
      PerformFacts(inp, Statements(inp), StartReports(row, inp.force));
    }
  }

  lemma {:induction false} HistoryRowOk(inputs: seq<Input>)
    requires forall i :: 0 <= i < |inputs| ==> inputs[i].Valid()
    ensures AfterRuns(inputs).Some? ==> RowOk(AfterRuns(inputs).value)
    ensures AfterRuns(inputs).Some? <==> exists i :: 0 <= i < |inputs| && !inputs[i].ending.NeverStarts?
  {
    if inputs != [] {
      var n := |inputs| - 1;
      HistoryRowOk(inputs[..n]);
      RunKeepsRowOk(AfterRuns(inputs[..n]), inputs[n]);
      assert forall i :: 0 <= i < n ==> inputs[..n][i] == inputs[i];
    }
  }

  /** The reports of this run alone. */
  function OwnReports(inp: Input): Reports {
    Written(Statements(inp), |Statements(inp)|)
  }

  /** The last statement that writes a key decides. */
  lemma {:induction false} WrittenValue(s: seq<Statement>, n: nat, i: nat, key: string)
    requires i < n <= |s| && s[i].Write? && key in s[i].reports
    requires forall j :: i < j < n && s[j].Write? ==> key !in s[j].reports
    ensures key in Written(s, n) && Written(s, n)[key] == s[i].reports[key]
  {
    if i < n - 1 { WrittenValue(s, n - 1, i, key); }
  }

  /** The stage that statement i writes, if it is one of the six behind the parsers. */
  function LaterKey(i: nat): string {
    if i == 2 then "sigma:chainsaw" else if i == 3 then "sigma:hayabusa" else if i == 5 then "timeline"
    else if i == 7 then "analytics:yara" else if i == 9 then "analytics:ioc" else if i == 10 then "analytics:attack_chains"
    else ""
  }

  ghost predicate WritesOne(s: seq<Statement>) {
    |s| == 12 && forall i: nat :: 0 < i < 12 && s[i].Write? ==> LaterKey(i) != "" && s[i].reports.Keys == {LaterKey(i)}
  }

  lemma StatementsWriteOne(inp: Input)
    ensures WritesOne(Statements(inp))
  {
    hide SigmaReport;
  }

  lemma LaterKeysDiffer(i: nat, j: nat)
    requires i < j && LaterKey(j) != ""
    ensures LaterKey(i) != LaterKey(j)
  {
  }

  lemma OneReport(s: seq<Statement>, i: nat)
    requires WritesOne(s) && 0 < i < 12 && s[i].Write?
    ensures LaterKey(i) in s[i].reports
    ensures LaterKey(i) in Written(s, 12) && Written(s, 12)[LaterKey(i)] == s[i].reports[LaterKey(i)]
  {
    hide Written, LaterKey;
    forall j | i < j < 12 && s[j].Write? ensures LaterKey(i) !in s[j].reports { LaterKeysDiffer(i, j); }
    WrittenValue(s, 12, i, LaterKey(i));
  }

  lemma ParserReport(s: seq<Statement>, key: string)
    requires WritesOne(s) && s[0].Write? && key in s[0].reports && key in PARSER_STAGES
    ensures key in Written(s, 12) && Written(s, 12)[key] == s[0].reports[key]
  {
    hide Written, LaterKey;
    forall j | 0 < j < 12 && s[j].Write? ensures key !in s[j].reports { ParserKeysDiffer(key, j); }
    WrittenValue(s, 12, 0, key);
  }

  lemma ParserKeysDiffer(key: string, j: nat)
    requires key in PARSER_STAGES
    ensures LaterKey(j) != key
  {
  }

  /** The reports of a complete run: the parsers' as they came, the others as the environment has it. */
  lemma OwnReportsMean(inp: Input)
    requires inp.Valid()
    ensures forall key :: key in PARSER_STAGES ==> key in OwnReports(inp) && OwnReports(inp)[key] == inp.parsers[key]
    ensures LaterReports(inp, OwnReports(inp))
  {
    hide Written, SigmaReport, WritesOne;
    var s := Statements(inp);
    StatementsWriteOne(inp);
    forall key | key in PARSER_STAGES ensures key in OwnReports(inp) && OwnReports(inp)[key] == inp.parsers[key] {
      ParserReport(s, key);
    }
    OneReport(s, 2);
    OneReport(s, 3);
    OneReport(s, 5);
    OneReport(s, 7);
    OneReport(s, 9);
    OneReport(s, 10);
    SigmaReportMeans(inp.hasEvtx, inp.chainsaw);
    SigmaReportMeans(inp.hasEvtx, inp.hayabusa);
  }

  lemma SigmaReportMeans(hasEvtx: bool, d: Detector)
    ensures IsSigmaReport(hasEvtx, d, SigmaReport(hasEvtx, d))
  {
  }

  lemma StatementKinds(inp: Input)
    ensures var s := Statements(inp);
      && |s| == 12
      && s[0].Write? && s[1] == Enter("sigma") && s[2].Write? && s[3].Write? && s[4] == Persist("timeline")
      && s[5].Write? && s[6] == Persist("analytics") && s[7].Write? && s[8] == Persist("analytics")
      && s[9].Write? && s[10].Write? && s[11] == Persist("analytics")
  {
    hide SigmaReport;
  }

  /** What a complete run wrote covers everything it may have started from. */
  lemma OwnReportsCover(inp: Input, start: Reports)
    requires inp.Valid() && forall key :: key in start ==> IsStage(key)
    ensures start + OwnReports(inp) == OwnReports(inp)
    ensures forall key :: IsStage(key) <==> key in OwnReports(inp)
  {
    WrittenKeys(inp, |Statements(inp)|);
  }

  lemma StartKeys(history: seq<Input>, force: bool)
    requires forall i :: 0 <= i < |history| ==> history[i].Valid()
    ensures forall key :: key in StartReports(AfterRuns(history), force) ==> IsStage(key)
    ensures FAILURE !in StartReports(AfterRuns(history), force)
  {
    HistoryRowOk(history);
  }

  lemma OneMoreRun(history: seq<Input>, inp: Input)
    ensures AfterRuns(history + [inp]) == AfterRun(AfterRuns(history), inp)
  {
    assert (history + [inp])[..|history|] == history;
  }

  /**
   After any history, a run that reaches its verdict judges and stores its own sixteen reports and
   nothing older: status and stages depend on this run's input only.
   */
  lemma VerdictIsOfThisRun(history: seq<Input>, inp: Input)
    requires (forall i :: 0 <= i < |history| ==> history[i].Valid()) && inp.Valid()
    requires inp.ending.Finishes? && !LeftAlone(AfterRuns(history), inp.force)
    ensures AfterRuns(history + [inp]).Some?
    ensures AfterRuns(history + [inp]).value.status == VerdictOf(OwnReports(inp))
    ensures AfterRuns(history + [inp]).value.stages - {FAILURE} == OwnReports(inp)
    ensures forall key :: IsStage(key) <==> key in OwnReports(inp)
  {
    hide Statements, Perform, Written, IsStage, VerdictOf;
    var start := StartReports(AfterRuns(history), inp.force);
    OneMoreRun(history, inp);
    StartKeys(history, inp.force);
    OwnReportsCover(inp, start);
    OwnKeysOf(inp);
    PerformFacts(inp, Statements(inp), start);
  }

  /**
   The verdict in statuses: a finishing run, unless a finished job is left alone, fails the job if one of its
   stages failed, is partial if none failed and one was not configured or partial, and is done otherwise.
   */
  lemma {:induction false} VerdictInStatuses(history: seq<Input>, inp: Input)
    requires (forall i :: 0 <= i < |history| ==> history[i].Valid()) && inp.Valid() && inp.ending.Finishes?
    requires inp.force || AfterRuns(history).None? || AfterRuns(history).value.status !in {Done, PartiallyDone}
    ensures AfterRuns(history + [inp]).Some?
    ensures var row, own := AfterRuns(history + [inp]).value, OwnReports(inp);
      && (row.status == JobFailed <==> exists key :: key in own && own[key].status == Failed)
      && (row.status == PartiallyDone <==>
            && (forall key :: key in own ==> own[key].status != Failed)
            && exists key :: key in own && own[key].status in {NotConfigured, Partial})
      && (row.status == Done <==> forall key :: key in own ==> own[key].status in {Success, Skipped})
      && row.completed && (row.error.Some? <==> row.status == JobFailed)
      && (row.status == JobFailed ==> row.error == Some("Failed stages") && "failure" in row.stages && row.stages["failure"].status == Failed)
      && (row.status != JobFailed ==> row.phase == "analytics")
  {
    hide Statements, Written, IsStage, Executed, StartReports;
    VerdictIsOfThisRun(history, inp);
    OneMoreRun(history, inp);
  }

  /** What the next run starts from: nothing if it is forced or the first, else the stored stages without the failure. */
  lemma StartReportsMean(row: Option<Row>, force: bool, key: string)
    ensures key in StartReports(row, force) <==> !force && row.Some? && key in row.value.stages && key != "failure"
    ensures key in StartReports(row, force) ==> StartReports(row, force)[key] == row.value.stages[key]
  {
  }

  /** Where a worker dies is the phase that the row goes on to show. */
  lemma DeathShowsPhase(history: seq<Input>, inp: Input)
    requires inp.ending.DiesAfter? && !LeftAlone(AfterRuns(history), inp.force)
    ensures AfterRuns(history + [inp]).Some?
    ensures var n := inp.ending.n;
      AfterRuns(history + [inp]).value.phase ==
        if n < 2 then "parsing" else if n < 5 then "sigma" else if n < 7 then "timeline" else "analytics"
  {
    hide Statements, StartReports, Executed;
    StatementKinds(inp);
    var s, start := Statements(inp), StartReports(AfterRuns(history), inp.force);
    OneMoreRun(history, inp);
    var n := Stop(inp.ending, |s|);
    PhaseAfter(s, n, start, FirstRow(start));
  }

  lemma PhaseAfter(s: seq<Statement>, n: nat, reports: Reports, row: Row)
    requires |s| == 12 && n <= 12
    requires s[0].Write? && s[1] == Enter("sigma") && s[2].Write? && s[3].Write? && s[4] == Persist("timeline")
    requires s[5].Write? && s[6] == Persist("analytics") && s[7].Write? && s[8] == Persist("analytics")
    requires s[9].Write? && s[10].Write? && s[11] == Persist("analytics")
    ensures Executed(s, n, reports, row).1.phase ==
            if n < 2 then row.phase else if n < 5 then "sigma" else if n < 7 then "timeline" else "analytics"
  {
    if n > 0 { PhaseAfter(s, n - 1, reports, row); }
  }

  /** Consequently two histories that do not leave the job alone end in the same row. */
  lemma StaleReportsDoNotMatter(h1: seq<Input>, h2: seq<Input>, inp: Input)
    requires (forall i :: 0 <= i < |h1| ==> h1[i].Valid()) && (forall i :: 0 <= i < |h2| ==> h2[i].Valid())
    requires inp.Valid() && inp.ending.Finishes?
    requires !LeftAlone(AfterRuns(h1), inp.force) && !LeftAlone(AfterRuns(h2), inp.force)
    ensures AfterRuns(h1 + [inp]).Some? && AfterRuns(h2 + [inp]).Some?
    ensures AfterRuns(h1 + [inp]).value.status == AfterRuns(h2 + [inp]).value.status
    ensures AfterRuns(h1 + [inp]).value.stages - {FAILURE} == AfterRuns(h2 + [inp]).value.stages - {FAILURE}
  {
    VerdictIsOfThisRun(h1, inp);
    VerdictIsOfThisRun(h2, inp);
  }

  /** A run that raises fails the job and keeps, stage by stage, the newest report there is. */
  lemma RaisingRunKeepsNewest(history: seq<Input>, inp: Input)
    requires (forall i :: 0 <= i < |history| ==> history[i].Valid()) && inp.Valid()
    requires inp.ending.RaisesAfter? && !LeftAlone(AfterRuns(history), inp.force)
    ensures AfterRuns(history + [inp]).Some?
    ensures var row := AfterRuns(history + [inp]).value;
      && row.status.JobFailed? && row.completed && row.error == Some(inp.reason)
      && row.stages - {FAILURE} ==
           StartReports(AfterRuns(history), inp.force) + Written(Statements(inp), Stop(inp.ending, |Statements(inp)|))
  {
    hide Statements, Perform, Written, IsStage, VerdictOf;
    OneMoreRun(history, inp);
    StartKeys(history, inp.force);
    OwnKeysOf(inp);
    PerformFacts(inp, Statements(inp), StartReports(AfterRuns(history), inp.force));
  }

  /**
   What a run that is not left alone leaves: nothing new if it never starts, RUNNING if the worker dies
   after the start, and a terminal status otherwise.
   */
  lemma RunEndsTerminal(history: seq<Input>, inp: Input)
    requires (forall i :: 0 <= i < |history| ==> history[i].Valid()) && inp.Valid()
    requires !LeftAlone(AfterRuns(history), inp.force)
    ensures var before, after := AfterRuns(history), AfterRuns(history + [inp]);
      if inp.ending.NeverStarts? then after == before
      else after.Some? && (after.value.status.Running? <==> inp.ending.DiesAfter?)
  {
    hide Statements, Perform, Written, IsStage, VerdictOf;
    OneMoreRun(history, inp);
    if !inp.ending.NeverStarts? {
      StartKeys(history, inp.force);
      OwnKeysOf(inp);
      PerformFacts(inp, Statements(inp), StartReports(AfterRuns(history), inp.force));
    }
  }

  lemma {:induction false} NothingPersisted(statements: seq<Statement>, n: nat, reports: Reports, row: Row)
    requires n <= |statements| && forall i :: 0 <= i < n ==> !statements[i].Persist?
    ensures Executed(statements, n, reports, row).1.stages == row.stages
  {
    if n > 0 { NothingPersisted(statements, n - 1, reports, row); }
  }

  /** A worker that dies before the timeline phase leaves the reports the run has started from, without its own. */
  lemma EarlyDeathStoresNothing(history: seq<Input>, inp: Input)
    requires inp.ending.DiesAfter? && inp.ending.n <= 4 && !LeftAlone(AfterRuns(history), inp.force)
    ensures AfterRuns(history + [inp]).Some?
    ensures AfterRuns(history + [inp]).value.stages == StartReports(AfterRuns(history), inp.force)
  {
    hide Statements, Executed, StartReports;
    var statements, start := Statements(inp), StartReports(AfterRuns(history), inp.force);
    OneMoreRun(history, inp);
    FirstPersist(inp);
    NothingPersisted(statements, inp.ending.n, start, FirstRow(start));
  }

  lemma FirstPersist(inp: Input)
    ensures |Statements(inp)| > 4 && forall i :: 0 <= i < 4 ==> !Statements(inp)[i].Persist?
  {
  }

  /** A corollary of `LeftAlone`: repeating finished work without force changes nothing, however often. */
  lemma {:induction false} FinishedJobIsLeftAlone(history: seq<Input>, more: seq<Input>)
    requires AfterRuns(history).Some?
    requires AfterRuns(history).value.status.Done? || AfterRuns(history).value.status.PartiallyDone?
    requires forall i :: 0 <= i < |more| ==> !more[i].force
    ensures AfterRuns(history + more) == AfterRuns(history)
  {
    if more == [] {
      assert history + more == history;
    } else {
      var n := |more| - 1;
      FinishedJobIsLeftAlone(history, more[..n]);
      assert (history + more)[..|history + more| - 1] == history + more[..n];
    }
  }
}
