/**
  From test cases to the report a worker sends: the runner's per-test loop, the two
  `parseResults` folds and `buildReportRequest`.

  The comparison of decoded outputs and the stderr pattern search are parameters.
 */
module Verdicts {
  import opened Prelude
  import opened JobTable

  const ESCAPE_DETAIL := "sandbox escape attempt detected: "

  /** One element of the runner's decoded JSON output. */
  datatype RunnerResult = RunnerResult(
    id: string, verdict: Verdict, timeMs: int, actual: string, stdout: string, stderr: string)

  type Compare = (string, string) -> bool

  // ---------------------------------------------------------------------------
  // The runners
  // ---------------------------------------------------------------------------

  /** What loading the user's module can do: `LoadLeft` ends the runner, as sys.exit does. */
  datatype Load = Loaded | LoadFailed(trace: string) | LoadLeft

  /** What running the solution on one test can do under the Python runner. */
  datatype Outcome =
    | Returned(actual: string, timeMs: int, stdout: string)
    | TimedOut(stdout: string)
    | Raised(trace: string, timeMs: int, stdout: string)
    | Left

  /** One result per test, in order, and Accepted only for a matching answer. */
  ghost predicate Faithful(tests: seq<TestCase>, raw: seq<RunnerResult>, same: Compare) {
    && |raw| == |tests|
    && (forall k :: 0 <= k < |raw| ==> raw[k].id == tests[k].id)
    && (forall k :: 0 <= k < |raw| && raw[k].verdict == Accepted ==> same(raw[k].actual, tests[k].expected))
  }

  /** Both runners: nothing could be run, so every test gets the same compilation error. */
  method FailAll(tests: seq<TestCase>, error: string) returns (results: seq<RunnerResult>)
    ensures |results| == |tests|
    ensures forall k :: 0 <= k < |tests| ==>
              results[k] == RunnerResult(tests[k].id, CompilationError, 0, "", "", error)
  {
    results := [];
    for n := 0 to |tests|
      invariant |results| == n
      invariant forall k :: 0 <= k < n ==> results[k] == RunnerResult(tests[k].id, CompilationError, 0, "", "", error)
    {
      results := results + [RunnerResult(tests[n].id, CompilationError, 0, "", "", error)];
    }
  }

  /** What the Python runner says about a test, for each thing that running it can do. */
  ghost predicate TellsOutcome(r: RunnerResult, test: TestCase, o: Outcome, timeLimitMs: int, same: Compare) {
    && !o.Left? && r.id == test.id
    && (r.verdict == Accepted <==> o.Returned? && same(o.actual, test.expected))
    && (r.verdict == WrongAnswer <==> o.Returned? && !same(o.actual, test.expected))
    && (r.verdict == TimeLimitExceeded <==> o.TimedOut?)
    && (r.verdict == RuntimeError <==> o.Raised?)
    && r.timeMs == (if o.TimedOut? then timeLimitMs else o.timeMs)
    && r.actual == (if o.Returned? then o.actual else "")
    && r.stdout == o.stdout && r.stderr == (if o.Raised? then o.trace else "")
  }

  /**
    python.py: a module that fails to load gets one CompilationError per test. A solution that
    leaves through sys.exit is not caught, so nothing at all is printed.
   */
  method RunPython(tests: seq<TestCase>, load: Load, outcomes: seq<Outcome>, timeLimitMs: int, same: Compare)
    returns (printed: Option<seq<RunnerResult>>)
    requires |outcomes| == |tests|
    ensures printed.None? <==>
              load.LoadLeft? || (load.Loaded? && exists k :: 0 <= k < |tests| && outcomes[k].Left?)
    ensures printed.Some? ==> Faithful(tests, printed.value, same)
    ensures printed.Some? && load.Loaded? ==>
              forall k :: 0 <= k < |tests| ==> TellsOutcome(printed.value[k], tests[k], outcomes[k], timeLimitMs, same)
    ensures printed.Some? && load.LoadFailed? ==>
              forall k :: 0 <= k < |tests| ==>
                printed.value[k] == RunnerResult(tests[k].id, CompilationError, 0, "", "", load.trace)
  {
    var results: seq<RunnerResult> := [];
    if load.LoadLeft? {
      return None;
    }
    if load.LoadFailed? {
      results := FailAll(tests, load.trace);
      return Some(results);
    }
    for n := 0 to |tests|
      invariant |results| == n
      invariant forall k :: 0 <= k < n ==> TellsOutcome(results[k], tests[k], outcomes[k], timeLimitMs, same)
    {
      var id := tests[n].id;
      match outcomes[n] {
        case Returned(actual, timeMs, stdout) =>
          var verdict := if same(actual, tests[n].expected) then Accepted else WrongAnswer;
          results := results + [RunnerResult(id, verdict, timeMs, actual, stdout, "")];
        case TimedOut(stdout) =>
          results := results + [RunnerResult(id, TimeLimitExceeded, timeLimitMs, "", stdout, "")];
        case Raised(trace, timeMs, stdout) =>
          results := results + [RunnerResult(id, RuntimeError, timeMs, "", stdout, trace)];
        case Left =>
          return None;
      }
    }
    return Some(results);
  }

  /**
    What running the compiled binary on one test can do under the Go runner. `wrote` is what
    this run left in the result file, stripped, or None if it did not touch the file; a run
    that the runner fails to read back from (`Broken`) may have written it too.
   */
  datatype Exit =
    | Exited(code: int, wrote: Option<string>, timeMs: int, stdout: string, stderr: string)
    | Expired(wrote: Option<string>)
    | Broken(wrote: Option<string>, reason: string)

  /** The result file after some runs: nothing removes it in between. */
  function ResultFile(exits: seq<Exit>): Option<string> {
    if exits == [] then None
    else if exits[|exits| - 1].wrote.Some? then exits[|exits| - 1].wrote
    else ResultFile(exits[..|exits| - 1])
  }

  /** What the runner reads after run `k`; a missing file reads as the empty string. */
  function ReadBack(exits: seq<Exit>, k: nat): string
    requires k < |exits|
  {
    ResultFile(exits[..k + 1]).GetOr("")
  }

  /** How one run is judged, given what is read back after it. */
  function Judge(test: TestCase, e: Exit, actual: string, timeLimitMs: int, same: Compare): RunnerResult {
    match e
    case Exited(code, _, timeMs, stdout, stderr) =>
      if code != 0 then RunnerResult(test.id, RuntimeError, timeMs, "", stdout, stderr)
      else
        var verdict := if same(actual, test.expected) then Accepted else WrongAnswer;
        RunnerResult(test.id, verdict, timeMs, actual, stdout, "")
    case Expired(_) => RunnerResult(test.id, TimeLimitExceeded, timeLimitMs, "", "", "")
    case Broken(_, reason) => RunnerResult(test.id, RuntimeError, 0, "", reason, reason)
  }

  /** What the Go runner says about a test, for each way a run can end. */
  ghost predicate TellsExit(r: RunnerResult, test: TestCase, e: Exit, file: string, timeLimitMs: int, same: Compare) {
    && r.id == test.id
    && (r.verdict == Accepted <==> e.Exited? && e.code == 0 && same(file, test.expected))
    && (r.verdict == WrongAnswer <==> e.Exited? && e.code == 0 && !same(file, test.expected))
    && (r.verdict == TimeLimitExceeded <==> e.Expired?)
    && (r.verdict == RuntimeError <==> e.Broken? || (e.Exited? && e.code != 0))
    && r.actual == (if e.Exited? && e.code == 0 then file else "")
    && r.timeMs == (if e.Exited? then e.timeMs else if e.Expired? then timeLimitMs else 0)
    && r.stdout == (if e.Exited? then e.stdout else if e.Broken? then e.reason else "")
    && r.stderr == (if e.Exited? && e.code != 0 then e.stderr else if e.Broken? then e.reason else "")
  }

  lemma JudgeTells(test: TestCase, e: Exit, file: string, timeLimitMs: int, same: Compare)
    ensures TellsExit(Judge(test, e, file, timeLimitMs, same), test, e, file, timeLimitMs, same)
  {
  }

  method JudgeRun(test: TestCase, e: Exit, file: Option<string>, timeLimitMs: int, same: Compare)
    returns (r: RunnerResult)
    ensures r == Judge(test, e, file.GetOr(""), timeLimitMs, same)
  {
    match e {
      case Exited(code, _, timeMs, stdout, stderr) =>
        if code != 0 {
          return RunnerResult(test.id, RuntimeError, timeMs, "", stdout, stderr);
        }
        var actual := file.GetOr("");
        var verdict := if same(actual, test.expected) then Accepted else WrongAnswer;
        return RunnerResult(test.id, verdict, timeMs, actual, stdout, "");
      case Expired(_) =>
        return RunnerResult(test.id, TimeLimitExceeded, timeLimitMs, "", "", "");
      case Broken(_, reason) =>
        return RunnerResult(test.id, RuntimeError, 0, "", reason, reason);
    }
  }

  /** go.py: the binary is built once; the answer is read back from the result file. */
  method RunGo(tests: seq<TestCase>, buildError: Option<string>, exits: seq<Exit>,
               timeLimitMs: int, same: Compare)
    returns (results: seq<RunnerResult>)
    requires |exits| == |tests|
    ensures Faithful(tests, results, same)
    ensures buildError.None? ==>
              forall k :: 0 <= k < |tests| ==>
                && results[k] == Judge(tests[k], exits[k], ReadBack(exits, k), timeLimitMs, same)
                && TellsExit(results[k], tests[k], exits[k], ReadBack(exits, k), timeLimitMs, same)
    ensures buildError.Some? ==>
              forall k :: 0 <= k < |tests| ==>
                results[k] == RunnerResult(tests[k].id, CompilationError, 0, "", "", buildError.value)
  {
    results := [];
    if buildError.Some? {
      results := FailAll(tests, buildError.value);
      return;
    }
    var file: Option<string> := None;
    for n := 0 to |tests|
      invariant |results| == n && file == ResultFile(exits[..n])
      invariant forall k :: 0 <= k < n ==>
                  results[k] == Judge(tests[k], exits[k], ReadBack(exits, k), timeLimitMs, same)
    {
      assert exits[..n + 1][..n] == exits[..n];
      if exits[n].wrote.Some? {
        file := exits[n].wrote;
      }
      var r := JudgeRun(tests[n], exits[n], file, timeLimitMs, same);
      results := results + [r];
    }
    forall k | 0 <= k < |tests|
      ensures TellsExit(results[k], tests[k], exits[k], ReadBack(exits, k), timeLimitMs, same)
    {
      JudgeTells(tests[k], exits[k], ReadBack(exits, k), timeLimitMs, same);
    }
  }

  /** The result file holds what the latest run up to `k` that wrote it left, if there is one. */
  lemma {:induction false} ReadBackIsLatest(exits: seq<Exit>, k: nat)
    requires k < |exits|
    ensures (exists m :: IsLatestWriter(exits, k, m) && exits[m].wrote == Some(ReadBack(exits, k)))
         || (ReadBack(exits, k) == "" && forall m :: 0 <= m <= k ==> exits[m].wrote.None?)
    decreases k
  {
    assert exits[..k + 1][..k] == exits[..k];
    if exits[k].wrote.Some? {
      assert IsLatestWriter(exits, k, k);
    } else if k == 0 {
      assert exits[..0] == [] && ResultFile(exits[..0]) == None;
    } else {
      assert ReadBack(exits, k) == ReadBack(exits, k - 1);
      ReadBackIsLatest(exits, k - 1);
      if exists m :: IsLatestWriter(exits, k - 1, m) && exits[m].wrote == Some(ReadBack(exits, k - 1)) {
        var m :| IsLatestWriter(exits, k - 1, m) && exits[m].wrote == Some(ReadBack(exits, k - 1));
        assert IsLatestWriter(exits, k, m);
      }
    }
  }

  predicate IsLatestWriter(exits: seq<Exit>, k: nat, m: int)
    requires k < |exits|
  {
    0 <= m <= k && exits[m].wrote.Some? && forall i :: m < i <= k ==> exits[i].wrote.None?
  }

  lemma ReadBackLast(before: seq<Exit>, own: Exit)
    ensures ReadBack(before + [own], |before|)
            == if own.wrote.Some? then own.wrote.value else ResultFile(before).GetOr("")
  {
    assert (before + [own])[..|before| + 1] == before + [own];
    assert (before + [own])[..|before|] == before;
  }

  /** The verdict of a run that comes after others. */
  function VerdictAfter(before: seq<Exit>, own: Exit, test: TestCase, timeLimitMs: int, same: Compare): Verdict {
    Judge(test, own, ReadBack(before + [own], |before|), timeLimitMs, same).verdict
  }

  /** Whatever ran before, the verdict is the same. */
  ghost predicate OwnVerdict(own: Exit, test: TestCase, timeLimitMs: int, same: Compare) {
    forall before ::
      VerdictAfter(before, own, test, timeLimitMs, same) == VerdictAfter([], own, test, timeLimitMs, same)
  }

  /** No two answers to the test are judged differently. */
  ghost predicate AnyAnswerDoes(test: TestCase, same: Compare) {
    forall answer :: same(answer, test.expected) == same("", test.expected)
  }

  lemma LeftBehind(answer: string)
    ensures ResultFile([Expired(Some(answer))]) == Some(answer)
  {
  }

  /**
    A run's verdict is its own, whatever ran before it, exactly if the run did not end well, or
    wrote an answer, or every answer to the test is judged alike.
   */
  lemma OwnVerdictIff(own: Exit, test: TestCase, timeLimitMs: int, same: Compare)
    ensures OwnVerdict(own, test, timeLimitMs, same) <==>
              !(own.Exited? && own.code == 0) || own.wrote.Some? || AnyAnswerDoes(test, same)
  {
    ReadBackLast([], own);
    if !(own.Exited? && own.code == 0) || own.wrote.Some? || AnyAnswerDoes(test, same) {
      forall before
        ensures VerdictAfter(before, own, test, timeLimitMs, same) == VerdictAfter([], own, test, timeLimitMs, same)
      {
        ReadBackLast(before, own);
      }
    } else {
      var answer :| same(answer, test.expected) != same("", test.expected);
      LeftBehind(answer);
      ReadBackLast([Expired(Some(answer))], own);
      assert VerdictAfter([Expired(Some(answer))], own, test, timeLimitMs, same)
          != VerdictAfter([], own, test, timeLimitMs, same);
    }
  }

  /**
    Two tests with the same expected answer. The first run writes it; the second exits with
    code 0 and writes nothing. Both results that the runner gives are Accepted.
   */
  lemma StaleAnswerIsAccepted(
    tests: seq<TestCase>, answer: string, timeMs: int, timeLimitMs: int, same: Compare)
    requires |tests| == 2 && tests[0].expected == tests[1].expected && same(answer, tests[0].expected)
    ensures var exits := [Exited(0, Some(answer), timeMs, "", "")] + [Exited(0, None, timeMs, "", "")];
            && Judge(tests[0], exits[0], ReadBack(exits, 0), timeLimitMs, same).verdict == Accepted
            && Judge(tests[1], exits[1], ReadBack(exits, 1), timeLimitMs, same).verdict == Accepted
  {
    var writes, silent := Exited(0, Some(answer), timeMs, "", ""), Exited(0, None, timeMs, "", "");
    ReadBackLast([], writes);
    assert [] + [writes] == [writes] && ([writes] + [silent])[..1] == [writes];
    ReadBackLast([writes], silent);
    assert ResultFile([writes]) == Some(answer);
  }

  // ---------------------------------------------------------------------------
  // parseResults
  // ---------------------------------------------------------------------------

  function Row(r: RunnerResult): TestcaseResult {
    TestcaseResult(r.id, r.verdict, Some(r.timeMs), Some(r.actual), Some(r.stdout))
  }

  ghost predicate FirstFailure(raw: seq<RunnerResult>, k: int) {
    && 0 <= k < |raw| && raw[k].verdict != Accepted
    && forall i :: 0 <= i < k ==> raw[i].verdict == Accepted
  }

  ghost predicate AllAccepted(raw: seq<RunnerResult>) {
    forall k :: 0 <= k < |raw| ==> raw[k].verdict == Accepted
  }

  /** `v` is the verdict of the first result that was not accepted, or Accepted if none. */
  ghost predicate IsOverall(raw: seq<RunnerResult>, v: Verdict) {
    if v == Accepted then AllAccepted(raw)
    else exists k :: FirstFailure(raw, k) && raw[k].verdict == v
  }

  function NoteOf(r: RunnerResult): Option<string> {
    if r.verdict == CompilationError && r.stderr != "" then Some(r.stderr) else None
  }

  /** Only a compilation error with some text is noted, with that text. */
  predicate NoteTells(note: Option<string>, r: RunnerResult) {
    && (note.Some? <==> r.verdict == CompilationError && r.stderr != "")
    && (note.Some? ==> note.value == r.stderr)
  }

  /** The compiler output is that of the first failure, if that is a compilation error. */
  ghost predicate IsNote(raw: seq<RunnerResult>, note: Option<string>) {
    && (AllAccepted(raw) ==> note == None)
    && forall k :: FirstFailure(raw, k) ==> NoteTells(note, raw[k])
  }

  /** A row has the id, verdict, time, answer and output of a result. */
  predicate RowTells(row: TestcaseResult, r: RunnerResult) {
    && row.testcaseId == r.id && row.verdict == r.verdict && row.timeMs == Some(r.timeMs)
    && row.actualOutput == Some(r.actual) && row.stdoutRef == Some(r.stdout)
  }

  /** Every result becomes one row, in order. */
  ghost predicate IsRows(raw: seq<RunnerResult>, rows: seq<TestcaseResult>) {
    |rows| == |raw| && forall k :: 0 <= k < |raw| ==> RowTells(rows[k], raw[k])
  }

  function TotalTime(raw: seq<RunnerResult>): int {
    if raw == [] then 0 else TotalTime(raw[..|raw| - 1]) + raw[|raw| - 1].timeMs
  }

  /** The stderr of some result matches a sandbox escape pattern. */
  ghost predicate Escaped(raw: seq<RunnerResult>, detect: string -> string) {
    exists k :: 0 <= k < |raw| && raw[k].stderr != "" && detect(raw[k].stderr) != ""
  }

  /** The first pattern found in a non-empty stderr, or nothing. */
  function FirstMatch(raw: seq<RunnerResult>, detect: string -> string): string {
    if raw == [] then ""
    else
      var found := FirstMatch(raw[..|raw| - 1], detect);
      var last := raw[|raw| - 1];
      if found != "" then found else if last.stderr == "" then "" else detect(last.stderr)
  }

  lemma {:induction false} FirstMatchMeansEscape(raw: seq<RunnerResult>, detect: string -> string)
    ensures FirstMatch(raw, detect) != "" <==> Escaped(raw, detect)
    decreases |raw|
  {
    if raw != [] {
      var init, last := raw[..|raw| - 1], raw[|raw| - 1];
      FirstMatchMeansEscape(init, detect);
      assert raw == init + [last];
      EscapedStep(init, last, detect);
    }
  }

  /** The running verdict of the loops below, then their compiler output and rows. */
  function Folded(raw: seq<RunnerResult>): Verdict {
    if raw == [] then Accepted
    else
      var before := Folded(raw[..|raw| - 1]);
      if before == Accepted then raw[|raw| - 1].verdict else before
  }

  function FoldedNote(raw: seq<RunnerResult>): Option<string> {
    if raw == [] then None
    else if Folded(raw[..|raw| - 1]) == Accepted then NoteOf(raw[|raw| - 1])
    else FoldedNote(raw[..|raw| - 1])
  }

  function FoldedRows(raw: seq<RunnerResult>): seq<TestcaseResult> {
    if raw == [] then [] else FoldedRows(raw[..|raw| - 1]) + [Row(raw[|raw| - 1])]
  }

  /** While everything is accepted there is no compiler output. */
  lemma {:induction false} NoNoteYet(raw: seq<RunnerResult>)
    requires Folded(raw) == Accepted
    ensures FoldedNote(raw) == None
    decreases |raw|
  {
    if raw != [] {
      NoNoteYet(raw[..|raw| - 1]);
    }
  }

  lemma {:induction false} FoldIsOverall(raw: seq<RunnerResult>)
    ensures IsOverall(raw, Folded(raw)) && IsNote(raw, FoldedNote(raw))
    decreases |raw|
  {
    if raw != [] {
      var init := raw[..|raw| - 1];
      FoldIsOverall(init);
      FoldStep(init, raw[|raw| - 1], Folded(init), FoldedNote(init));
      assert init + [raw[|raw| - 1]] == raw;
    }
  }

  lemma {:induction false} FoldIsRows(raw: seq<RunnerResult>)
    ensures IsRows(raw, FoldedRows(raw))
    decreases |raw|
  {
    if raw != [] {
      FoldIsRows(raw[..|raw| - 1]);
    }
  }

  /** Times add up over any two parts of the output. */
  lemma {:induction false} TotalIsSum(a: seq<RunnerResult>, b: seq<RunnerResult>)
    ensures TotalTime(a + b) == TotalTime(a) + TotalTime(b)
    ensures |a| == 1 ==> TotalTime(a) == a[0].timeMs
    decreases |b|
  {
    if b == [] {
      assert a + b == a;
      assert |a| == 1 ==> a[..0] == [];
    } else {
      TotalIsSum(a, b[..|b| - 1]);
      assert (a + b)[..|a + b| - 1] == a + b[..|b| - 1];
    }
  }

  /** Result `k` is the first whose stderr matches. */
  predicate FirstEscape(raw: seq<RunnerResult>, detect: string -> string, k: int) {
    && 0 <= k < |raw| && raw[k].stderr != "" && detect(raw[k].stderr) != ""
    && forall i :: 0 <= i < k ==> raw[i].stderr == "" || detect(raw[i].stderr) == ""
  }

  /** The pattern reported is that of the first match. */
  lemma {:induction false} FirstMatchIsFirst(raw: seq<RunnerResult>, detect: string -> string, k: int)
    requires FirstEscape(raw, detect, k)
    ensures FirstMatch(raw, detect) == detect(raw[k].stderr)
    decreases |raw|
  {
    var init := raw[..|raw| - 1];
    if k < |init| {
      FirstMatchIsFirst(init, detect, k);
    } else {
      FirstMatchMeansEscape(init, detect);
    }
  }

  method ParseDocker(raw: seq<RunnerResult>, detect: string -> string) returns (report: Report)
    ensures IsRows(raw, report.testcaseResults)
    ensures Escaped(raw, detect) ==>
              && report.overallVerdict == SandboxViolation && report.totalTimeMs == None
              && forall k :: FirstEscape(raw, detect, k) ==>
                   report.compilerOutput == Some(ESCAPE_DETAIL + detect(raw[k].stderr))
    ensures !Escaped(raw, detect) ==>
              && IsOverall(raw, report.overallVerdict) && IsNote(raw, report.compilerOutput)
              && report.totalTimeMs == Some(TotalTime(raw))
  {
    var rows: seq<TestcaseResult> := [];
    var total, verdict := 0, Accepted;
    var compilerOutput: Option<string> := None;
    var escapeMatch := "";
    for n := 0 to |raw|
      invariant rows == FoldedRows(raw[..n]) && total == TotalTime(raw[..n])
      invariant verdict == Folded(raw[..n]) && compilerOutput == FoldedNote(raw[..n])
      invariant escapeMatch == FirstMatch(raw[..n], detect)
    {
      var r := raw[n];
      assert raw[..n + 1][..n] == raw[..n];
      if verdict == Accepted {
        NoNoteYet(raw[..n]);
      }
      if r.verdict != Accepted {
        if verdict == Accepted {
          verdict := r.verdict;
          if r.verdict == CompilationError && r.stderr != "" {
            compilerOutput := Some(r.stderr);
          }
        }
      }
      if escapeMatch == "" && r.stderr != "" {
        escapeMatch := detect(r.stderr);
      }
      total := total + r.timeMs;
      rows := rows + [Row(r)];
    }
    assert raw[..|raw|] == raw;
    FirstMatchMeansEscape(raw, detect);
    FoldIsOverall(raw);
    FoldIsRows(raw);
    if escapeMatch != "" {
      forall k | FirstEscape(raw, detect, k)
        ensures FirstMatch(raw, detect) == detect(raw[k].stderr)
      {
        FirstMatchIsFirst(raw, detect, k);
      }
      return Report(SandboxViolation, None, Some(ESCAPE_DETAIL + escapeMatch), rows);
    }
    return Report(verdict, Some(total), compilerOutput, rows);
  }

  method ParseFirecracker(raw: seq<RunnerResult>) returns (report: Report)
    ensures IsRows(raw, report.testcaseResults)
    ensures IsOverall(raw, report.overallVerdict) && IsNote(raw, report.compilerOutput)
    ensures report.totalTimeMs == Some(TotalTime(raw))
  {
    var rows: seq<TestcaseResult> := [];
    var total, verdict := 0, Accepted;
    var compilerOutput: Option<string> := None;
    for n := 0 to |raw|
      invariant rows == FoldedRows(raw[..n]) && total == TotalTime(raw[..n])
      invariant verdict == Folded(raw[..n]) && compilerOutput == FoldedNote(raw[..n])
    {
      var r := raw[n];
      assert raw[..n + 1][..n] == raw[..n];
      if verdict == Accepted {
        NoNoteYet(raw[..n]);
      }
      if r.verdict != Accepted && verdict == Accepted {
        verdict := r.verdict;
        if r.verdict == CompilationError && r.stderr != "" {
          compilerOutput := Some(r.stderr);
        }
      }
      total := total + r.timeMs;
      rows := rows + [Row(r)];
    }
    assert raw[..|raw|] == raw;
    FoldIsOverall(raw);
    FoldIsRows(raw);
    return Report(verdict, Some(total), compilerOutput, rows);
  }

  /** One more result: only the first failure sets the verdict and the compiler output. */
  lemma FoldStep(raw: seq<RunnerResult>, r: RunnerResult, v: Verdict, note: Option<string>)
    requires IsOverall(raw, v) && IsNote(raw, note)
    ensures IsOverall(raw + [r], if v == Accepted then r.verdict else v)
    ensures IsNote(raw + [r], if v == Accepted then NoteOf(r) else note)
  {
    var all := raw + [r];
    if v == Accepted {
      assert all[|raw|] == r;
      if r.verdict != Accepted {
        assert FirstFailure(all, |raw|);
      }
    } else {
      var k :| FirstFailure(raw, k) && raw[k].verdict == v;
      assert FirstFailure(all, k) && all[k] == raw[k];
    }
  }

  lemma EscapedStep(raw: seq<RunnerResult>, r: RunnerResult, detect: string -> string)
    ensures Escaped(raw + [r], detect)
       <==> Escaped(raw, detect) || (r.stderr != "" && detect(r.stderr) != "")
  {
    var all := raw + [r];
    assert all[|raw|] == r;
    if Escaped(raw, detect) {
      var k :| 0 <= k < |raw| && raw[k].stderr != "" && detect(raw[k].stderr) != "";
      assert all[k] == raw[k];
    }
  }

  // ---------------------------------------------------------------------------
  // buildReportRequest
  // ---------------------------------------------------------------------------

  /** An executor error or a missing result is reported as InternalError without rows. */
  function BuildReport(result: Option<Report>, failed: bool): Report {
    if failed || result.None? then Report(InternalError, None, None, []) else result.value
  }

  /** A report that some executor other than the stub can give for these tests. */
  ghost predicate FromRunner(tests: seq<TestCase>, report: Report, same: Compare) {
    || (report.overallVerdict == InternalError && report.testcaseResults == [])
    || exists raw :: Faithful(tests, raw, same) && Reports(raw, report)
  }

  /** The report has one row per result, and the verdict of the first failure or of an escape. */
  ghost predicate Reports(raw: seq<RunnerResult>, report: Report) {
    && IsRows(raw, report.testcaseResults)
    && (IsOverall(raw, report.overallVerdict) || report.overallVerdict == SandboxViolation)
  }

  /** Test `k` has a row of its own, judged Accepted on an answer that compares equal. */
  ghost predicate Passed(tests: seq<TestCase>, rows: seq<TestcaseResult>, k: nat, same: Compare)
    requires k < |tests| == |rows|
  {
    && rows[k].testcaseId == tests[k].id && rows[k].verdict == Accepted
    && rows[k].actualOutput.Some? && same(rows[k].actualOutput.value, tests[k].expected)
  }

  /** An accepted report has exactly one accepted row per test, in order. */
  lemma AcceptedReport(tests: seq<TestCase>, report: Report, same: Compare)
    requires FromRunner(tests, report, same) && report.overallVerdict == Accepted
    ensures |report.testcaseResults| == |tests|
    ensures forall k :: 0 <= k < |tests| ==> Passed(tests, report.testcaseResults, k, same)
  {
  }

  /** Why the list of tests must not be empty: nothing run is everything accepted. */
  lemma NothingRunIsAccepted(report: Report)
    requires IsOverall([], report.overallVerdict)
    ensures report.overallVerdict == Accepted
  {
  }

  /** The worker's path from assignment to report, for one executor call. */
  method ExecuteAndReport(tests: seq<TestCase>, raw: Option<seq<RunnerResult>>, useDocker: bool,
                          failed: bool, detect: string -> string, ghost same: Compare)
    returns (report: Report)
    requires raw.Some? ==> Faithful(tests, raw.value, same)
    ensures FromRunner(tests, report, same)
    ensures failed ==> report == Report(InternalError, None, None, [])
    ensures !failed && raw.None? ==> report.overallVerdict == InternalError && report.testcaseResults == []
    ensures !failed && raw.Some? ==>
              && IsRows(raw.value, report.testcaseResults)
              && (useDocker && Escaped(raw.value, detect) ==> report.overallVerdict == SandboxViolation)
              && (!useDocker || !Escaped(raw.value, detect) ==>
                    && IsOverall(raw.value, report.overallVerdict) && IsNote(raw.value, report.compilerOutput)
                    && report.totalTimeMs == Some(TotalTime(raw.value)))
  {
    var result: Option<Report> := None;
    if raw.None? {
      result := Some(Report(InternalError, None, Some("runner output parse error"), []));
    } else if useDocker {
      var parsed := ParseDocker(raw.value, detect);
      result := Some(parsed);
    } else {
      var parsed := ParseFirecracker(raw.value);
      result := Some(parsed);
    }
    report := BuildReport(result, failed);
    if !failed && raw.Some? {
      assert Reports(raw.value, report);
    }
  }
}
