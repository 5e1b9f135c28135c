/**
 The per-lockfile loop of the command line tool. For every lockfile path it
 pushes the specs selected from the configuration onto one `validators`
 list, hands that list to the validation engine, and stops with exit code 1
 at the first lockfile that reports failures or whose run throws.

 The `validators` list is created once, before the loop, and never cleared:
 the k-th lockfile is checked against k copies of the selection. The model
 keeps that behaviour as written.
 */
module Cli {
  import opened JsValues
  import opened Registry
  import opened Report

  /** The counts the validation engine reports for one lockfile. */
  datatype Counts = Counts(validatorCount: int, validatorFailures: int, validatorSuccesses: int)

  /** What a call of the validation engine did: return counts, or throw an
      error object, of which only the message is kept. */
  datatype RunOutcome = Returned(counts: Counts) | Threw(message: string)

  /** The argument of one call of the validation engine. */
  datatype RunRequest = RunRequest(path: string, lockfileType: Value, validators: seq<ValidatorSpec>)

  /** The validation engine, whose parser and validators are not part of
      this model: any function from request to outcome. */
  type Runner = RunRequest -> RunOutcome

  /** One call of the validation engine and what came back. */
  datatype Call = Call(request: RunRequest, outcome: RunOutcome)

  /** A call of one of the message helpers: which helper, and the message. */
  datatype Notice = Notice(level: Level, message: string)

  /** Everything a run of the tool does: the engine calls in order, the
      messages it prints, and the process exit code. */
  datatype Run = Run(calls: seq<Call>, notices: seq<Notice>, exitCode: int)

  const NoIssues := "No issues detected"
  const IssuesDetected := "Error: security issues detected!"
  const Aborting := "ABORTING lockfile lint process due to error exceptions"
  const CommandFailed := "Error: command failed with exit code 1"

  /** A lockfile passes when the engine returned and reported no failure. */
  predicate Passes(o: RunOutcome) {
    o.Returned? && o.counts.validatorFailures == 0
  }

  /** The messages printed after one engine call: a single success message
      exactly when the lockfile passed, and otherwise an error last. */
  function Announce(o: RunOutcome): (said: seq<Notice>)
    ensures said != []
    ensures Passes(o) <==> said == [Notice(Success, NoIssues)]
    ensures Passes(o) <==> said[|said| - 1].level != Error
  {
    match o
    case Threw(_) => [Notice(Warn, Aborting), Notice(Error, CommandFailed)]
    case Returned(counts) =>
      if counts.validatorFailures != 0 then [Notice(Error, IssuesDetected)]
      else [Notice(Success, NoIssues)]
  }

  /** What the loop reads from the configuration on every iteration: the
      selection one pass over the entries builds, and the lockfile type. */
  datatype Setup = Setup(selection: seq<ValidatorSpec>, lockfileType: Value)

  function SetupOf(c: Config): Setup {
    Setup(SelectSpecs(c), Get(c, "type"))
  }

  /** The loop over the remaining `files`, with `validators` holding what
      earlier iterations pushed. */
  function LintFrom(s: Setup, files: seq<string>, validators: seq<ValidatorSpec>, runner: Runner): (r: Run)
    ensures |r.calls| <= |files|
    ensures r.exitCode == 0 || r.exitCode == 1
    decreases |files|
  {
    if files == [] then Run([], [], 0)
    else
      var pushed := validators + s.selection;
      var request := RunRequest(files[0], s.lockfileType, pushed);
      var outcome := runner(request);
      var call := Call(request, outcome);
      if !Passes(outcome) then Run([call], Announce(outcome), 1)
      else
        var rest := LintFrom(s, files[1..], pushed, runner);
        Run([call] + rest.calls, Announce(outcome) + rest.notices, rest.exitCode)
  }

  /** The tool on a loaded configuration and the paths the glob expanded to. */
  function Lint(c: Config, files: seq<string>, runner: Runner): Run {
    LintFrom(SetupOf(c), files, [], runner)
  }

  datatype Option<+T> = None | Some(value: T)

  /** The whole tool: a configuration that failed to load ends the process
      with exit code 1 before any lockfile is looked at. */
  function Program(loaded: Option<Config>, files: seq<string>, runner: Runner): (r: Run)
    ensures loaded.None? ==> r.calls == [] && r.notices == [] && r.exitCode == 1
  {
    match loaded
    case None => Run([], [], 1)
    case Some(c) => Lint(c, files, runner)
  }

  /* ---------------------------------------------------------------------
     Printed output.
     --------------------------------------------------------------------- */

  /** A line of output, with the console stream it goes to. */
  datatype Line = Line(stream: Stream, text: string)

  /** `config.format === 'pretty'`. */
  predicate IsPrettyFormat(c: Config) {
    Get(c, "format") == Str("pretty")
  }

  /** The lines the message helpers print for `notices`, under the format of
      `c` and the symbol support of the terminal. */
  function Printed(c: Config, isSupported: bool, notices: seq<Notice>): (lines: seq<Line>)
    ensures |lines| == |notices|
    ensures forall k :: 0 <= k < |notices| ==>
      lines[k] == Line(StreamOf(notices[k].level),
                       Format(notices[k].level, notices[k].message, IsPrettyFormat(c), isSupported))
  {
    if notices == [] then []
    else
      var n := notices[0];
      [Line(StreamOf(n.level), Format(n.level, n.message, IsPrettyFormat(c), isSupported))]
        + Printed(c, isSupported, notices[1..])
  }

  /* ---------------------------------------------------------------------
     The loop as the tool writes it.
     --------------------------------------------------------------------- */

  /** One iteration of the loop over lockfiles: what is left of the run
      after the i-th lockfile, given what was left before it. */
  lemma LoopStep(s: Setup, files: seq<string>, i: nat, before: seq<ValidatorSpec>, calls: seq<Call>,
                 notices: seq<Notice>, runner: Runner, whole: Run)
    requires i < |files|
    requires var rest := LintFrom(s, files[i..], before, runner);
             whole == Run(calls + rest.calls, notices + rest.notices, rest.exitCode)
    ensures var request := RunRequest(files[i], s.lockfileType, before + s.selection);
            var call := Call(request, runner(request));
            var calls' := calls + [call];
            var notices' := notices + Announce(call.outcome);
            var rest := LintFrom(s, files[i + 1..], before + s.selection, runner);
            && (!Passes(call.outcome) ==> whole == Run(calls', notices', 1))
            && (Passes(call.outcome) ==> whole == Run(calls' + rest.calls, notices' + rest.notices, rest.exitCode))
  {
    assert files[i..][0] == files[i] && files[i..][1..] == files[i + 1..];
    var request := RunRequest(files[i], s.lockfileType, before + s.selection);
    var call := Call(request, runner(request));
    var said := Announce(call.outcome);
    var rest := LintFrom(s, files[i + 1..], before + s.selection, runner);
    assert calls + ([call] + rest.calls) == (calls + [call]) + rest.calls;
    assert notices + (said + rest.notices) == (notices + said) + rest.notices;
  }

  /** The loop as the tool writes it: one `validators` list declared before
      the loop over lockfiles, extended on every iteration by walking the
      configuration again, and an early exit at the first lockfile that does
      not pass. It does exactly what `Lint` describes. */
  method LintLoop(c: Config, files: seq<string>, runner: Runner) returns (r: Run)
    ensures r == Lint(c, files, runner)
  {
    ghost var s := SetupOf(c);
    ghost var whole := Lint(c, files, runner);
    assert files[0..] == files;
    var lockfileType := Get(c, "type");
    var validators: seq<ValidatorSpec> := [];
    var calls: seq<Call> := [];
    var notices: seq<Notice> := [];
    var i := 0;
    while i < |files|
      invariant 0 <= i <= |files|
      invariant var rest := LintFrom(s, files[i..], validators, runner);
                whole == Run(calls + rest.calls, notices + rest.notices, rest.exitCode)
    {
      LoopStep(s, files, i, validators, calls, notices, runner, whole);
      validators := PushSpecs(c, validators);
      var request := RunRequest(files[i], lockfileType, validators);
      var outcome := runner(request);
      calls := calls + [Call(request, outcome)];
      notices := notices + Announce(outcome);
      if !Passes(outcome) {
        return Run(calls, notices, 1);
      }
      i := i + 1;
    }
    assert files[i..] == [];
    return Run(calls, notices, 0);
  }

  /* ---------------------------------------------------------------------
     The accumulating validator list.
     --------------------------------------------------------------------- */

  /** `n` copies of `s`, one after another. */
  function Repeat<T>(s: seq<T>, n: nat): seq<T> {
    if n == 0 then [] else Repeat(s, n - 1) + s
  }

  lemma {:induction false} RepeatLength<T>(s: seq<T>, n: nat)
    ensures |Repeat(s, n)| == n * |s|
  {
    if n > 0 {
      RepeatLength(s, n - 1);
      assert (n - 1) * |s| + |s| == n * |s|;
    }
  }

  lemma {:induction false} LintFromRequests(s: Setup, files: seq<string>, m: nat, runner: Runner)
    ensures var r := LintFrom(s, files, Repeat(s.selection, m), runner);
            forall k :: 0 <= k < |r.calls| ==>
              r.calls[k].request == RunRequest(files[k], s.lockfileType, Repeat(s.selection, m + k + 1))
    decreases |files|
  {
    if files != [] {
      var sel := s.selection;
      var pushed := Repeat(sel, m + 1);
      assert Repeat(sel, m) + sel == pushed;
      var outcome := runner(RunRequest(files[0], s.lockfileType, pushed));
      if Passes(outcome) {
        LintFromRequests(s, files[1..], m + 1, runner);
        StepAfterPass(s, files, Repeat(sel, m), runner);
        var r := LintFrom(s, files, Repeat(sel, m), runner);
        var rest := LintFrom(s, files[1..], pushed, runner);
        forall k | 0 <= k < |r.calls|
          ensures r.calls[k].request == RunRequest(files[k], s.lockfileType, Repeat(sel, m + k + 1))
        {
          if k > 0 {
            assert r.calls[k] == rest.calls[k - 1];
            assert files[1..][k - 1] == files[k];
            assert (m + 1) + (k - 1) + 1 == m + k + 1;
          }
        }
      } else {
        StepAfterFail(s, files, Repeat(sel, m), runner);
      }
    }
  }

  /** After a lockfile that passes, the run is its call and its success
      message followed by the rest of the loop. */
  lemma StepAfterPass(s: Setup, files: seq<string>, validators: seq<ValidatorSpec>, runner: Runner)
    requires files != []
    requires Passes(runner(RunRequest(files[0], s.lockfileType, validators + s.selection)))
    ensures var request := RunRequest(files[0], s.lockfileType, validators + s.selection);
            var rest := LintFrom(s, files[1..], validators + s.selection, runner);
            LintFrom(s, files, validators, runner)
            == Run([Call(request, runner(request))] + rest.calls, [Notice(Success, NoIssues)] + rest.notices, rest.exitCode)
  {
  }

  /** A lockfile that does not pass ends the run with its call, its
      messages and exit code 1. */
  lemma StepAfterFail(s: Setup, files: seq<string>, validators: seq<ValidatorSpec>, runner: Runner)
    requires files != []
    requires !Passes(runner(RunRequest(files[0], s.lockfileType, validators + s.selection)))
    ensures var request := RunRequest(files[0], s.lockfileType, validators + s.selection);
            LintFrom(s, files, validators, runner) == Run([Call(request, runner(request))], Announce(runner(request)), 1)
  {
  }

  /** The k-th lockfile (counting from zero) is checked with k + 1 copies of
      the selection: the list grows by one selection per lockfile, so its
      length is (k + 1) times the selection's. Path and lockfile type are
      passed through unchanged. */
  lemma ValidatorsAccumulate(c: Config, files: seq<string>, runner: Runner)
    ensures var r := Lint(c, files, runner);
            forall k :: 0 <= k < |r.calls| ==>
              && r.calls[k].request.path == files[k]
              && r.calls[k].request.lockfileType == Get(c, "type")
              && r.calls[k].request.validators == Repeat(SelectSpecs(c), k + 1)
              && |r.calls[k].request.validators| == (k + 1) * |SelectSpecs(c)|
  {
    var s := SetupOf(c);
    assert s.selection == SelectSpecs(c) && s.lockfileType == Get(c, "type");
    assert Repeat(s.selection, 0) == [];
    LintFromRequests(s, files, 0, runner);
    var r := Lint(c, files, runner);
    forall n | 1 <= n <= |r.calls|
      ensures |Repeat(s.selection, n)| == n * |s.selection|
    {
      RepeatLength(s.selection, n);
    }
  }

  /* ---------------------------------------------------------------------
     The verdict.
     --------------------------------------------------------------------- */

  /** Every call in `calls` passed. */
  predicate AllPass(calls: seq<Call>) {
    forall k :: 0 <= k < |calls| ==> Passes(calls[k].outcome)
  }

  lemma AllPassCons(x: Call, rest: seq<Call>)
    ensures AllPass([x] + rest) <==> Passes(x.outcome) && AllPass(rest)
  {
    var s := [x] + rest;
    if AllPass(s) {
      assert s[0] == x;
      forall k | 0 <= k < |rest| ensures Passes(rest[k].outcome) {
        assert rest[k] == s[k + 1];
      }
    }
    if Passes(x.outcome) && AllPass(rest) {
      forall k | 0 <= k < |s| ensures Passes(s[k].outcome) {
        if k > 0 {
          assert s[k] == rest[k - 1];
        }
      }
    }
  }

  lemma {:induction false} LintFromVerdict(s: Setup, files: seq<string>, validators: seq<ValidatorSpec>, runner: Runner)
    ensures var r := LintFrom(s, files, validators, runner);
            r.calls != [] ==> AllPass(r.calls[..|r.calls| - 1])
    ensures var r := LintFrom(s, files, validators, runner);
            r.exitCode == 0 <==> |r.calls| == |files| && AllPass(r.calls)
    ensures var r := LintFrom(s, files, validators, runner);
            r.exitCode == 1 <==> r.calls != [] && !Passes(r.calls[|r.calls| - 1].outcome)
    decreases |files|
  {
    if files != [] {
      var pushed := validators + s.selection;
      var request := RunRequest(files[0], s.lockfileType, pushed);
      var call := Call(request, runner(request));
      var r := LintFrom(s, files, validators, runner);
      if Passes(call.outcome) {
        LintFromVerdict(s, files[1..], pushed, runner);
        StepAfterPass(s, files, validators, runner);
        var rest := LintFrom(s, files[1..], pushed, runner);
        AllPassCons(call, rest.calls);
        if rest.calls != [] {
          assert r.calls[..|r.calls| - 1] == [call] + rest.calls[..|rest.calls| - 1];
          AllPassCons(call, rest.calls[..|rest.calls| - 1]);
          assert r.calls[|r.calls| - 1] == rest.calls[|rest.calls| - 1];
        } else {
          assert r.calls[..|r.calls| - 1] == [];
        }
      } else {
        assert r.calls[..|r.calls| - 1] == [];
        assert !AllPass(r.calls) by {
          assert r.calls[0] == call;
        }
      }
    }
  }

  /** The loop stops at the first lockfile that fails or throws: every call
      but the last passed; the exit code is 0 exactly when every lockfile
      was checked and passed, and 1 exactly when the last call failed. */
  lemma LintVerdict(c: Config, files: seq<string>, runner: Runner)
    ensures var r := Lint(c, files, runner);
            forall k :: 0 <= k < |r.calls| - 1 ==> Passes(r.calls[k].outcome)
    ensures var r := Lint(c, files, runner);
            r.exitCode == 0 <==> |r.calls| == |files| && forall k :: 0 <= k < |r.calls| ==> Passes(r.calls[k].outcome)
    ensures var r := Lint(c, files, runner);
            r.exitCode == 1 <==> r.calls != [] && !Passes(r.calls[|r.calls| - 1].outcome)
  {
    LintFromVerdict(SetupOf(c), files, [], runner);
    var r := Lint(c, files, runner);
    if r.calls != [] {
      forall k | 0 <= k < |r.calls| - 1 ensures Passes(r.calls[k].outcome) {
        assert r.calls[..|r.calls| - 1][k] == r.calls[k];
      }
    }
  }

  /* ---------------------------------------------------------------------
     The messages.
     --------------------------------------------------------------------- */

  /** The messages the last engine call of a run led to. */
  function LastSaid(r: Run): seq<Notice> {
    if r.calls == [] then [] else Announce(r.calls[|r.calls| - 1].outcome)
  }

  /** `n` announcements that a lockfile passed. */
  function Cleared(n: nat): seq<Notice> {
    seq(n, _ => Notice(Success, NoIssues))
  }

  lemma ClearedCons(n: nat)
    ensures Cleared(n + 1) == [Notice(Success, NoIssues)] + Cleared(n)
  {
  }

  /** A run of the loop that exits with 0 announced one success per
      lockfile. */
  lemma {:induction false} LintFromCleanNotices(s: Setup, files: seq<string>, validators: seq<ValidatorSpec>, runner: Runner)
    ensures var r := LintFrom(s, files, validators, runner);
            r.exitCode == 0 ==> r.notices == Cleared(|files|)
    decreases |files|
  {
    if files != [] {
      var pushed := validators + s.selection;
      var outcome := runner(RunRequest(files[0], s.lockfileType, pushed));
      if Passes(outcome) {
        LintFromCleanNotices(s, files[1..], pushed, runner);
        StepAfterPass(s, files, validators, runner);
        ClearedCons(|files| - 1);
      } else {
        StepAfterFail(s, files, validators, runner);
      }
    }
  }

  /** A run of the loop that exits with 1 announced one success per
      lockfile before the last one checked, then what that last call led
      to. */
  lemma {:induction false} LintFromFailNotices(s: Setup, files: seq<string>, validators: seq<ValidatorSpec>, runner: Runner)
    ensures var r := LintFrom(s, files, validators, runner);
            r.exitCode == 1 ==> r.calls != [] && r.notices == Cleared(|r.calls| - 1) + LastSaid(r)
    decreases |files|
  {
    if files != [] {
      var pushed := validators + s.selection;
      var outcome := runner(RunRequest(files[0], s.lockfileType, pushed));
      var r := LintFrom(s, files, validators, runner);
      if Passes(outcome) {
        LintFromFailNotices(s, files[1..], pushed, runner);
        StepAfterPass(s, files, validators, runner);
        var rest := LintFrom(s, files[1..], pushed, runner);
        if rest.exitCode == 1 {
          assert r.calls[|r.calls| - 1] == rest.calls[|rest.calls| - 1];
          ClearedCons(|rest.calls| - 1);
        }
      } else {
        StepAfterFail(s, files, validators, runner);
        assert r.notices == Cleared(0) + LastSaid(r);
      }
    }
  }

  /** The last messages of a failed run, spelled out. */
  lemma LintFromLastWords(s: Setup, files: seq<string>, validators: seq<ValidatorSpec>, runner: Runner)
    ensures var r := LintFrom(s, files, validators, runner);
            r.exitCode == 1 ==> r.calls != []
    ensures var r := LintFrom(s, files, validators, runner);
            r.exitCode == 1 && r.calls[|r.calls| - 1].outcome.Threw? ==>
              r.notices == Cleared(|r.calls| - 1) + [Notice(Warn, Aborting), Notice(Error, CommandFailed)]
    ensures var r := LintFrom(s, files, validators, runner);
            r.exitCode == 1 && r.calls[|r.calls| - 1].outcome.Returned? ==>
              r.notices == Cleared(|r.calls| - 1) + [Notice(Error, IssuesDetected)]
  {
    LintFromFailNotices(s, files, validators, runner);
    LintFromVerdict(s, files, validators, runner);
  }

  /** A run that exits with 0 printed "No issues detected" once per
      lockfile and nothing else. A run that exits with 1 printed "No issues
      detected" once for every lockfile before the last one checked, then
      the messages of that last engine call: "Error: security issues
      detected!" after a lockfile with failures, or the abort warning
      followed by "Error: command failed with exit code 1" after a throw. */
  lemma LintNotices(c: Config, files: seq<string>, runner: Runner)
    ensures var r := Lint(c, files, runner);
            r.exitCode == 0 ==> r.notices == Cleared(|files|)
    ensures var r := Lint(c, files, runner);
            r.exitCode == 1 ==> r.calls != []
    ensures var r := Lint(c, files, runner);
            r.exitCode == 1 && r.calls[|r.calls| - 1].outcome.Threw? ==>
              r.notices == Cleared(|r.calls| - 1) + [Notice(Warn, Aborting), Notice(Error, CommandFailed)]
    ensures var r := Lint(c, files, runner);
            r.exitCode == 1 && r.calls[|r.calls| - 1].outcome.Returned? ==>
              r.notices == Cleared(|r.calls| - 1) + [Notice(Error, IssuesDetected)]
  {
    LintFromLastWords(SetupOf(c), files, [], runner);
    LintFromCleanNotices(SetupOf(c), files, [], runner);
  }

  /** The line a "No issues detected" message prints as. */
  function CleanLine(pretty: bool, isSupported: bool): Line {
    Line(Stdout, if pretty then GREEN + " " + Symbol(Success, isSupported) + " " + NoIssues + " \n " + RESET
                 else NoIssues + " \n")
  }

  lemma CleanFormat(pretty: bool, isSupported: bool)
    ensures Line(StreamOf(Success), Format(Success, NoIssues, pretty, isSupported)) == CleanLine(pretty, isSupported)
  {
    if pretty {
      FormatPretty(Success, NoIssues, isSupported);
    } else {
      FormatPlain(Success, NoIssues, isSupported);
    }
  }

  lemma PrintedSuccesses(c: Config, isSupported: bool, notices: seq<Notice>)
    requires forall k :: 0 <= k < |notices| ==> notices[k] == Notice(Success, NoIssues)
    ensures var lines := Printed(c, isSupported, notices);
            forall k :: 0 <= k < |lines| ==> lines[k] == CleanLine(IsPrettyFormat(c), isSupported)
  {
    var pretty := IsPrettyFormat(c);
    var line := CleanLine(pretty, isSupported);
    CleanFormat(pretty, isSupported);
    var lines := Printed(c, isSupported, notices);
    forall k | 0 <= k < |lines| ensures lines[k] == line {
      assert notices[k] == Notice(Success, NoIssues);
    }
  }

  /** What the message helpers print in a clean run: one line per lockfile
      on standard output,
      "No issues detected" followed by a space and the newline in plain
      format, wrapped in green, the success symbol and the reset in pretty
      format. */
  lemma {:induction false} CleanRunOutput(c: Config, files: seq<string>, runner: Runner, isSupported: bool)
    requires Lint(c, files, runner).exitCode == 0
    ensures var lines := Printed(c, isSupported, Lint(c, files, runner).notices);
            |lines| == |files| && forall k :: 0 <= k < |lines| ==> lines[k] == CleanLine(IsPrettyFormat(c), isSupported)
  {
    LintNotices(c, files, runner);
    var notices := Lint(c, files, runner).notices;
    assert forall k :: 0 <= k < |notices| ==> notices[k] == Notice(Success, NoIssues);
    PrintedSuccesses(c, isSupported, notices);
  }
}
