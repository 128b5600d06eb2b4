/** `RunGit2`, `Exec2` and `Exec` (Plugin.cs lines 85-137): four fixed git
    commands are run one after another in the repository directory, and what
    each one produced (its standard output, or the message of the failure) is
    appended to the report with no separator. Launching a process is the
    abstract `Runner`. */
module Inspector {
  import opened Wrappers
  import opened Strings

  /** What launching `exe` with `args` in a working directory came to: either
      the launch itself threw (no such program, access denied, ...) with a
      message, or the process ran and exited with a code, having written its
      two redirected streams. */
  datatype ProcessOutcome =
    | StartFailed(message: string)
    | Exited(exitCode: int, stdout: string, stderr: string)

  /** Runs `exe` with `args` in directory `dir`. */
  type Runner = (string, string, string) -> ProcessOutcome

  /** The tuple `(string output, string error)` that `Exec2` returns; `None`
      is `null`. */
  datatype ExecPair = ExecPair(output: Option<string>, error: Option<string>)

  /** The program and the four argument strings, in the order they run. */
  const Git := "git"
  const GitArgs: seq<string> := ["remote -v", "status", "remote show origin", "--no-pager diff --shortstat"]

  /** `Exec`: returns the captured standard output, or throws an exception
      whose message is the captured standard error when the exit code is not
      0; a launch failure propagates as the exception it is. */
  function Exec(run: Runner, exe: string, args: string, dir: string): (r: Result<string, string>)
    ensures r.Success? <==> run(exe, args, dir).Exited? && run(exe, args, dir).exitCode == 0
    ensures r.Success? ==> r.value == run(exe, args, dir).stdout
    ensures r.Failure? && run(exe, args, dir).StartFailed? ==> r.error == run(exe, args, dir).message
    ensures r.Failure? && run(exe, args, dir).Exited? ==> r.error == run(exe, args, dir).stderr
  {
    match run(exe, args, dir)
    case StartFailed(m) => Failure(m)
    case Exited(code, out, err) => if code != 0 then Failure(err) else Success(out)
  }

  /** `Exec2`: the output with no error, or no output with the message of
      whatever exception `Exec` threw. */
  function Exec2(run: Runner, exe: string, args: string, dir: string): (r: ExecPair)
    ensures r.output.Some? != r.error.Some?
    ensures r.output.Some? <==> run(exe, args, dir).Exited? && run(exe, args, dir).exitCode == 0
    ensures r.output.Some? ==> r.output.value == run(exe, args, dir).stdout
    ensures r.error.Some? ==> r.error.value == (if run(exe, args, dir).StartFailed? then run(exe, args, dir).message
                                                else run(exe, args, dir).stderr)
  {
    match Exec(run, exe, args, dir)
    case Success(out) => ExecPair(Some(out), None)
    case Failure(message) => ExecPair(None, Some(message))
  }

  /** `a ?? b`. */
  function Coalesce(a: Option<string>, b: Option<string>): Option<string>
  {
    if a.Some? then a else b
  }

  /** What `StringBuilder.Append` adds for a string that may be `null`. */
  function AppendedText(s: Option<string>): string
  {
    match s
    case None => []
    case Some(t) => t
  }

  /** What one command contributes to the report: `r.output ?? r.error`. */
  function Segment(run: Runner, args: string, dir: string): (p: string)
    ensures run(Git, args, dir).StartFailed? ==> p == run(Git, args, dir).message
    ensures run(Git, args, dir).Exited? && run(Git, args, dir).exitCode == 0
            ==> p == run(Git, args, dir).stdout
    ensures run(Git, args, dir).Exited? && run(Git, args, dir).exitCode != 0
            ==> p == run(Git, args, dir).stderr
  {
    var r := Exec2(run, Git, args, dir);
    AppendedText(Coalesce(r.output, r.error))
  }

  /** The report for a list of argument strings: the segments in list order. */
  function Report(run: Runner, dir: string, argList: seq<string>): string
  {
    if argList == [] then []
    else Report(run, dir, argList[..|argList| - 1]) + Segment(run, argList[|argList| - 1], dir)
  }

  /** `RunGit2`: every one of the four commands runs, whatever the earlier
      ones did, and the report is their segments in the fixed order. */
  method RunGit2(run: Runner, path: string) returns (report: string)
    ensures report == Report(run, path, GitArgs)
    ensures report == Segment(run, "remote -v", path) + Segment(run, "status", path)
                      + Segment(run, "remote show origin", path)
                      + Segment(run, "--no-pager diff --shortstat", path)
  {
    var args := GitArgs;
    var result := "";
    for i := 0 to |args|
      invariant result == Report(run, path, args[..i])
    {
      var r := Exec2(run, Git, args[i], path);
      assert args[..i + 1] == args[..i] + [args[i]];
      ReportSnoc(run, path, args[..i], args[i]);
      result := result + AppendedText(Coalesce(r.output, r.error));
    }
    assert args[..|args|] == args;
    report := result;
    ReportOfGitArgs(run, path);
  }

  /** The report of the fixed list, spelled out segment by segment. */
  lemma ReportOfGitArgs(run: Runner, dir: string)
    ensures Report(run, dir, GitArgs)
            == Segment(run, "remote -v", dir) + Segment(run, "status", dir)
               + Segment(run, "remote show origin", dir)
               + Segment(run, "--no-pager diff --shortstat", dir)
  {
    var a0: seq<string> := [];
    var a1 := a0 + ["remote -v"];
    var a2 := a1 + ["status"];
    var a3 := a2 + ["remote show origin"];
    var a4 := a3 + ["--no-pager diff --shortstat"];
    assert GitArgs == a4;
    ReportSnoc(run, dir, a0, "remote -v");
    ReportSnoc(run, dir, a1, "status");
    ReportSnoc(run, dir, a2, "remote show origin");
    ReportSnoc(run, dir, a3, "--no-pager diff --shortstat");
  }

  /** Running one more command appends its segment. */
  lemma ReportSnoc(run: Runner, dir: string, a: seq<string>, x: string)
    ensures Report(run, dir, a + [x]) == Report(run, dir, a) + Segment(run, x, dir)
  {
    assert (a + [x])[..|a|] == a;
  }

  /** Reports of concatenated argument lists are concatenated reports. */
  lemma {:induction false} ReportAppend(run: Runner, dir: string, a: seq<string>, b: seq<string>)
    ensures Report(run, dir, a + b) == Report(run, dir, a) + Report(run, dir, b)
    decreases |b|
  {
    if b == [] {
      assert a + b == a;
    } else {
      var b', x := b[..|b| - 1], b[|b| - 1];
      assert b == b' + [x] && a + b == (a + b') + [x];
      ReportAppend(run, dir, a, b');
      ReportSnoc(run, dir, a + b', x);
      ReportSnoc(run, dir, b', x);
      AppendAssoc(Report(run, dir, a), Report(run, dir, b'), Segment(run, x, dir));
    }
  }

  /** The standard output of a failing command never reaches the report, nor
      the standard error of a successful one: two outcomes that differ only
      in those streams give the same segment. */
  lemma SegmentIgnoresDiscardedStream(run1: Runner, run2: Runner, args: string, dir: string)
    requires run1(Git, args, dir).Exited? && run2(Git, args, dir).Exited?
    requires run1(Git, args, dir).exitCode == run2(Git, args, dir).exitCode
    requires run1(Git, args, dir).exitCode == 0
             ==> run1(Git, args, dir).stdout == run2(Git, args, dir).stdout
    requires run1(Git, args, dir).exitCode != 0
             ==> run1(Git, args, dir).stderr == run2(Git, args, dir).stderr
    ensures Segment(run1, args, dir) == Segment(run2, args, dir)
  {
  }

  /** The report is determined by the four segments alone: two runners whose
      commands contribute the same segments give the same report, so no
      failure anywhere changes what another command contributes. */
  lemma ReportDependsOnSegments(run1: Runner, run2: Runner, dir: string)
    requires forall j :: 0 <= j < |GitArgs| ==> Segment(run1, GitArgs[j], dir) == Segment(run2, GitArgs[j], dir)
    ensures Report(run1, dir, GitArgs) == Report(run2, dir, GitArgs)
  {
    ReportOfGitArgs(run1, dir);
    ReportOfGitArgs(run2, dir);
    assert GitArgs[0] == "remote -v" && GitArgs[1] == "status";
    assert GitArgs[2] == "remote show origin" && GitArgs[3] == "--no-pager diff --shortstat";
  }

  /** Whatever one command does, the rest of the report is what the other
      commands contribute: for two runners that agree on every command but
      the `j`-th, the reports differ only in that command's segment. */
  lemma ReportIsolatesCommand(run1: Runner, run2: Runner, dir: string, j: nat)
    requires j < |GitArgs|
    requires forall a :: a in GitArgs && a != GitArgs[j] ==> run1(Git, a, dir) == run2(Git, a, dir)
    ensures Report(run2, dir, GitArgs)
            == Report(run1, dir, GitArgs[..j]) + Segment(run2, GitArgs[j], dir) + Report(run1, dir, GitArgs[j + 1..])
  {
    var before, after := GitArgs[..j], GitArgs[j + 1..];
    assert GitArgs == before + [GitArgs[j]] + after;
    assert forall k :: 0 <= k < |GitArgs| && k != j ==> GitArgs[k] != GitArgs[j];
    ReportAgrees(run1, run2, dir, before);
    ReportAgrees(run1, run2, dir, after);
    ReportAppend(run2, dir, before + [GitArgs[j]], after);
    ReportSnoc(run2, dir, before, GitArgs[j]);
  }

  /** Runners that agree on every command of a list give the same report. */
  lemma {:induction false} ReportAgrees(run1: Runner, run2: Runner, dir: string, argList: seq<string>)
    requires forall k :: 0 <= k < |argList| ==> run1(Git, argList[k], dir) == run2(Git, argList[k], dir)
    ensures Report(run1, dir, argList) == Report(run2, dir, argList)
    decreases |argList|
  {
    if argList != [] {
      ReportAgrees(run1, run2, dir, argList[..|argList| - 1]);
    }
  }
}
