/** What `GenerateHtml` (Plugin.cs lines 232-238) writes to its file: the
    rendering of the report that `RunGit2` gathers for the repository. */
module Pipeline {
  import opened LineSplit
  import opened Highlight
  import opened Inspector
  import opened Renderer

  /** The page for the repository at `path`: the report of the four
      commands, rendered. */
  method PageContent(run: Runner, path: string) returns (html: string)
    ensures html == Document(Report(run, path, GitArgs))
  {
    var content := RunGit2(run, path);
    html := ConvertToHtmlWithHighlighting(content);
  }

  /** When `git` cannot be started, each command contributes the same launch
      message, and as none of them ends with a line break the four messages
      run together into one line of the page. */
  lemma GitMissing(run: Runner, path: string, m: string)
    requires forall a :: a in GitArgs ==> run(Git, a, path) == StartFailed(m)
    requires m != [] && SeparatorFree(m)
    ensures Report(run, path, GitArgs) == m + m + m + m
    ensures Document(Report(run, path, GitArgs)) == Prefix + Emitted(m + m + m + m) + "\n" + Suffix
  {
    assert run(Git, "remote -v", path) == StartFailed(m);
    assert run(Git, "status", path) == StartFailed(m);
    assert run(Git, "remote show origin", path) == StartFailed(m);
    assert run(Git, "--no-pager diff --shortstat", path) == StartFailed(m);
    ReportOfGitArgs(run, path);
    SeparatorFreeAppend(m, m);
    SeparatorFreeAppend(m + m, m);
    SeparatorFreeAppend(m + m + m, m);
    DocumentOfOneLine(m + m + m + m);
  }

  /** The command ran and failed without writing to its error stream. */
  predicate FailsSilently(o: ProcessOutcome)
  {
    o.Exited? && o.exitCode != 0 && o.stderr == []
  }

  /** When every command fails without writing to its error stream, the page
      is the document head and tail with nothing in between. */
  lemma SilentFailures(run: Runner, path: string)
    requires forall a :: a in GitArgs ==> FailsSilently(run(Git, a, path))
    ensures Report(run, path, GitArgs) == []
    ensures Document(Report(run, path, GitArgs)) == Prefix + Suffix
  {
    SilentReport(run, path);
    DocumentOfBlankContent([]);
  }

  lemma SilentReport(run: Runner, path: string)
    requires forall a :: a in GitArgs ==> FailsSilently(run(Git, a, path))
    ensures Report(run, path, GitArgs) == []
  {
    assert "remote -v" in GitArgs && "status" in GitArgs;
    assert "remote show origin" in GitArgs && "--no-pager diff --shortstat" in GitArgs;
    ReportOfGitArgs(run, path);
  }

  /** When every segment is empty or ends with a line break, as git's own
      output does, the lines of the page are those of the four segments, each
      segment's after the previous one's, none merged with another's. */
  lemma SegmentsStayApart(run: Runner, path: string)
    requires forall a :: a in GitArgs ==> Terminated(Segment(run, a, path))
    ensures Body(SplitNonEmpty(Report(run, path, GitArgs)))
            == Body(SplitNonEmpty(Segment(run, "remote -v", path)))
               + Body(SplitNonEmpty(Segment(run, "status", path)))
               + Body(SplitNonEmpty(Segment(run, "remote show origin", path)))
               + Body(SplitNonEmpty(Segment(run, "--no-pager diff --shortstat", path)))
  {
    var s0, s1 := Segment(run, "remote -v", path), Segment(run, "status", path);
    var s2 := Segment(run, "remote show origin", path);
    var s3 := Segment(run, "--no-pager diff --shortstat", path);
    assert "remote -v" in GitArgs && "status" in GitArgs;
    assert "remote show origin" in GitArgs && "--no-pager diff --shortstat" in GitArgs;
    ReportOfGitArgs(run, path);
    TerminatedAppend(s0, s1);
    TerminatedAppend(s0 + s1, s2);
    BodyOfTerminated(s0 + s1 + s2, s3);
    BodyOfTerminated(s0 + s1, s2);
    BodyOfTerminated(s0, s1);
  }

  /** Empty, or ending with a separator. */
  predicate Terminated(s: string)
  {
    s == [] || IsSeparator(LastChar(s))
  }

  lemma BodyOfTerminated(a: string, b: string)
    requires Terminated(a)
    ensures Body(SplitNonEmpty(a + b)) == Body(SplitNonEmpty(a)) + Body(SplitNonEmpty(b))
  {
    if a == [] {
      assert a + b == b;
      AppendNothing([]);
    } else {
      BodyOfConcatenation(a, b);
    }
  }

  lemma TerminatedAppend(a: string, b: string)
    requires Terminated(a) && Terminated(b)
    ensures Terminated(a + b)
  {
    if b == [] {
      assert a + b == a;
    } else {
      EndsWithSeparator(a, b);
    }
  }

  function LastChar(s: string): char
    requires s != []
  {
    s[|s| - 1]
  }

  lemma EndsWithSeparator(a: string, b: string)
    requires b != [] && IsSeparator(b[|b| - 1])
    ensures a + b != [] && IsSeparator((a + b)[|a + b| - 1])
  {
    assert (a + b)[|a + b| - 1] == b[|b| - 1];
  }
}
