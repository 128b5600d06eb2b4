# Git viewer plugin: repository report and its HTML rendering

This project models the core of the QuickLook git viewer plugin (`Plugin.cs`).
The plugin gathers a text report about a git working copy and renders it as an
HTML page with highlighting. It has two parts:

- **`RunGit2`, `Exec2`, `Exec`** (module `Inspector`). Four git commands run one
  after another in a fixed order: `remote -v`, `status`, `remote show origin`,
  `--no-pager diff --shortstat`. From each command, the report keeps its
  standard output if it exited with code 0, its standard error if it exited
  with another code, or the exception message if it could not be started. The
  pieces are concatenated with nothing in between, and a failure never stops
  the commands after it. Launching a process is an abstract `Runner` function
  from (program, arguments, directory) to an outcome.
- **`ConvertToHtmlWithHighlighting`** (modules `LineSplit`, `Highlight`,
  `UrlRewrite`, `Renderer`). The report is split at every `\r` and `\n` with
  empty entries removed. Each line then goes through four keyword tests; each
  successful test overwrites the result with a span around the original line,
  so the last match wins. A line that contains `https://` is instead replaced
  by its URL rewrite: every match of `https?://[^\s]+` becomes a link plus a
  copy-to-clipboard button. Each processed line is written followed by a line
  feed, between a fixed document head (with style sheet and script) and a
  fixed document tail.

Module `Pipeline` composes the two, as `GenerateHtml` does before it writes the
file. Module `Strings` holds ordinal `Contains`/`StartsWith`; `Wrappers` holds
`Option` and `Result`.

The renderer's loop is a `method` (`Renderer.ConvertToHtmlWithHighlighting`),
proved against the specification function `Renderer.Document`. Its loop body
mirrors the source's five `if` statements (`Renderer.HighlightLine`), proved
against `Highlight.Emitted`. The report loop is `Inspector.RunGit2`, proved
against `Inspector.Report`. The properties are lemmas about these
specification functions.

## Model

| member | source | states |
|---|---|---|
| Inspector.Exec | Plugin.cs:97-119 | succeeds exactly when the process started and exited with code 0, returning its standard output; otherwise fails with the launch message or, for a non-zero exit code, the standard error |
| Inspector.Exec2 | Plugin.cs:85-119 | exactly one of output and error is present; output is present exactly when the process started and exited with code 0, and then holds the standard output; error holds the launch message, or the standard error for a non-zero exit code |
| Inspector.Coalesce | Plugin.cs:134 | `??`: the first value unless it is null; with `Inspector.Segment` it yields whichever of output and error `Exec2` set |
| Inspector.AppendedText | Plugin.cs:134 | what `Append` adds: the string, or nothing for null; its effect on the report is stated by `Inspector.Segment` |
| Inspector.Report | Plugin.cs:129-136 | the segments of an argument list in list order; specified by `Inspector.ReportSnoc`, `Inspector.ReportAppend` and `Inspector.ReportOfGitArgs` |
| Inspector.ReportSnoc | Plugin.cs:131-135 | running one more command appends exactly its segment to the report |
| Inspector.Segment | Plugin.cs:85-134 | a command that cannot start contributes the exception message; exit code 0 contributes standard output; any other exit code contributes standard error |
| Inspector.RunGit2 | Plugin.cs:121-137 | the report is the segments of `remote -v`, `status`, `remote show origin` and `--no-pager diff --shortstat`, in that order, with no separator between them |
| Inspector.ReportOfGitArgs | Plugin.cs:123-135 | the report of the fixed argument list is the concatenation of the four named segments |
| Inspector.ReportAppend | Plugin.cs:129-136 | the report of two argument lists run one after the other is the two reports concatenated |
| Inspector.SegmentIgnoresDiscardedStream | Plugin.cs:114-118 | a failing command's standard output and a successful command's standard error never influence the report |
| Inspector.ReportDependsOnSegments | Plugin.cs:131-135 | the report is determined by the four segments alone |
| Inspector.ReportAgrees | Plugin.cs:131-135 | runners that give the same outcome for every command of a list give the same report |
| Inspector.ReportIsolatesCommand | Plugin.cs:131-135 | for runners that agree on every command but one, the reports differ only in that command's segment: a command failing (or succeeding) changes nothing another contributes |
| LineSplit.RunLength | Plugin.cs:181 | the first line runs up to, and not including, the first separator or the end |
| LineSplit.SplitNonEmpty | Plugin.cs:181 | every line is non-empty and contains neither `\r` nor `\n` |
| LineSplit.SplitMatchesLibrary | Plugin.cs:181 | the lines are exactly the pieces between separators with the empty pieces removed (`RemoveEmptyEntries`) |
| LineSplit.SplitKeepsText | Plugin.cs:181 | the lines put together are the report with its separators deleted: nothing else is lost, added or reordered |
| LineSplit.SplitSeparatorFree | Plugin.cs:181 | text without separators is one line, unchanged, or no line if empty |
| LineSplit.SplitAllSeparators | Plugin.cs:181 | text made only of separators has no lines |
| LineSplit.SplitAtSeparator | Plugin.cs:181 | no line spans a separator: splitting `a + sep + b` gives the lines of `a` and then those of `b` |
| LineSplit.SplitAfterTerminator | Plugin.cs:181 | text ending in a separator splits independently of what follows it |
| LineSplit.JoinLinesAppend | Plugin.cs:222-224 | writing two groups of lines, each line followed by a line feed, is their texts one after the other |
| LineSplit.SplitJoinLines | Plugin.cs:181-224 | splitting non-empty, separator-free lines written one per line gives back exactly those lines |
| UrlRewrite.MatchLength | Plugin.cs:215 | the length of the pattern's match at one position (0 for none); specified by `UrlRewrite.MatchLengthIsMatch` and `UrlRewrite.MatchLengthOfUrl` |
| UrlRewrite.Anchor | Plugin.cs:216-219 | the match evaluator's text: a link to the URL showing the URL, a space, and a copy button carrying the URL; its use is stated by `UrlRewrite.ReplaceUrlsMatch` |
| UrlRewrite.ReplaceUrls | Plugin.cs:215-219 | `Regex.Replace` with the URL pattern: leftmost, non-overlapping matches replaced by their anchors; specified by `UrlRewrite.ReplaceUrlsPlain`, `UrlRewrite.ReplaceUrlsMatch` and `UrlRewrite.ReplaceUrlsNoScheme` |
| UrlRewrite.NonSpaceRun | Plugin.cs:215 | the greedy `[^\s]+` run stops exactly at the first whitespace or at the end |
| UrlRewrite.MatchLengthIsMatch | Plugin.cs:215 | a positive match length gives a URL followed by whitespace or the end, and no longer prefix is a URL; length 0 means no prefix is a URL |
| UrlRewrite.MatchLengthOfUrl | Plugin.cs:215 | the match starting at a URL followed by whitespace or the end is exactly that URL |
| UrlRewrite.ReplaceUrlsPlain | Plugin.cs:215-219 | text in which no match starts is copied unchanged, in order, ahead of the rewrite of the rest |
| UrlRewrite.ReplaceUrlsMatch | Plugin.cs:215-219 | a URL followed by whitespace or the end is replaced by its link and copy button, which both carry the URL verbatim, and the scan resumes after it |
| UrlRewrite.ReplaceUrlsNoScheme | Plugin.cs:215-219 | text containing neither `http://` nor `https://` is not changed |
| UrlRewrite.NoMatchInPlainText | Plugin.cs:215 | no match starts inside scheme-free text that ends in whitespace, whatever follows |
| UrlRewrite.ReplaceUrlsAfterPlainText | Plugin.cs:215-219 | scheme-free text, whitespace, a URL, then whitespace or the end: the text is kept, the URL is replaced by its anchor |
| Highlight.Classify | Plugin.cs:185-209 | the keyword tests run in order, each success overwriting the choice; specified by `Highlight.CategoryPriority` |
| Highlight.CategoryOf | Plugin.cs:185-209 | the category a line's span gets, if any; specified by `Highlight.LastMatchWins` and `Highlight.NoCategoryIff` |
| Highlight.Emitted | Plugin.cs:185-220 | the processed line: the URL rewrite when the line contains `https://`, else the line in the span of its category, else the line; `Renderer.HighlightLine` is proved equal to it |
| Highlight.KeywordTests | Plugin.cs:188-206 | the four category tests are exactly the `Contains` tests the renderer performs |
| Highlight.CategoryPriority | Plugin.cs:185-209 | overwriting in test order picks status-info, else branch-info, else file-change, else git-command, else nothing |
| Highlight.LastMatchWins | Plugin.cs:185-209 | a line gets category `c` exactly when `c`'s test succeeds and every later test fails |
| Highlight.NoCategoryIff | Plugin.cs:185-209 | a line gets no span exactly when all four tests fail |
| Highlight.YourBranchIsStatusInfo | Plugin.cs:200-209 | a line with "Your branch" also passes the branch test but ends up status-info |
| Highlight.PlainLineUnchanged | Plugin.cs:185-212 | a line with no keyword and no `https://` is written unchanged |
| Highlight.RemoteLineLinked | Plugin.cs:188-219 | in a `remote -v` line the URL becomes a link and the text around it is kept; a github URL passes the git test, yet the line gets no span |
| Highlight.HttpOnlyLineNotLinked | Plugin.cs:212-219 | for any line without `https://` that holds an `http://` URL, the URL is a whole match of the pattern, yet the line gets only the keyword treatment and no link |
| Highlight.HttpLineNotLinked | Plugin.cs:212-219 | the line `http://x` is a URL and is written unchanged |
| Renderer.Body | Plugin.cs:183-224 | the processed lines, each followed by a line feed; specified by `Renderer.BodySnoc`, `Renderer.BodyAppend` and `Renderer.BodyLines` |
| Renderer.Document | Plugin.cs:178-229 | head, body of the split report, tail; `Renderer.ConvertToHtmlWithHighlighting` is proved equal to it, and `Renderer.DocumentOfBlankContent` and `Renderer.DocumentOfOneLine` state its edge cases |
| Renderer.SpanTexts | Plugin.cs:190-208 | the four span texts are the category's class name around the original line |
| Renderer.HighlightLine | Plugin.cs:185-220 | the loop body's result is the line's `Emitted` form: the URL rewrite if it contains `https://`, else the span of the last matching category, else the line |
| Renderer.ConvertToHtmlWithHighlighting | Plugin.cs:139-230 | the page is the head, then each line's processed form followed by a line feed, in order, then the tail |
| Renderer.DocumentOfBlankContent | Plugin.cs:178-229 | a report of separators only (or empty) renders as the head followed directly by the tail |
| Renderer.DocumentOfOneLine | Plugin.cs:178-229 | a separator-free report renders as its processed form on one line |
| Renderer.BodySnoc | Plugin.cs:183-224 | each pass of the loop appends the processed line and a line feed |
| Renderer.BodyAppend | Plugin.cs:183-224 | the body of two groups of lines is their bodies one after the other |
| Renderer.BodyOfConcatenation | Plugin.cs:181-224 | when a piece of the report ends in a separator, its lines render before, and apart from, those of what follows |
| Renderer.AnchorSeparatorFree | Plugin.cs:218 | the link and button text for a separator-free URL contains no line break |
| Renderer.ReplaceUrlsKeepsLine | Plugin.cs:215-219 | the URL rewrite of a non-empty, separator-free line is non-empty and separator-free |
| Renderer.EmittedKeepsLine | Plugin.cs:185-220 | processing keeps a line non-empty and free of line breaks |
| Renderer.BodyLines | Plugin.cs:181-224 | splitting the written body again yields exactly one processed line per report line, in order |
| Pipeline.PageContent | Plugin.cs:235-236 | the page written is the rendering of the four-command report |
| Pipeline.GitMissing | Plugin.cs:113-134 | if git cannot start, the launch message appears four times, run together on a single line of the page |
| Pipeline.SilentReport | Plugin.cs:117-134 | if every command fails with an empty error stream, the report is empty |
| Pipeline.SilentFailures | Plugin.cs:178-236 | if every command fails with an empty error stream, the page is the head and tail with nothing between them |
| Pipeline.SegmentsStayApart | Plugin.cs:134-236 | when every segment is empty or ends in a line break, the page's lines are the four segments' lines, in order, none merged with another's |
| Strings.Contains | Plugin.cs:188 | ordinal `String.Contains`; specified by `Strings.ContainsIff` |
| Strings.ContainsAt | Plugin.cs:188 | an occurrence at a given index makes `Contains` hold |
| Strings.ContainsIndex | Plugin.cs:188 | `Contains` yields an index where the pattern occurs |
| Strings.ContainsIff | Plugin.cs:188 | `Contains` holds exactly when the pattern occurs at some index |
| Strings.ContainsTransitive | Plugin.cs:206 | whatever occurs in a contained string occurs in the containing one |
| Strings.NotContainsMissingChar | Plugin.cs:188 | a text lacking one of the pattern's characters does not contain the pattern |

## Left out

- Process execution (`Process.Start`, reading the two redirected streams, `WaitForExit`): reduced to the `Runner` function, which gives the start failure or the exit code and both captured streams. Timeouts, deadlocks from reading one stream to the end before the other, concurrency, and exceptions raised after a successful start are not modelled. A runner is a pure function, so it cannot model a repository that changes between commands.
- `CanHandle`, `Init`, `Prepare` and `View`: they check directories, set window size and title, and drive the web panel. All of it is host I/O.
- `GenerateHtml`: the temporary file name (a GUID) and the file write are I/O. Only the text it writes is modelled, as `Pipeline.PageContent`.
- `Cleanup`: it disposes the panel and deletes `_file` only when `Directory.Exists(_file)` holds. `_file` is the path of a file, so the generated page is never deleted. This is file-system I/O and is not part of this model.
- `Renderer.CssStyles` and `Renderer.JsScript`: their texts are reconstructed from the raw string literals, with the closing delimiter's indentation removed and line feeds as line ends. No property depends on their text.
- `UrlRewrite.IsWhitespace`: it lists the characters of the .NET regular-expression class `\s`. The regular-expression engine itself is replaced by the leftmost, greedy scan `UrlRewrite.ReplaceUrls`, which is specified by `UrlRewrite.MatchLengthIsMatch`.
- Characters are Unicode scalar values, whereas .NET strings hold UTF-16 code units. The clipboard symbol in the button is one character here but two code units in .NET. Strings containing lone surrogates cannot be represented.
- HTML escaping: the source escapes nothing (a line containing `<` or `'` is written as is), and the model does the same.
