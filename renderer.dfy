/** `ConvertToHtmlWithHighlighting` (Plugin.cs lines 139-230): the report is
    split into lines, each line is classified and rewritten, and the lines are
    written, each followed by a line feed, between a fixed document head and a
    fixed document tail. */
module Renderer {
  import opened Strings
  import opened LineSplit
  import opened UrlRewrite
  import opened Highlight

  /** The style sheet: the text of the raw string literal `cssStyles`. */
  const CssStyles: string :=
    "\n"
    + "            <style>\n"
    + "                body { font-family: monospace; background-color: #f4f4f4; padding: 20px; }\n"
    + "                .git-command { color: #005cc5; font-weight: bold; font-size: 1.2em; }\n"
    + "                .file-change { color: #d73a49; font-size: 1.5em; }\n"
    + "                .branch-info { color: #6f42c1; font-size: 1.2em; }\n"
    + "                .status-info { color: #22863a; font-size: 1.2em; }\n"
    + "                a.url { color: #032b6b; text-decoration: underline; font-size: 1.3em; }\n"
    + "                .copy-btn {\n"
    + "                    margin-left: 5px;\n"
    + "                    cursor: pointer;\n"
    + "                    color: #005cc5;\n"
    + "                    font-size: 0.9em;\n"
    + "                    text-decoration: none;\n"
    + "                }\n"
    + "                .copy-btn:hover {\n"
    + "                    text-decoration: underline;\n"
    + "                }\n"
    + "            </style>"

  /** The clipboard script: the text of the raw string literal `jsScript`. */
  const JsScript: string :=
    "\n"
    + "            <script>\n"
    + "                function copyToClipboard(text) {\n"
    + "                    navigator.clipboard.writeText(text).then(() => {\n"
    + "                        alert('Copied to clipboard: ' + text);\n"
    + "                    }).catch(err => {\n"
    + "                        console.error('Failed to copy text: ', err);\n"
    + "                    });\n"
    + "                }\n"
    + "            </script>"

  /** Everything written before the first line. */
  const Prefix: string :=
    "<!DOCTYPE html>\n<html>\n<head>\n" + CssStyles + JsScript + "\n</head>\n<body>\n<pre>"

  /** Everything written after the last line. */
  const Suffix: string := "</pre>\n</body>\n</html>"

  /** The processed form of each line, in order. */
  function EmitAll(lines: seq<string>): seq<string>
  {
    seq(|lines|, k requires 0 <= k < |lines| => Emitted(lines[k]))
  }

  /** The processed lines, each followed by a line feed, in order. */
  function Body(lines: seq<string>): string
  {
    JoinLines(EmitAll(lines))
  }

  /** The document rendered for a report. */
  function Document(content: string): string
  {
    Prefix + Body(SplitNonEmpty(content)) + Suffix
  }

  /** The body of the renderer's loop for one line: four keyword tests, each
      overwriting the result with a span around the original line, then the
      URL rewrite of the original line when it contains `https://`. */
  method HighlightLine(line: string) returns (highlightedLine: string)
    ensures highlightedLine == Emitted(line)
  {
    highlightedLine := line;
    if Contains(line, "git") {
      highlightedLine := "<span class='git-command'>" + line + "</span>";
    }
    if Contains(line, "modified") || Contains(line, "insertions") || Contains(line, "deletion") {
      highlightedLine := "<span class='file-change'>" + line + "</span>";
    }
    if Contains(line, "branch") {
      highlightedLine := "<span class='branch-info'>" + line + "</span>";
    }
    if Contains(line, "Your branch") || Contains(line, "can be fast-forwarded") {
      highlightedLine := "<span class='status-info'>" + line + "</span>";
    }
    if Contains(line, "https://") {
      highlightedLine := ReplaceUrls(line);
    }
    KeywordTests(line);
    CategoryPriority(line);
    SpanTexts(line);
  }

  /** The span texts the renderer writes are `Wrap` of each category. */
  lemma SpanTexts(line: string)
    ensures Wrap(GitCommand, line) == "<span class='git-command'>" + line + "</span>"
    ensures Wrap(FileChange, line) == "<span class='file-change'>" + line + "</span>"
    ensures Wrap(BranchInfo, line) == "<span class='branch-info'>" + line + "</span>"
    ensures Wrap(StatusInfo, line) == "<span class='status-info'>" + line + "</span>"
  {
    assert "<span class='" + "git-command" + "'>" == "<span class='git-command'>";
    assert "<span class='" + "file-change" + "'>" == "<span class='file-change'>";
    assert "<span class='" + "branch-info" + "'>" == "<span class='branch-info'>";
    assert "<span class='" + "status-info" + "'>" == "<span class='status-info'>";
  }

  method ConvertToHtmlWithHighlighting(content: string) returns (htmlContent: string)
    ensures htmlContent == Document(content)
  {
    htmlContent := Prefix;
    var lines := SplitNonEmpty(content);
    AppendNothing(Prefix);
    for i := 0 to |lines|
      invariant htmlContent == Prefix + Body(lines[..i])
    {
      var highlightedLine := HighlightLine(lines[i]);
      BodySnoc(lines, i);
      AppendLine(Prefix, Body(lines[..i]), highlightedLine);
      htmlContent := htmlContent + highlightedLine + "\n";
    }
    assert lines[..|lines|] == lines;
    htmlContent := htmlContent + Suffix;
  }

  lemma AppendNothing(head: string)
    ensures head + Body([]) == head
  {
  }

  lemma AppendLine(head: string, body: string, line: string)
    ensures head + body + line + "\n" == head + (body + line + "\n")
  {
  }

  /** A report with no characters other than separators renders as the
      document head and tail alone. */
  lemma DocumentOfBlankContent(content: string)
    requires AllSeparators(content)
    ensures Document(content) == Prefix + Suffix
  {
    SplitAllSeparators(content);
    AppendNothing(Prefix);
  }

  /** A report that is a single line renders as that line alone. */
  lemma DocumentOfOneLine(content: string)
    requires content != [] && SeparatorFree(content)
    ensures Document(content) == Prefix + Emitted(content) + "\n" + Suffix
  {
    SplitSeparatorFree(content);
    BodyOfOneLine(content);
    AppendAssoc(Prefix, Emitted(content), "\n");
  }

  lemma BodyOfOneLine(line: string)
    ensures Body([line]) == Emitted(line) + "\n"
  {
    var e := Emitted(line);
    assert EmitAll([line]) == [e];
    assert [e][..0] == [];
    assert JoinLines([e]) == JoinLines([]) + e + "\n";
    assert JoinLines([]) + e == e;
  }

  /** Rendering one more line appends it, processed, to the body. */
  lemma BodySnoc(lines: seq<string>, i: nat)
    requires i < |lines|
    ensures Body(lines[..i + 1]) == Body(lines[..i]) + Emitted(lines[i]) + "\n"
  {
    assert lines[..i + 1][..i] == lines[..i];
    assert EmitAll(lines[..i + 1]) == EmitAll(lines[..i]) + [Emitted(lines[i])];
  }

  lemma EmitAllAppend(a: seq<string>, b: seq<string>)
    ensures EmitAll(a + b) == EmitAll(a) + EmitAll(b)
  {
    var l, r := EmitAll(a + b), EmitAll(a) + EmitAll(b);
    forall k | 0 <= k < |a + b| ensures l[k] == r[k] {
      if k < |a| {
        assert (a + b)[k] == a[k];
      } else {
        assert (a + b)[k] == b[k - |a|];
      }
    }
  }

  /** The body of consecutive groups of lines is the bodies one after the other. */
  lemma BodyAppend(a: seq<string>, b: seq<string>)
    ensures Body(a + b) == Body(a) + Body(b)
  {
    EmitAllAppend(a, b);
    JoinLinesAppend(EmitAll(a), EmitAll(b));
  }

  /** When a piece of the report ends with a separator, its lines are
      rendered before, and apart from, the lines of what follows. */
  lemma BodyOfConcatenation(a: string, b: string)
    requires a != [] && IsSeparator(a[|a| - 1])
    ensures Body(SplitNonEmpty(a + b)) == Body(SplitNonEmpty(a)) + Body(SplitNonEmpty(b))
  {
    SplitAfterTerminator(a, b);
    BodyAppend(SplitNonEmpty(a), SplitNonEmpty(b));
  }

  lemma SeparatorFreeAppend(a: string, b: string)
    requires SeparatorFree(a) && SeparatorFree(b)
    ensures SeparatorFree(a + b)
  {
    forall i | 0 <= i < |a + b| ensures !IsSeparator((a + b)[i]) {
      if i >= |a| {
        assert (a + b)[i] == b[i - |a|];
      }
    }
  }

  lemma AnchorPiecesSeparatorFree()
    ensures SeparatorFree(LinkOpen) && SeparatorFree(LinkMiddle)
    ensures SeparatorFree(ButtonOpen) && SeparatorFree(ButtonClose)
  {
    LinkOpenSeparatorFree();
    ButtonOpenSeparatorFree();
    assert SeparatorFree(LinkMiddle) && SeparatorFree(ButtonClose);
  }

  lemma LinkOpenSeparatorFree()
    ensures SeparatorFree(LinkOpen)
  {
    var q0, q1 := "<a class=", "'url' href='";
    assert SeparatorFree(q0) && SeparatorFree(q1);
    SeparatorFreeAppend(q0, q1);
    assert LinkOpen == q0 + q1;
  }

  lemma ButtonOpenSeparatorFree()
    ensures SeparatorFree(ButtonOpen)
  {
    ButtonOpenHalvesSeparatorFree();
    SeparatorFreeAppend("</a> <span class='copy-btn' ", "onclick=\"copyToClipboard('");
  }

  lemma ButtonOpenHalvesSeparatorFree()
    ensures SeparatorFree("</a> <span class='copy-btn' ")
    ensures SeparatorFree("onclick=\"copyToClipboard('")
  {
  }

  lemma AnchorSeparatorFree(u: string)
    requires SeparatorFree(u)
    ensures SeparatorFree(Anchor(u))
  {
    AnchorPiecesSeparatorFree();
    var a1 := LinkOpen + u;
    SeparatorFreeAppend(LinkOpen, u);
    var a2 := a1 + LinkMiddle;
    SeparatorFreeAppend(a1, LinkMiddle);
    var a3 := a2 + u;
    SeparatorFreeAppend(a2, u);
    var a4 := a3 + ButtonOpen;
    SeparatorFreeAppend(a3, ButtonOpen);
    var a5 := a4 + u;
    SeparatorFreeAppend(a4, u);
    SeparatorFreeAppend(a5, ButtonClose);
    assert Anchor(u) == a5 + ButtonClose;
  }

  /** The URL rewrite of a non-empty separator-free line is a non-empty
      separator-free line. */
  lemma {:induction false} ReplaceUrlsKeepsLine(s: string)
    requires SeparatorFree(s)
    ensures SeparatorFree(ReplaceUrls(s))
    ensures s != [] ==> ReplaceUrls(s) != []
    decreases |s|
  {
    if s != [] {
      var n := MatchLength(s);
      if n > 0 {
        ReplaceUrlsReplaces(s);
        AnchorSeparatorFree(s[..n]);
        ReplaceUrlsKeepsLine(s[n..]);
        SeparatorFreeAppend(Anchor(s[..n]), ReplaceUrls(s[n..]));
      } else {
        ReplaceUrlsCopies(s);
        ReplaceUrlsKeepsLine(s[1..]);
        SeparatorFreeAppend([s[0]], ReplaceUrls(s[1..]));
      }
    }
  }

  /** Processing keeps a line a single, non-empty line. */
  lemma EmittedKeepsLine(line: string)
    requires line != [] && SeparatorFree(line)
    ensures Emitted(line) != [] && SeparatorFree(Emitted(line))
  {
    if Contains(line, Https) {
      ReplaceUrlsKeepsLine(line);
    } else if CategoryOf(line).Some? {
      WrapKeepsLine(CategoryOf(line).value, line);
    }
  }

  lemma WrapKeepsLine(c: Category, line: string)
    requires SeparatorFree(line)
    ensures SeparatorFree(Wrap(c, line))
  {
    var open := "<span class='" + ClassName(c) + "'>";
    SpanPiecesSeparatorFree(c);
    SeparatorFreeAppend(open, line);
    SeparatorFreeAppend(open + line, "</span>");
  }

  lemma SpanPiecesSeparatorFree(c: Category)
    ensures SeparatorFree("<span class='" + ClassName(c) + "'>") && SeparatorFree("</span>")
  {
    assert SeparatorFree(ClassName(c));
    SeparatorFreeAppend("<span class='", ClassName(c));
    SeparatorFreeAppend("<span class='" + ClassName(c), "'>");
  }

  /** Every line of the report appears in the body exactly once, processed,
      in the original order: splitting the body again yields one processed
      line per report line. */
  lemma BodyLines(content: string)
    ensures SplitNonEmpty(Body(SplitNonEmpty(content))) == EmitAll(SplitNonEmpty(content))
  {
    var lines := SplitNonEmpty(content);
    forall k | 0 <= k < |lines| ensures EmitAll(lines)[k] != [] && SeparatorFree(EmitAll(lines)[k]) {
      EmittedKeepsLine(lines[k]);
    }
    SplitJoinLines(EmitAll(lines));
  }
}
