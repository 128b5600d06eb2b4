/** `content.Split(['\r', '\n'], StringSplitOptions.RemoveEmptyEntries)`,
    the first step of the renderer: the report is cut into lines at every
    carriage return or line feed, and the empty entries are dropped. */
module LineSplit {
  import opened Strings

  /** The separator characters passed to `String.Split`. */
  predicate IsSeparator(c: char)
  {
    c == '\r' || c == '\n'
  }

  predicate SeparatorFree(s: string)
  {
    forall i :: 0 <= i < |s| ==> !IsSeparator(s[i])
  }

  predicate AllSeparators(s: string)
  {
    forall i :: 0 <= i < |s| ==> IsSeparator(s[i])
  }

  /** Length of the longest separator-free prefix of `s`. */
  function RunLength(s: string): (n: nat)
    ensures n <= |s|
    ensures SeparatorFree(s[..n])
    ensures n < |s| ==> IsSeparator(s[n])
  {
    if s == [] || IsSeparator(s[0]) then 0
    else
      var m := RunLength(s[1..]);
      assert s[..m + 1] == [s[0]] + s[1..][..m];
      1 + m
  }

  /** The lines of `s`: its maximal separator-free runs, in order. */
  function SplitNonEmpty(s: string): (lines: seq<string>)
    ensures forall k :: 0 <= k < |lines| ==> lines[k] != [] && SeparatorFree(lines[k])
    decreases |s|
  {
    if s == [] then []
    else if IsSeparator(s[0]) then SplitNonEmpty(s[1..])
    else
      var n := RunLength(s);
      [s[..n]] + SplitNonEmpty(s[n..])
  }

  /** `String.Split` without options: every piece between two separators,
      empty pieces included (there is always at least one piece). */
  function SplitAll(s: string): (pieces: seq<string>)
    ensures |pieces| >= 1
    decreases |s|
  {
    var n := RunLength(s);
    if n == |s| then [s] else [s[..n]] + SplitAll(s[n + 1..])
  }

  /** The `RemoveEmptyEntries` option: drop the empty pieces, keep the order. */
  function RemoveEmpty(pieces: seq<string>): seq<string>
  {
    if pieces == [] then []
    else (if pieces[0] == [] then [] else [pieces[0]]) + RemoveEmpty(pieces[1..])
  }

  /** The maximal-run definition agrees with the library's documented
      behaviour: split at every separator, then remove the empty entries. */
  lemma {:induction false} SplitMatchesLibrary(s: string)
    ensures SplitNonEmpty(s) == RemoveEmpty(SplitAll(s))
    decreases |s|
  {
    var n := RunLength(s);
    if s == [] {
      assert SplitAll(s) == [[]];
    } else if n == |s| {
      assert s[..n] == s && s[n..] == [];
      assert RemoveEmpty([s]) == [s] + RemoveEmpty([]);
    } else {
      var rest := SplitAll(s[n + 1..]);
      assert SplitAll(s) == [s[..n]] + rest;
      assert ([s[..n]] + rest)[1..] == rest;
      SplitMatchesLibrary(s[n + 1..]);
      if n == 0 {
        assert s[1..] == s[n + 1..];
      } else {
        assert s[n..][1..] == s[n + 1..];
      }
    }
  }

  /** The text of `s` with every separator removed. */
  function DropSeparators(s: string): string
  {
    if s == [] then []
    else (if IsSeparator(s[0]) then [] else [s[0]]) + DropSeparators(s[1..])
  }

  lemma {:induction false} DropSeparatorsAppend(a: string, b: string)
    ensures DropSeparators(a + b) == DropSeparators(a) + DropSeparators(b)
    decreases |a|
  {
    if a == [] {
      assert a + b == b;
    } else {
      assert (a + b)[1..] == a[1..] + b;
      DropSeparatorsAppend(a[1..], b);
    }
  }

  lemma {:induction false} DropSeparatorsOfSeparatorFree(s: string)
    requires SeparatorFree(s)
    ensures DropSeparators(s) == s
    decreases |s|
  {
    if s != [] {
      DropSeparatorsOfSeparatorFree(s[1..]);
    }
  }

  /** No character other than a separator is lost or reordered: the lines,
      put together, are the text without its separators. */
  lemma {:induction false} SplitKeepsText(s: string)
    ensures Concat(SplitNonEmpty(s)) == DropSeparators(s)
    decreases |s|
  {
    if s == [] {
    } else if IsSeparator(s[0]) {
      SplitKeepsText(s[1..]);
    } else {
      var n := RunLength(s);
      SplitKeepsText(s[n..]);
      ConcatAppend([s[..n]], SplitNonEmpty(s[n..]));
      assert Concat([s[..n]]) == s[..n] by {
        assert [s[..n]][..0] == [];
      }
      assert s == s[..n] + s[n..];
      DropSeparatorsAppend(s[..n], s[n..]);
      DropSeparatorsOfSeparatorFree(s[..n]);
    }
  }

  /** Text without separators is one line, unchanged, or no line when empty. */
  lemma SplitSeparatorFree(s: string)
    requires SeparatorFree(s)
    ensures SplitNonEmpty(s) == if s == [] then [] else [s]
  {
    if s != [] {
      RunLengthOfSeparatorFree(s);
      assert s[..|s|] == s;
    }
  }

  lemma {:induction false} RunLengthOfSeparatorFree(s: string)
    requires SeparatorFree(s)
    ensures RunLength(s) == |s|
    decreases |s|
  {
    if s != [] {
      RunLengthOfSeparatorFree(s[1..]);
    }
  }

  /** Text made only of separators has no lines. */
  lemma {:induction false} SplitAllSeparators(s: string)
    requires AllSeparators(s)
    ensures SplitNonEmpty(s) == []
    decreases |s|
  {
    if s != [] {
      SplitAllSeparators(s[1..]);
    }
  }

  /** A separator-free prefix followed by a separator is a complete run. */
  lemma {:induction false} RunLengthAppend(a: string, b: string)
    requires RunLength(a) < |a| || (b != [] && IsSeparator(b[0]))
    ensures RunLength(a + b) == RunLength(a)
    decreases |a|
  {
    if a == [] {
    } else if IsSeparator(a[0]) {
    } else {
      assert (a + b)[1..] == a[1..] + b;
      RunLengthAppend(a[1..], b);
    }
  }

  /** Cutting at a separator: the lines of `a`, a separator, then `b` are the
      lines of `a` followed by the lines of `b`; no line spans a separator. */
  lemma {:induction false} SplitAtSeparator(a: string, c: char, b: string)
    requires IsSeparator(c)
    ensures SplitNonEmpty(a + [c] + b) == SplitNonEmpty(a) + SplitNonEmpty(b)
    decreases |a|
  {
    var s := a + [c] + b;
    if a == [] {
      assert s[1..] == b;
    } else if IsSeparator(a[0]) {
      assert s[1..] == a[1..] + [c] + b;
      SplitAtSeparator(a[1..], c, b);
    } else {
      var n := RunLength(a);
      RunLengthAppend(a, [c] + b);
      assert s == a + ([c] + b);
      assert s[..n] == a[..n];
      assert s[n..] == a[n..] + [c] + b;
      SplitAtSeparator(a[n..], c, b);
    }
  }

  /** A text that ends with a separator splits independently of what follows. */
  lemma SplitAfterTerminator(a: string, b: string)
    requires a != [] && IsSeparator(a[|a| - 1])
    ensures SplitNonEmpty(a + b) == SplitNonEmpty(a) + SplitNonEmpty(b)
  {
    var a' := a[..|a| - 1];
    var c := a[|a| - 1];
    assert a == a' + [c] + [];
    assert a + b == a' + [c] + b;
    SplitAtSeparator(a', c, b);
    SplitAtSeparator(a', c, []);
  }

  /** Each line followed by a line feed, as the renderer lays them out. */
  function JoinLines(lines: seq<string>): string
  {
    if lines == [] then [] else JoinLines(lines[..|lines| - 1]) + lines[|lines| - 1] + "\n"
  }

  lemma {:induction false} JoinLinesAppend(a: seq<string>, b: seq<string>)
    ensures JoinLines(a + b) == JoinLines(a) + JoinLines(b)
    decreases |b|
  {
    if b == [] {
      assert a + b == a;
    } else {
      var b' := b[..|b| - 1];
      assert (a + b)[..|a + b| - 1] == a + b';
      JoinLinesAppend(a, b');
    }
  }

  /** Splitting the text made of non-empty, separator-free lines, each ended by
      a line feed, gives back exactly those lines in order. */
  lemma {:induction false} SplitJoinLines(lines: seq<string>)
    requires forall k :: 0 <= k < |lines| ==> lines[k] != [] && SeparatorFree(lines[k])
    ensures SplitNonEmpty(JoinLines(lines)) == lines
    decreases |lines|
  {
    if lines != [] {
      var init := lines[..|lines| - 1];
      var last := lines[|lines| - 1];
      var j := JoinLines(init);
      SplitJoinLines(init);
      assert JoinLines(lines) == (j + last) + ['\n'] + [];
      SplitAtSeparator(j + last, '\n', []);
      if j == [] {
        assert j + last == last;
      } else {
        SplitAfterTerminator(j, last);
      }
      SplitSeparatorFree(last);
      assert lines == init + [last];
    }
  }
}
