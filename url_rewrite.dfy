/** `Regex.Replace(line, @"(https?://[^\s]+)", evaluator)`: every leftmost,
    non-overlapping match of the URL pattern is replaced by a link followed by
    a copy-to-clipboard button, both carrying the matched text verbatim. */
module UrlRewrite {
  import opened Strings

  /** The class `\s` of .NET regular expressions: `[\f\n\r\t\v\x85\p{Z}]`. */
  predicate IsWhitespace(c: char)
  {
    || c == ' ' || c == '\t' || c == '\n' || c == '\U{000B}' || c == '\U{000C}' || c == '\r'
    || c == '\U{0085}' || c == '\U{00A0}' || c == '\U{1680}'
    || ('\U{2000}' <= c <= '\U{200A}')
    || c == '\U{2028}' || c == '\U{2029}' || c == '\U{202F}' || c == '\U{205F}' || c == '\U{3000}'
  }

  predicate NoWhitespace(s: string)
  {
    forall i :: 0 <= i < |s| ==> !IsWhitespace(s[i])
  }

  const Https := "https://"
  const Http := "http://"

  /** `u` is a whole match of `https?://[^\s]+`: a scheme, then at least one
      character, none of them whitespace. */
  predicate IsUrl(u: string)
  {
    || (StartsWith(u, Https) && |u| > |Https| && NoWhitespace(u[|Https|..]))
    || (StartsWith(u, Http) && |u| > |Http| && NoWhitespace(u[|Http|..]))
  }

  /** Length of the longest whitespace-free prefix of `s`. */
  function NonSpaceRun(s: string): (n: nat)
    ensures n <= |s|
    ensures NoWhitespace(s[..n])
    ensures n < |s| ==> IsWhitespace(s[n])
  {
    if s == [] || IsWhitespace(s[0]) then 0
    else
      var m := NonSpaceRun(s[1..]);
      assert s[..m + 1] == [s[0]] + s[1..][..m];
      1 + m
  }

  /** Length of the match of the pattern that starts at the first character of
      `s` (`[^\s]+` is greedy), or 0 when no match starts there. */
  function MatchLength(s: string): (n: nat)
    ensures n <= |s|
  {
    var scheme := SchemeLength(s);
    if scheme == 0 || scheme == |s| || IsWhitespace(s[scheme]) then 0
    else scheme + NonSpaceRun(s[scheme..])
  }

  /** Length of the scheme `s` begins with: 8 for `https://`, 7 for `http://`,
      0 for neither. */
  function SchemeLength(s: string): nat
  {
    if StartsWith(s, Https) then |Https| else if StartsWith(s, Http) then |Http| else 0
  }

  /** `MatchLength` is the regular expression's match at `s[0]`: a positive
      length is a match that no longer prefix of `s` extends, and 0 means that
      no prefix of `s` is a match. */
  lemma MatchLengthIsMatch(s: string)
    ensures MatchLength(s) > 0 ==> IsUrl(s[..MatchLength(s)])
    ensures MatchLength(s) > 0 ==> MatchLength(s) == |s| || IsWhitespace(s[MatchLength(s)])
    ensures MatchLength(s) > 0 ==> forall k :: MatchLength(s) < k <= |s| ==> !IsUrl(s[..k])
    ensures MatchLength(s) == 0 ==> forall k :: 0 < k <= |s| ==> !IsUrl(s[..k])
  {
    var scheme := SchemeLength(s);
    var n := MatchLength(s);
    if n == 0 {
      NoMatchHere(s);
    } else {
      assert s[..n][scheme..] == s[scheme..][..n - scheme];
      forall k | n < k <= |s| ensures !IsUrl(s[..k]) {
        var u := s[..k];
        if |u| > |Https| {
          assert u[|Https|..][n - |Https|] == s[n];
        }
        assert u[|Http|..][n - |Http|] == s[n];
      }
    }
  }

  /** No match starts at `s[0]` when neither scheme is followed there by a
      non-whitespace character. */
  lemma NoMatchHere(s: string)
    requires !StartsWith(s, Https) || |s| == |Https| || IsWhitespace(s[|Https|])
    requires StartsWith(s, Https) || !StartsWith(s, Http) || |s| == |Http| || IsWhitespace(s[|Http|])
    ensures forall k :: 0 < k <= |s| ==> !IsUrl(s[..k])
  {
    forall k | 0 < k <= |s| ensures !IsUrl(s[..k]) {
      var u := s[..k];
      if |u| > |Https| {
        assert u[..|Https|] == s[..|Https|];
        assert u[|Https|..][0] == s[|Https|];
      }
      if |u| > |Http| {
        assert u[..|Http|] == s[..|Http|];
        assert u[|Http|..][0] == s[|Http|];
        assert u[4] == s[4];
      }
    }
  }

  /** The text the match evaluator returns for the matched text `u`: a link
      to `u` showing `u`, a space, and a button that copies `u`. */
  function Anchor(u: string): string
  {
    LinkOpen + u + LinkMiddle + u + ButtonOpen + u + ButtonClose
  }

  const LinkOpen := "<a class='url' href='"
  const LinkMiddle := "'>"
  const ButtonOpen := "</a> <span class='copy-btn' " + "onclick=\"copyToClipboard('"
  const ButtonClose := "')\">\U{1F4CB}</span>"

  /** Scan from the left; where a match starts, replace it and resume after
      it; elsewhere copy one character and try the next position. */
  function ReplaceUrls(s: string): string
    decreases |s|
  {
    if s == [] then []
    else
      var n := MatchLength(s);
      if n > 0 then Anchor(s[..n]) + ReplaceUrls(s[n..])
      else [s[0]] + ReplaceUrls(s[1..])
  }

  /** A match of the pattern starts at index `i` of `s`. */
  predicate MatchStartsAt(s: string, i: nat)
    requires i <= |s|
  {
    MatchLength(s[i..]) > 0
  }

  /** No match of the pattern starts before index `m` of `s`. */
  predicate NoMatchBefore(s: string, m: nat)
    requires m <= |s|
  {
    forall i :: 0 <= i < m ==> !MatchStartsAt(s, i)
  }

  /** Text in which no match starts is copied unchanged, in order, ahead of
      the rewrite of what follows it. */
  lemma {:induction false} ReplaceUrlsPlain(s: string, m: nat)
    requires m <= |s| && NoMatchBefore(s, m)
    ensures ReplaceUrls(s) == s[..m] + ReplaceUrls(s[m..])
    decreases m
  {
    if m == 0 {
      assert s[..m] == [] && s[m..] == s;
    } else {
      var s' := s[1..];
      NoMatchBeforeTail(s, m);
      ReplaceUrlsCopies(s);
      ReplaceUrlsPlain(s', m - 1);
      DropFirst(s, m);
      AppendAssoc([s[0]], s'[..m - 1], ReplaceUrls(s[m..]));
    }
  }

  lemma NoMatchBeforeTail(s: string, m: nat)
    requires 0 < m <= |s| && NoMatchBefore(s, m)
    ensures MatchLength(s) == 0
    ensures NoMatchBefore(s[1..], m - 1)
  {
    assert !MatchStartsAt(s, 0) && s[0..] == s;
    var s' := s[1..];
    forall i | 0 <= i < m - 1 ensures !MatchStartsAt(s', i) {
      assert !MatchStartsAt(s, i + 1);
      assert s'[i..] == s[i + 1..];
    }
  }

  lemma DropFirst(s: string, m: nat)
    requires 0 < m <= |s|
    ensures s[1..][m - 1..] == s[m..]
    ensures s[..m] == [s[0]] + s[1..][..m - 1]
  {
  }

  /** Where no match starts, one character is copied. */
  lemma ReplaceUrlsCopies(s: string)
    requires s != [] && MatchLength(s) == 0
    ensures ReplaceUrls(s) == [s[0]] + ReplaceUrls(s[1..])
  {
  }

  /** A whole match followed by whitespace or by the end of the text is
      replaced by its anchor, and the scan resumes right after it. */
  lemma ReplaceUrlsMatch(u: string, t: string)
    requires IsUrl(u)
    requires t == [] || IsWhitespace(t[0])
    ensures ReplaceUrls(u + t) == Anchor(u) + ReplaceUrls(t)
  {
    var s := u + t;
    MatchLengthOfUrl(u, t);
    assert s[..|u|] == u && s[|u|..] == t;
    ReplaceUrlsReplaces(s);
  }

  /** Where a match starts, it is replaced and the scan resumes after it. */
  lemma ReplaceUrlsReplaces(s: string)
    requires MatchLength(s) > 0
    ensures ReplaceUrls(s) == Anchor(s[..MatchLength(s)]) + ReplaceUrls(s[MatchLength(s)..])
  {
  }

  /** The match at the start of a URL followed by whitespace or the end is
      exactly that URL. */
  lemma MatchLengthOfUrl(u: string, t: string)
    requires IsUrl(u)
    requires t == [] || IsWhitespace(t[0])
    ensures MatchLength(u + t) == |u|
  {
    var s := u + t;
    var scheme := if StartsWith(u, Https) then |Https| else |Http|;
    assert StartsWith(s, Https) <==> StartsWith(u, Https) by {
      assert s[..|Https|] == u[..|Https|];
    }
    assert StartsWith(s, Http) <==> StartsWith(u, Http) by {
      assert s[..|Http|] == u[..|Http|];
    }
    assert SchemeLength(s) == scheme;
    if StartsWith(u, Https) {
      assert u[4] == 's';
      assert !StartsWith(u, Http);
    }
    assert |u| > scheme && NoWhitespace(u[scheme..]);
    assert s[scheme] == u[scheme..][0];
    DropAppend(u, t, scheme);
    NonSpaceRunOfWord(u[scheme..], t);
  }

  lemma {:induction false} NonSpaceRunOfWord(w: string, t: string)
    requires NoWhitespace(w)
    requires t == [] || IsWhitespace(t[0])
    ensures NonSpaceRun(w + t) == |w|
    decreases |w|
  {
    if w == [] {
      assert w + t == t;
    } else {
      assert (w + t)[1..] == w[1..] + t;
      NonSpaceRunOfWord(w[1..], t);
    }
  }

  /** A text that contains neither scheme is left unchanged. */
  lemma ReplaceUrlsNoScheme(s: string)
    requires !Contains(s, Http) && !Contains(s, Https)
    ensures ReplaceUrls(s) == s
  {
    forall i | 0 <= i < |s| ensures !MatchStartsAt(s, i) {
      var t := s[i..];
      if StartsWith(t, Https) {
        assert t[..|Https|] == s[i..i + |Https|];
        ContainsAt(s, Https, i);
      }
      if StartsWith(t, Http) {
        assert t[..|Http|] == s[i..i + |Http|];
        ContainsAt(s, Http, i);
      }
    }
    ReplaceUrlsPlain(s, |s|);
    assert s[..|s|] == s;
  }

  /** Text without a scheme, ending at whitespace, then a URL ending at
      whitespace or at the end: the text is copied, the URL is replaced by its
      anchor, and the scan goes on with what follows. */
  lemma ReplaceUrlsAfterPlainText(p: string, u: string, t: string)
    requires !Contains(p, Http) && !Contains(p, Https)
    requires p == [] || IsWhitespace(p[|p| - 1])
    requires IsUrl(u)
    requires t == [] || IsWhitespace(t[0])
    ensures ReplaceUrls(p + u + t) == p + Anchor(u) + ReplaceUrls(t)
  {
    PlainTextCopied(p, u + t);
    ReplaceUrlsMatch(u, t);
    AppendAssoc(p, u, t);
    AppendAssoc(p, Anchor(u), ReplaceUrls(t));
  }

  lemma PlainTextCopied(p: string, r: string)
    requires !Contains(p, Http) && !Contains(p, Https)
    requires p == [] || IsWhitespace(p[|p| - 1])
    ensures ReplaceUrls(p + r) == p + ReplaceUrls(r)
  {
    var s := p + r;
    forall i | 0 <= i < |p| ensures !MatchStartsAt(s, i) {
      NoMatchInPlainText(p, r, i);
    }
    ReplaceUrlsPlain(s, |p|);
    assert s[..|p|] == p && s[|p|..] == r;
  }

  /** No match starts inside text that contains no scheme and ends at
      whitespace, whatever follows it. */
  lemma NoMatchInPlainText(p: string, r: string, i: nat)
    requires !Contains(p, Http) && !Contains(p, Https)
    requires i < |p| && IsWhitespace(p[|p| - 1])
    ensures !MatchStartsAt(p + r, i)
  {
    var s := p + r;
    var w := s[i..];
    SchemeHasNoWhitespace();
    if StartsWith(w, Https) {
      SchemeInside(p, r, i, Https);
      ContainsAt(p, Https, i);
    }
    if StartsWith(w, Http) {
      SchemeInside(p, r, i, Http);
      ContainsAt(p, Http, i);
    }
  }

  /** A scheme that starts inside `p` ends inside it, for `p` ends at
      whitespace and no scheme holds any. */
  lemma SchemeInside(p: string, r: string, i: nat, scheme: string)
    requires i < |p| && IsWhitespace(p[|p| - 1])
    requires NoWhitespace(scheme)
    requires StartsWith((p + r)[i..], scheme)
    ensures OccursAt(p, scheme, i)
  {
    var w := (p + r)[i..];
    var q := |p| - 1 - i;
    assert w[q] == p[|p| - 1];
    assert i + |scheme| <= |p|;
    assert p[i..i + |scheme|] == w[..|scheme|];
  }

  lemma SchemeHasNoWhitespace()
    ensures NoWhitespace(Https) && NoWhitespace(Http)
  {
  }
}
