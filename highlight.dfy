/** What the renderer makes of one line (Plugin.cs lines 185-219): a keyword
    classification whose last matching test wins, wrapped in a span around
    the original line, unless the line contains `https://`, in which case the
    line is replaced by its URL rewrite. */
module Highlight {
  import opened Wrappers
  import opened Strings
  import opened UrlRewrite

  /** The four highlight categories, named after their CSS classes. */
  datatype Category = GitCommand | FileChange | BranchInfo | StatusInfo

  function ClassName(c: Category): string
  {
    match c
    case GitCommand => "git-command"
    case FileChange => "file-change"
    case BranchInfo => "branch-info"
    case StatusInfo => "status-info"
  }

  /** The keywords whose presence selects each category. */
  function Keywords(c: Category): seq<string>
  {
    match c
    case GitCommand => ["git"]
    case FileChange => ["modified", "insertions", "deletion"]
    case BranchInfo => ["branch"]
    case StatusInfo => ["Your branch", "can be fast-forwarded"]
  }

  /** The order in which the renderer tests the categories. */
  const Order: seq<Category> := [GitCommand, FileChange, BranchInfo, StatusInfo]

  /** Position of a category in `Order`. */
  function Rank(c: Category): nat
  {
    match c
    case GitCommand => 0
    case FileChange => 1
    case BranchInfo => 2
    case StatusInfo => 3
  }

  predicate ContainsAny(line: string, words: seq<string>)
  {
    exists j :: 0 <= j < |words| && Contains(line, words[j])
  }

  /** The test for category `c` succeeds on `line`. */
  predicate Matches(line: string, c: Category)
  {
    ContainsAny(line, Keywords(c))
  }

  /** Runs the tests of `cats` in order; each successful test replaces the
      category chosen so far. */
  function Classify(line: string, cats: seq<Category>, chosen: Option<Category>): Option<Category>
    decreases |cats|
  {
    if cats == [] then chosen
    else Classify(line, cats[1..], if Matches(line, cats[0]) then Some(cats[0]) else chosen)
  }

  /** The category whose span the line receives, if any. */
  function CategoryOf(line: string): Option<Category>
  {
    Classify(line, Order, None)
  }

  /** The span the renderer puts around a line of category `c`. */
  function Wrap(c: Category, line: string): string
  {
    "<span class='" + ClassName(c) + "'>" + line + "</span>"
  }

  /** The line after the keyword tests: unchanged, or the original line in
      the span of its category. */
  function Highlighted(line: string): string
  {
    match CategoryOf(line)
    case None => line
    case Some(c) => Wrap(c, line)
  }

  /** The line as it is written into the document. */
  function Emitted(line: string): string
  {
    if Contains(line, Https) then ReplaceUrls(line) else Highlighted(line)
  }

  /** The keyword table spells out the tests the renderer performs. */
  lemma KeywordTests(line: string)
    ensures Matches(line, GitCommand) == Contains(line, "git")
    ensures Matches(line, FileChange)
            == (Contains(line, "modified") || Contains(line, "insertions") || Contains(line, "deletion"))
    ensures Matches(line, BranchInfo) == Contains(line, "branch")
    ensures Matches(line, StatusInfo)
            == (Contains(line, "Your branch") || Contains(line, "can be fast-forwarded"))
  {
    assert Keywords(GitCommand)[0] == "git";
    assert Keywords(FileChange)[0] == "modified";
    assert Keywords(FileChange)[1] == "insertions";
    assert Keywords(FileChange)[2] == "deletion";
    assert Keywords(BranchInfo)[0] == "branch";
    assert Keywords(StatusInfo)[0] == "Your branch";
    assert Keywords(StatusInfo)[1] == "can be fast-forwarded";
  }

  /** Overwriting in test order is the same as taking the latest matching
      category: status-info, then branch-info, then file-change, then
      git-command. */
  lemma CategoryPriority(line: string)
    ensures CategoryOf(line)
            == if Matches(line, StatusInfo) then Some(StatusInfo)
               else if Matches(line, BranchInfo) then Some(BranchInfo)
               else if Matches(line, FileChange) then Some(FileChange)
               else if Matches(line, GitCommand) then Some(GitCommand)
               else None
  {
  }

  /** Last match wins: a line gets category `c` exactly when the test for `c`
      succeeds and every test after it in `Order` fails. */
  lemma LastMatchWins(line: string, c: Category)
    ensures CategoryOf(line) == Some(c)
            <==> Matches(line, c) && forall d :: Rank(d) > Rank(c) ==> !Matches(line, d)
  {
    CategoryPriority(line);
    assert Rank(StatusInfo) == 3 && Rank(BranchInfo) == 2 && Rank(FileChange) == 1;
  }

  /** A line gets no span exactly when every test fails. */
  lemma NoCategoryIff(line: string)
    ensures CategoryOf(line) == None <==> forall c :: !Matches(line, c)
  {
    CategoryPriority(line);
  }

  /** A line mentioning "Your branch" also passes the branch-info test, and
      still ends up as status-info. */
  lemma YourBranchIsStatusInfo(line: string)
    requires Contains(line, "Your branch")
    ensures Matches(line, BranchInfo)
    ensures CategoryOf(line) == Some(StatusInfo)
    ensures !Contains(line, Https) ==> Emitted(line) == Wrap(StatusInfo, line)
  {
    KeywordTests(line);
    CategoryPriority(line);
    assert OccursAt("Your branch", "branch", 5);
    ContainsAt("Your branch", "branch", 5);
    ContainsTransitive(line, "Your branch", "branch");
  }

  /** A line with none of the keywords and no `https://` is written out
      unchanged. */
  lemma PlainLineUnchanged(line: string)
    requires !Contains(line, "git") && !Contains(line, "modified") && !Contains(line, "insertions")
    requires !Contains(line, "deletion") && !Contains(line, "branch")
    requires !Contains(line, "can be fast-forwarded") && !Contains(line, Https)
    ensures Emitted(line) == line
  {
    KeywordTests(line);
    CategoryPriority(line);
    if Contains(line, "Your branch") {
      YourBranchIsStatusInfo(line);
    }
  }

  /** A line of `git remote -v`: the URL becomes a link with a copy button
      and the text around it is kept. A URL on github.com contains "git", yet
      the line receives no span, because it contains `https://`. */
  lemma RemoteLineLinked(u: string)
    requires IsUrl(u) && StartsWith(u, Https)
    ensures Contains(u, "git") ==> Matches("origin\t" + u + " (fetch)", GitCommand)
    ensures Emitted("origin\t" + u + " (fetch)") == "origin\t" + Anchor(u) + " (fetch)"
  {
    var p, t := "origin\t", " (fetch)";
    var line := p + u + t;
    NotContainsMissingChar(p, Http, 4);
    NotContainsMissingChar(p, Https, 5);
    NotContainsMissingChar(t, Http, 4);
    NotContainsMissingChar(t, Https, 5);
    ReplaceUrlsNoScheme(t);
    ReplaceUrlsAfterPlainText(p, u, t);
    InnerText(p, u, t);
    ContainsTransitive(line, u, Https);
    if Contains(u, "git") {
      ContainsTransitive(line, u, "git");
      KeywordTests(line);
    }
  }

  lemma InnerText(p: string, u: string, t: string)
    ensures Contains(p + u + t, u)
  {
    assert OccursAt(p + u + t, u, |p|);
    ContainsAt(p + u + t, u, |p|);
  }

  /** A line whose URLs all use `http://` keeps them as plain text: each is
      a match of the URL pattern, yet the line only receives the keyword
      treatment, because the rewrite is applied only to lines that contain
      `https://`. */
  lemma HttpOnlyLineNotLinked(p: string, u: string, t: string)
    requires IsUrl(u) && StartsWith(u, Http)
    requires !Contains(p + u + t, Https)
    ensures MatchLength(u) == |u|
    ensures Emitted(p + u + t) == Highlighted(p + u + t)
  {
    var e: string := [];
    assert u + e == u;
    MatchLengthOfUrl(u, e);
  }

  /** A line whose only URL uses `http://` is a match of the URL pattern but
      is never rewritten, because the rewrite is applied only to lines that
      contain `https://`. */
  lemma HttpLineNotLinked(line: string)
    requires line == "http://x"
    ensures IsUrl(line)
    ensures Emitted(line) == line
  {
    assert StartsWith(line, Http) && NoWhitespace(line[|Http|..]);
    HttpLineHasNoKeyword(line);
    HttpLineHasNoSecureScheme(line);
    PlainLineUnchanged(line);
  }

  lemma HttpLineHasNoKeyword(line: string)
    requires line == "http://x"
    ensures !Contains(line, "git") && !Contains(line, "modified") && !Contains(line, "insertions")
    ensures !Contains(line, "deletion")
  {
    NotContainsMissingChar(line, "git", 0);
    NotContainsMissingChar(line, "modified", 0);
    NotContainsMissingChar(line, "insertions", 0);
    NotContainsMissingChar(line, "deletion", 0);
  }

  lemma HttpLineHasNoSecureScheme(line: string)
    requires line == "http://x"
    ensures !Contains(line, "branch") && !Contains(line, "can be fast-forwarded") && !Contains(line, Https)
  {
    NotContainsMissingChar(line, "branch", 0);
    NotContainsMissingChar(line, "can be fast-forwarded", 0);
    NotContainsMissingChar(line, Https, 4);
  }
}
