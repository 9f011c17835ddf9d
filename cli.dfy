/**
  * The command-line helpers of the review tool (cmd/main/main.go): the SHA
  * and pull-request argument checks, the rendering of review suggestions,
  * the command line's own copy of content sampling, the rule checks of
  * `validate-config` that collect every issue, and the `diff` command's
  * reading of its arguments.
  */
module Cli {
  import opened Wrappers
  import opened Text
  import opened Config
  import opened Matcher
  import opened GitRange

  // ---------------------------------------------------------------------------
  // isValidSHA and GitHubReviewPRCmd.validate
  // ---------------------------------------------------------------------------

  /** A character of the class `[a-f0-9]`. */
  predicate IsHexLower(c: char) {
    '0' <= c <= '9' || 'a' <= c <= 'f'
  }

  /** Every character of `s` is in `[a-f0-9]`. */
  function AllHexLower(s: string): (b: bool)
    ensures b <==> forall k :: 0 <= k < |s| ==> IsHexLower(s[k])
  {
    if |s| == 0 then true
    else
      var b := AllHexLower(s[1..]);
      assert forall k :: 1 <= k < |s| ==> s[k] == s[1..][k - 1];
      IsHexLower(s[0]) && b
  }

  /** `isValidSHA`: the whole string matches `^[a-f0-9]{4,40}$`. */
  function IsValidSha(sha: string): (b: bool)
    ensures b <==> 4 <= |sha| <= 40 && forall k :: 0 <= k < |sha| ==> IsHexLower(sha[k])
  {
    4 <= |sha| <= 40 && AllHexLower(sha)
  }

  /** The arguments of `github review-pr` that `validate` checks. */
  datatype ReviewPrArgs = ReviewPrArgs(pr: int, base: string, head: string)

  datatype ReviewPrError = InvalidPrNumber(pr: int) | InvalidBaseSha(sha: string) | InvalidHeadSha(sha: string)

  /**
    * `validate`: a negative pull-request number is refused first, then a
    * base and then a head that is given but is not a SHA; empty SHAs are
    * accepted, to be detected later.
    */
  function ValidateReviewPr(a: ReviewPrArgs): (r: Result<(), ReviewPrError>)
    ensures r.Ok? <==> a.pr >= 0 && (a.base == "" || IsValidSha(a.base)) && (a.head == "" || IsValidSha(a.head))
    ensures r == Err(InvalidPrNumber(a.pr)) <==> a.pr < 0
    ensures r == Err(InvalidBaseSha(a.base)) <==> a.pr >= 0 && a.base != "" && !IsValidSha(a.base)
    ensures r == Err(InvalidHeadSha(a.head)) <==>
      a.pr >= 0 && (a.base == "" || IsValidSha(a.base)) && a.head != "" && !IsValidSha(a.head)
  {
    if a.pr < 0 then Err(InvalidPrNumber(a.pr))
    else if a.base != "" && !IsValidSha(a.base) then Err(InvalidBaseSha(a.base))
    else if a.head != "" && !IsValidSha(a.head) then Err(InvalidHeadSha(a.head))
    else Ok(())
  }

  /** A SHA contains no `..`. */
  lemma ShaHasNoDotDot(sha: string)
    requires IsValidSha(sha)
    ensures !Contains(sha, DotDot)
  {
    forall j: nat ensures !OccursAt(sha, DotDot, j) {
      if j + 2 <= |sha| {
        assert sha[j..j + 2][0] == sha[j];
      }
    }
  }

  /** Accepted base and head SHAs joined by `..` form a range that parses back into them. */
  lemma ValidatedShasParse(a: ReviewPrArgs)
    requires ValidateReviewPr(a).Ok? && a.base != "" && a.head != ""
    ensures ParseGitRange(a.base + DotDot + a.head) == (a.base, a.head)
  {
    ShaHasNoDotDot(a.head);
    JoinedRefsParse(a.base, a.head);
  }

  // ---------------------------------------------------------------------------
  // buildSuggestionBody and formatSuggestionsToMarkdown
  // ---------------------------------------------------------------------------

  /** A review suggestion as the reviewer returns it. */
  datatype Suggestion = Suggestion(id: string, title: string, body: string, original: string, suggestion: string)

  /** A backslash followed by `n`: a line break the reviewer wrote escaped. */
  const EscapedNewline: string := "\\n"

  /** No backslash in `s` is directly followed by `n`. */
  predicate Unescaped(s: string) {
    forall j :: 0 <= j < |s| - 1 ==> !(s[j] == '\\' && s[j + 1] == 'n')
  }

  /** `strings.ReplaceAll(s, "\\n", "\n")`: every escaped line break made a real one. */
  function Unescape(s: string): string {
    ReplaceAll(s, EscapedNewline, "\n")
  }

  lemma UnescapedIff(s: string)
    ensures Unescaped(s) <==> !Contains(s, EscapedNewline)
  {
    if Contains(s, EscapedNewline) {
      var j := Index(s, EscapedNewline).value;
      assert s[j..j + 2][0] == s[j] && s[j..j + 2][1] == s[j + 1];
    }
    if !Unescaped(s) {
      var j :| 0 <= j < |s| - 1 && s[j] == '\\' && s[j + 1] == 'n';
      assert s[j..j + 2] == EscapedNewline;
      assert OccursAt(s, EscapedNewline, j);
    }
  }

  /**
    * Two unescaped strings stay unescaped when put together, unless the
    * first ends in a backslash and the second starts with `n`.
    */
  lemma ConcatUnescaped(a: string, b: string)
    requires Unescaped(a) && Unescaped(b)
    requires |a| == 0 || |b| == 0 || a[|a| - 1] != '\\' || b[0] != 'n'
    ensures Unescaped(a + b)
  {
    var s := a + b;
    forall j | 0 <= j < |s| - 1 ensures !(s[j] == '\\' && s[j + 1] == 'n') {
      if j + 1 < |a| {
        assert s[j] == a[j] && s[j + 1] == a[j + 1];
      } else if j >= |a| {
        assert s[j] == b[j - |a|] && s[j + 1] == b[j + 1 - |a|];
      }
    }
  }

  lemma {:induction false} JoinUnescaped(ps: seq<string>)
    requires forall k :: 0 <= k < |ps| ==> Unescaped(ps[k])
    ensures Unescaped(Join(ps, "\n"))
  {
    if |ps| > 1 {
      JoinUnescaped(ps[1..]);
      ConcatUnescaped(ps[0], "\n");
      ConcatUnescaped(ps[0] + "\n", Join(ps[1..], "\n"));
    }
  }

  /** After unescaping, no escaped line break is left. */
  lemma UnescapeLeavesNone(s: string)
    ensures Unescaped(Unescape(s))
    ensures !Contains(Unescape(s), EscapedNewline)
  {
    var ps := Split(s, EscapedNewline);
    SplitPiecesFree(s, EscapedNewline);
    forall k | 0 <= k < |ps| ensures Unescaped(ps[k]) {
      UnescapedIff(ps[k]);
    }
    JoinUnescaped(ps);
    UnescapedIff(Unescape(s));
  }

  /** Unescaping leaves text without escaped line breaks as it is, so twice is once. */
  lemma UnescapeIdempotent(s: string)
    ensures Unescape(Unescape(s)) == Unescape(s)
  {
    UnescapeLeavesNone(s);
    ReplaceAllAbsent(Unescape(s), EscapedNewline, "\n");
  }

  /** The text between the body and the original code. */
  const OpenOriginal: string := "\n\n```original\n"

  /** The text between the original code and the suggested code. */
  const OpenSuggestion: string := "\n```\n```suggestion\n"

  const CloseFence: string := "\n```"

  /**
    * The body of a suggestion: its own text unescaped, followed, when it
    * has original or suggested code, by an `original` and a `suggestion`
    * fenced block holding each unescaped.
    */
  function SuggestionBody(s: Suggestion): string {
    if s.original == "" && s.suggestion == "" then Unescape(s.body)
    else Unescape(s.body) + OpenOriginal + Unescape(s.original) + OpenSuggestion + Unescape(s.suggestion) + CloseFence
  }

  /**
    * `buildSuggestionBody`, writing piece by piece into a builder (two
    * literal writes in a row are one write here).
    */
  method BuildSuggestionBody(s: Suggestion) returns (body: string)
    ensures body == SuggestionBody(s)
  {
    body := Unescape(s.body);
    if s.original != "" || s.suggestion != "" {
      body := body + OpenOriginal;
      body := body + Unescape(s.original);
      body := body + OpenSuggestion;
      body := body + Unescape(s.suggestion);
      body := body + CloseFence;
    }
  }

  lemma FencesUnescaped()
    ensures Unescaped(OpenOriginal) && Unescaped(OpenSuggestion) && Unescaped(CloseFence)
  {
    forall j | 0 <= j < |OpenOriginal| ensures OpenOriginal[j] != '\\' {
    }
    forall j | 0 <= j < |OpenSuggestion| ensures OpenSuggestion[j] != '\\' {
    }
  }

  /**
    * A suggestion's body holds no escaped line break, and without code it
    * is exactly the unescaped text; with code it starts with that text
    * and the opening of the `original` block.
    */
  lemma SuggestionBodyShape(s: Suggestion)
    ensures Unescaped(SuggestionBody(s))
    ensures s.original == "" && s.suggestion == "" ==> SuggestionBody(s) == Unescape(s.body)
    ensures s.original != "" || s.suggestion != "" ==> HasPrefix(SuggestionBody(s), Unescape(s.body) + OpenOriginal)
  {
    UnescapeLeavesNone(s.body);
    if s.original != "" || s.suggestion != "" {
      UnescapeLeavesNone(s.original);
      UnescapeLeavesNone(s.suggestion);
      FencesUnescaped();
      var a := Unescape(s.body) + OpenOriginal;
      ConcatUnescaped(Unescape(s.body), OpenOriginal);
      var b := a + Unescape(s.original);
      ConcatUnescaped(a, Unescape(s.original));
      var c := b + OpenSuggestion;
      ConcatUnescaped(b, OpenSuggestion);
      var d := c + Unescape(s.suggestion);
      ConcatUnescaped(c, Unescape(s.suggestion));
      ConcatUnescaped(d, CloseFence);
      assert SuggestionBody(s)[..|a|] == a;
    }
  }

  /** What an empty review is rendered as. */
  const NoIssues: string := "\U{2705} No issues found."

  function ReviewHeader(filename: string): string {
    "# \U{1F372} miso Code review for " + filename + "\n\n"
  }

  /** One suggestion's section: its title as a heading, then its body through the diff formatter. */
  function Section(s: Suggestion, format: string -> string): string {
    "## " + s.title + "\n" + format(SuggestionBody(s)) + "\n\n"
  }

  /** The review as written after the given suggestions: the heading, then their sections in order. */
  function Written(ss: seq<Suggestion>, filename: string, format: string -> string): string {
    if |ss| == 0 then ReviewHeader(filename)
    else Written(ss[..|ss| - 1], filename, format) + Section(ss[|ss| - 1], format)
  }

  /**
    * The review of a file: the no-issues line for no suggestions, else a
    * heading naming the file and then one section per suggestion.
    */
  function FormatSuggestions(ss: seq<Suggestion>, filename: string, format: string -> string): string {
    if |ss| == 0 then NoIssues else Written(ss, filename, format)
  }

  /** `formatSuggestionsToMarkdown`, with the diff formatter as a parameter. */
  method FormatSuggestionsToMarkdown(ss: seq<Suggestion>, filename: string, format: string -> string)
    returns (md: string)
    ensures md == FormatSuggestions(ss, filename, format)
  {
    if |ss| == 0 {
      return NoIssues;
    }
    md := ReviewHeader(filename);
    var i := 0;
    while i < |ss|
      invariant 0 <= i <= |ss|
      invariant md == Written(ss[..i], filename, format)
    {
      var body := BuildSuggestionBody(ss[i]);
      md := md + ("## " + ss[i].title + "\n" + format(body) + "\n\n");
      assert ss[..i + 1][..i] == ss[..i];
      i := i + 1;
    }
    assert ss[..|ss|] == ss;
  }

  lemma PrefixExtend<T>(a: seq<T>, b: seq<T>, p: seq<T>)
    requires HasPrefix(a, p)
    ensures HasPrefix(a + b, p)
  {
    assert (a + b)[..|p|] == a[..|p|];
  }

  /** What is written for some suggestions stays the start of what is written for more. */
  lemma {:induction false} WrittenPrefix(a: seq<Suggestion>, b: seq<Suggestion>, filename: string, format: string -> string)
    ensures HasPrefix(Written(a + b, filename, format), Written(a, filename, format))
    decreases |b|
  {
    if |b| == 0 {
      assert a + b == a;
    } else {
      var init := b[..|b| - 1];
      assert (a + b)[..|a + b| - 1] == a + init;
      WrittenPrefix(a, init, filename, format);
      PrefixExtend(Written(a + init, filename, format), Section(b[|b| - 1], format), Written(a, filename, format));
    }
  }

  /** The no-issues line is given exactly when there are no suggestions; a review starts with its heading. */
  lemma NoIssuesIffEmpty(ss: seq<Suggestion>, filename: string, format: string -> string)
    ensures FormatSuggestions(ss, filename, format) == NoIssues <==> |ss| == 0
    ensures |ss| > 0 ==> HasPrefix(FormatSuggestions(ss, filename, format), ReviewHeader(filename))
  {
    if |ss| > 0 {
      WrittenPrefix([], ss, filename, format);
      assert [] + ss == ss;
      assert FormatSuggestions(ss, filename, format)[0] == ReviewHeader(filename)[0] == '#';
      assert NoIssues[0] == '\U{2705}';
    }
  }

  /**
    * Every suggestion gets its own section in the review, right after the
    * sections of the suggestions before it.
    */
  lemma SectionOfEach(before: seq<Suggestion>, s: Suggestion, after: seq<Suggestion>, filename: string,
                      format: string -> string)
    ensures HasPrefix(FormatSuggestions(before + [s] + after, filename, format),
      Written(before, filename, format) + Section(s, format))
  {
    var upto := before + [s];
    assert upto[..|upto| - 1] == before;
    WrittenPrefix(upto, after, filename, format);
  }

  // ---------------------------------------------------------------------------
  // getContentToScan (the command line's copy)
  // ---------------------------------------------------------------------------

  /** The first_lines count of the command line's copy: the rule's first value whenever it has one. */
  function CliFirstCount(p: Pattern, defaults: ContentDefaults): int {
    if |p.contentLines| > 0 then p.contentLines[0] else defaults.lines
  }

  /**
    * The smart counts (first, last) of the command line's copy: the rule's
    * first two values when it has at least three, else the default count
    * for both.
    */
  function CliSmartCounts(p: Pattern, defaults: ContentDefaults): (int, int) {
    if |p.contentLines| >= 3 then (p.contentLines[0], p.contentLines[1]) else (defaults.lines, defaults.lines)
  }

  /** Where the block of last lines starts: `total - l`, but no earlier than `f`. */
  function CliLastStart(total: nat, f: int, l: int): int {
    if total - l < f then f else total - l
  }

  /**
    * The inputs on which the Go code stays inside the lines: a smart block
    * of last lines must not start before line 0, and a first_lines count
    * below the number of lines must not be negative.
    */
  predicate CliSampleDefined(content: string, p: Pattern, defaults: ContentDefaults) {
    var strategy := StrategyOf(p, defaults);
    if strategy == FullFile then true
    else if strategy == Smart then
      var (f, l) := CliSmartCounts(p, defaults);
      CliLastStart(|Split(content, "\n")|, f, l) >= 0
    else CliFirstCount(p, defaults) >= 0
  }

  /** The text the command line scans: like the matcher's, but with no random lines. */
  function CliContentToScan(content: string, p: Pattern, defaults: ContentDefaults): string
    requires CliSampleDefined(content, p, defaults)
  {
    var lines := Split(content, "\n");
    var strategy := StrategyOf(p, defaults);
    if strategy == FullFile then content
    else if strategy == Smart then
      var (f, l) := CliSmartCounts(p, defaults);
      var start: nat := CliLastStart(|lines|, f, l);
      Join(Pick(lines, Range(0, Min(f, |lines|))) + Pick(lines, Range(start, |lines|)), "\n")
    else
      var n := CliFirstCount(p, defaults);
      if n >= |lines| then content else Join(lines[..n], "\n")
  }

  /** The command line's `getContentToScan`, with its two append loops. */
  method CliGetContentToScan(content: string, p: Pattern, defaults: ContentDefaults) returns (text: string)
    requires CliSampleDefined(content, p, defaults)
    ensures text == CliContentToScan(content, p, defaults)
  {
    var strategy := StrategyOf(p, defaults);
    var lines := Split(content, "\n");
    if strategy == FullFile {
      text := content;
    } else if strategy == Smart {
      var f, l := defaults.lines, defaults.lines;
      if |p.contentLines| >= 3 {
        f, l := p.contentLines[0], p.contentLines[1];
      }
      var selected := FirstBlock(lines, f);
      var start := |lines| - l;
      if start < f {
        start := f;
      }
      var inRange;
      selected, inRange := LastBlock(lines, selected, start);
      text := Join(selected, "\n");
    } else {
      var n := defaults.lines;
      if |p.contentLines| > 0 {
        n := p.contentLines[0];
      }
      if n >= |lines| {
        text := content;
      } else {
        text := Join(lines[..n], "\n");
      }
    }
  }

  lemma PickRange<T>(lines: seq<T>, a: nat, b: nat)
    requires a <= b <= |lines|
    ensures Within(Range(a, b), |lines|)
    ensures Pick(lines, Range(a, b)) == lines[a..b]
  {
  }

  /**
    * first_lines and every unknown strategy scan a prefix of the content:
    * all of it when the count reaches the number of lines, else exactly
    * the first `n` lines; the rule's first value is the count whenever
    * the rule has one.
    */
  lemma CliFirstLinesPrefix(content: string, p: Pattern, defaults: ContentDefaults)
    requires StrategyOf(p, defaults) != FullFile && StrategyOf(p, defaults) != Smart
    requires CliSampleDefined(content, p, defaults)
    ensures var text := CliContentToScan(content, p, defaults);
      var n := CliFirstCount(p, defaults);
      var lines := Split(content, "\n");
      && HasPrefix(content, text)
      && (n >= |lines| ==> text == content)
      && (1 <= n < |lines| ==> Split(text, "\n") == lines[..n])
  {
    var lines := Split(content, "\n");
    var n := CliFirstCount(p, defaults);
    JoinSplit(content, "\n");
    if n < |lines| {
      JoinPrefix(lines, "\n", n);
      if n >= 1 {
        SplitJoinPrefix(content, n);
      }
    }
  }

  /** The smart blocks cover the whole content when the two counts together reach the number of lines. */
  lemma CliSmartWhole(content: string, p: Pattern, defaults: ContentDefaults)
    requires StrategyOf(p, defaults) == Smart
    requires var (f, l) := CliSmartCounts(p, defaults);
      f >= 0 && f + l >= |Split(content, "\n")|
    ensures CliContentToScan(content, p, defaults) == content
  {
    var lines := Split(content, "\n");
    var (f, l) := CliSmartCounts(p, defaults);
    var start: nat := CliLastStart(|lines|, f, l);
    JoinSplit(content, "\n");
    if f >= |lines| {
      PickRange(lines, 0, |lines|);
      assert Range(start, |lines|) == [];
      assert Pick(lines, Range(start, |lines|)) == [];
      assert lines[0..|lines|] + [] == lines;
    } else {
      PickRange(lines, 0, f);
      PickRange(lines, f, |lines|);
      assert lines[0..f] + lines[f..|lines|] == lines;
    }
  }

  /**
    * When the content is longer than the two smart counts together, the
    * command line scans its first `f` and its last `l` lines and nothing
    * between them.
    */
  lemma CliSmartEnds(content: string, p: Pattern, defaults: ContentDefaults)
    requires StrategyOf(p, defaults) == Smart
    requires var (f, l) := CliSmartCounts(p, defaults);
      f >= 0 && l >= 0 && f + l < |Split(content, "\n")|
    ensures var (f, l) := CliSmartCounts(p, defaults);
      var lines := Split(content, "\n");
      CliContentToScan(content, p, defaults) == Join(lines[..f] + lines[|lines| - l..], "\n")
  {
    var lines := Split(content, "\n");
    var (f, l) := CliSmartCounts(p, defaults);
    assert Min(f, |lines|) == f && CliLastStart(|lines|, f, l) == |lines| - l;
    PickRange(lines, 0, f);
    PickRange(lines, |lines| - l, |lines|);
    assert lines[0..f] == lines[..f] && lines[|lines| - l..|lines|] == lines[|lines| - l..];
  }

  /**
    * A smart rule with three counts and no random lines scans the same
    * text on the command line as in the matcher.
    */
  lemma CliSmartAgreesWithMatcher(content: string, p: Pattern, defaults: ContentDefaults, rand: Random, pos: nat)
    requires StrategyOf(p, defaults) == Smart && |p.contentLines| == 3
    requires p.contentLines[0] >= 0 && p.contentLines[1] >= 0 && p.contentLines[2] <= 0
    ensures CliSampleDefined(content, p, defaults)
    ensures ContentToScan(content, p, defaults, rand, pos) == Sample(CliContentToScan(content, p, defaults), pos)
  {
    var lines := Split(content, "\n");
    var (f, l, r) := SmartCounts(p);
    var a := Range(0, Min(f, |lines|));
    var b := Range(LastStart(|lines|, f, l), |lines|);
    assert SmartIndices(|lines|, f, l, r, rand, pos) == a + b + [];
    assert a + b + [] == a + b;
    SmartShape(|lines|, f, l, r, rand, pos);
    PickConcat(lines, a, b);
  }

  /**
    * Where the two copies part: a rule that inherits first_lines keeps its
    * own first count on the command line, while the matcher uses the
    * default count; with a count below the number of lines and a default
    * count reaching it, the command line scans fewer lines than the
    * matcher.
    */
  lemma InheritedCountDiffers(content: string, p: Pattern, defaults: ContentDefaults, rand: Random, pos: nat)
    requires p.contentStrategy == "" && defaults.strategy == FirstLines && |p.contentLines| > 0
    requires 1 <= p.contentLines[0] < |Split(content, "\n")| <= defaults.lines
    ensures CliSampleDefined(content, p, defaults)
    ensures ContentToScan(content, p, defaults, rand, pos) == Sample(content, pos)
    ensures CliContentToScan(content, p, defaults) != content
  {
    var lines := Split(content, "\n");
    var n := p.contentLines[0];
    FirstLinesPrefix(content, p, defaults, rand, pos);
    CliFirstLinesPrefix(content, p, defaults);
    assert |lines[..n]| < |lines|;
  }

  // ---------------------------------------------------------------------------
  // validatePatterns
  // ---------------------------------------------------------------------------

  /** What `validatePatterns` can report about one rule. */
  datatype Problem =
    | NoMatchCriteria
    | InvalidFilenameRegex
    | InvalidContentRegex
    | GuideNotFound(guide: string)
    | InvalidStrategy(strategy: string)

  /** One reported issue: the rule's number counted from 1, its name, and the problem. */
  datatype Issue = Issue(number: nat, name: string, problem: Problem)

  /** `problem` when `bad` holds, nothing otherwise. */
  function Flag(bad: bool, problem: Problem): seq<Problem> {
    if bad then [problem] else []
  }

  /** One report per guide that does not exist, in the order of the guides. */
  function MissingGuides(guides: seq<string>, guideExists: string -> bool): seq<Problem> {
    if |guides| == 0 then []
    else MissingGuides(guides[..|guides| - 1], guideExists) + Flag(!guideExists(guides[|guides| - 1]), GuideNotFound(guides[|guides| - 1]))
  }

  /** The problems of one rule, in the order `validatePatterns` checks them. */
  function RuleProblems(p: Pattern, eng: RegexEngine, guideExists: string -> bool): seq<Problem> {
    Flag(p.filename == "" && p.content == "", NoMatchCriteria)
    + Flag(p.filename != "" && !eng.compiles(p.filename), InvalidFilenameRegex)
    + Flag(p.content != "" && !eng.compiles(p.content), InvalidContentRegex)
    + MissingGuides(p.context + p.diffContext, guideExists)
    + Flag(p.contentStrategy != "" && !ValidStrategy(p.contentStrategy), InvalidStrategy(p.contentStrategy))
  }

  function Numbered(number: nat, name: string, problems: seq<Problem>): (r: seq<Issue>)
    ensures |r| == |problems|
    ensures forall k :: 0 <= k < |r| ==> r[k] == Issue(number, name, problems[k])
  {
    seq(|problems|, k requires 0 <= k < |problems| => Issue(number, name, problems[k]))
  }

  /** The issues of all rules, rule by rule. */
  function Issues(ps: seq<Pattern>, eng: RegexEngine, guideExists: string -> bool): seq<Issue> {
    if |ps| == 0 then []
    else Issues(ps[..|ps| - 1], eng, guideExists) + Numbered(|ps|, ps[|ps| - 1].name, RuleProblems(ps[|ps| - 1], eng, guideExists))
  }

  /** `problem` is a real problem of rule `p`: the reference the reports are checked against. */
  predicate HasProblem(p: Pattern, problem: Problem, eng: RegexEngine, guideExists: string -> bool) {
    match problem
    case NoMatchCriteria => p.filename == "" && p.content == ""
    case InvalidFilenameRegex => p.filename != "" && !eng.compiles(p.filename)
    case InvalidContentRegex => p.content != "" && !eng.compiles(p.content)
    case GuideNotFound(g) => g in p.context + p.diffContext && !guideExists(g)
    case InvalidStrategy(s) => s == p.contentStrategy && s != "" && !ValidStrategy(s)
  }

  /** A rule with a file-name or content regex, every regex compiling, every guide present and a known strategy. */
  predicate RuleClean(p: Pattern, eng: RegexEngine, guideExists: string -> bool) {
    && (p.filename != "" || p.content != "")
    && (p.filename != "" ==> eng.compiles(p.filename))
    && (p.content != "" ==> eng.compiles(p.content))
    && (forall g :: g in p.context + p.diffContext ==> guideExists(g))
    && (p.contentStrategy == "" || ValidStrategy(p.contentStrategy))
  }

  lemma {:induction false} MissingGuidesExact(guides: seq<string>, guideExists: string -> bool)
    ensures forall problem :: problem in MissingGuides(guides, guideExists) <==>
      problem.GuideNotFound? && problem.guide in guides && !guideExists(problem.guide)
  {
    if |guides| > 0 {
      var init := guides[..|guides| - 1];
      MissingGuidesExact(init, guideExists);
      assert guides == init + [guides[|guides| - 1]];
    }
  }

  /** A rule's reports are exactly its problems. */
  lemma RuleProblemsExact(p: Pattern, eng: RegexEngine, guideExists: string -> bool)
    ensures forall problem :: problem in RuleProblems(p, eng, guideExists) <==> HasProblem(p, problem, eng, guideExists)
  {
    forall problem ensures problem in RuleProblems(p, eng, guideExists) <==> HasProblem(p, problem, eng, guideExists) {
      ProblemReported(p, eng, guideExists, problem);
    }
  }

  lemma ProblemReported(p: Pattern, eng: RegexEngine, guideExists: string -> bool, problem: Problem)
    ensures problem in RuleProblems(p, eng, guideExists) <==> HasProblem(p, problem, eng, guideExists)
  {
    var a := Flag(p.filename == "" && p.content == "", NoMatchCriteria);
    var b := Flag(p.filename != "" && !eng.compiles(p.filename), InvalidFilenameRegex);
    var c := Flag(p.content != "" && !eng.compiles(p.content), InvalidContentRegex);
    var d := MissingGuides(p.context + p.diffContext, guideExists);
    var e := Flag(p.contentStrategy != "" && !ValidStrategy(p.contentStrategy), InvalidStrategy(p.contentStrategy));
    assert RuleProblems(p, eng, guideExists) == a + b + c + d + e;
    assert problem in a + b + c + d + e <==> problem in a || problem in b || problem in c || problem in d || problem in e;
    match problem
    case NoMatchCriteria =>
      assert problem !in b && problem !in c && problem !in e;
      assert problem !in d by { MissingGuidesExact(p.context + p.diffContext, guideExists); }
    case InvalidFilenameRegex =>
      assert problem !in a && problem !in c && problem !in e;
      assert problem !in d by { MissingGuidesExact(p.context + p.diffContext, guideExists); }
    case InvalidContentRegex =>
      assert problem !in a && problem !in b && problem !in e;
      assert problem !in d by { MissingGuidesExact(p.context + p.diffContext, guideExists); }
    case GuideNotFound(_) =>
      assert problem !in a && problem !in b && problem !in c && problem !in e;
      assert problem in d <==> HasProblem(p, problem, eng, guideExists) by {
        MissingGuidesExact(p.context + p.diffContext, guideExists);
      }
    case InvalidStrategy(_) =>
      assert problem !in a && problem !in b && problem !in c;
      assert problem !in d by { MissingGuidesExact(p.context + p.diffContext, guideExists); }
  }

  /** A rule has no problem exactly when it is clean. */
  lemma RuleCleanIff(p: Pattern, eng: RegexEngine, guideExists: string -> bool)
    ensures RuleProblems(p, eng, guideExists) == [] <==> RuleClean(p, eng, guideExists)
  {
    RuleProblemsExact(p, eng, guideExists);
    if RuleProblems(p, eng, guideExists) == [] {
      forall g | g in p.context + p.diffContext ensures guideExists(g) {
        assert !HasProblem(p, GuideNotFound(g), eng, guideExists);
      }
      assert !HasProblem(p, InvalidStrategy(p.contentStrategy), eng, guideExists);
    } else {
      var problem := RuleProblems(p, eng, guideExists)[0];
      assert HasProblem(p, problem, eng, guideExists);
    }
  }

  /** `issue` names a rule of `ps` by its number and name and reports a real problem of that rule. */
  predicate Reports(ps: seq<Pattern>, issue: Issue, eng: RegexEngine, guideExists: string -> bool) {
    && 1 <= issue.number <= |ps|
    && issue.name == ps[issue.number - 1].name
    && HasProblem(ps[issue.number - 1], issue.problem, eng, guideExists)
  }

  /** Every issue reports a real problem of the rule it names. */
  lemma {:induction false} IssuesSound(ps: seq<Pattern>, eng: RegexEngine, guideExists: string -> bool)
    ensures forall t :: 0 <= t < |Issues(ps, eng, guideExists)| ==> Reports(ps, Issues(ps, eng, guideExists)[t], eng, guideExists)
  {
    if |ps| > 0 {
      var init := ps[..|ps| - 1];
      var last := ps[|ps| - 1];
      IssuesSound(init, eng, guideExists);
      RuleProblemsExact(last, eng, guideExists);
      var before := Issues(init, eng, guideExists);
      var mine := RuleProblems(last, eng, guideExists);
      var issues := Issues(ps, eng, guideExists);
      assert issues == before + Numbered(|ps|, last.name, mine);
      forall t | 0 <= t < |issues| ensures Reports(ps, issues[t], eng, guideExists) {
        if t < |before| {
          assert issues[t] == before[t];
          assert Reports(init, before[t], eng, guideExists);
          assert ps[before[t].number - 1] == init[before[t].number - 1];
        } else {
          assert issues[t] == Issue(|ps|, last.name, mine[t - |before|]);
          assert mine[t - |before|] in mine;
        }
      }
    }
  }

  /** The issues come in the order of the rules. */
  lemma {:induction false} IssuesOrdered(ps: seq<Pattern>, eng: RegexEngine, guideExists: string -> bool)
    ensures forall s, t :: 0 <= s < t < |Issues(ps, eng, guideExists)| ==>
      Issues(ps, eng, guideExists)[s].number <= Issues(ps, eng, guideExists)[t].number
  {
    if |ps| > 0 {
      var init := ps[..|ps| - 1];
      IssuesOrdered(init, eng, guideExists);
      IssuesSound(init, eng, guideExists);
      var before := Issues(init, eng, guideExists);
      var issues := Issues(ps, eng, guideExists);
      var mine := Numbered(|ps|, ps[|ps| - 1].name, RuleProblems(ps[|ps| - 1], eng, guideExists));
      assert issues == before + mine;
      forall s, t | 0 <= s < t < |issues| ensures issues[s].number <= issues[t].number {
        if t < |before| {
          assert issues[s] == before[s] && issues[t] == before[t];
          assert before[s].number <= before[t].number;
        } else if s < |before| {
          assert issues[s] == before[s] && Reports(init, before[s], eng, guideExists);
          assert issues[t] == mine[t - |before|] && mine[t - |before|].number == |ps|;
        } else {
          assert issues[s] == mine[s - |before|] && issues[t] == mine[t - |before|];
          assert mine[s - |before|].number == |ps| == mine[t - |before|].number;
        }
      }
    }
  }

  /** Every problem of every rule is reported, under that rule's number and name. */
  lemma {:induction false} IssuesComplete(ps: seq<Pattern>, eng: RegexEngine, guideExists: string -> bool, i: nat, problem: Problem)
    requires i < |ps| && HasProblem(ps[i], problem, eng, guideExists)
    ensures Issue(i + 1, ps[i].name, problem) in Issues(ps, eng, guideExists)
  {
    var init := ps[..|ps| - 1];
    var last := ps[|ps| - 1];
    var before := Issues(init, eng, guideExists);
    var found := RuleProblems(last, eng, guideExists);
    var mine := Numbered(|ps|, last.name, found);
    assert Issues(ps, eng, guideExists) == before + mine;
    if i == |ps| - 1 {
      assert problem in found by {
        RuleProblemsExact(last, eng, guideExists);
      }
      var k :| 0 <= k < |found| && found[k] == problem;
      assert mine[k] == Issue(i + 1, ps[i].name, problem);
    } else {
      assert ps[i] == init[i];
      IssuesComplete(init, eng, guideExists, i, problem);
    }
  }

  /** `validatePatterns` reports nothing exactly when every rule is clean. */
  lemma NoIssuesIffClean(ps: seq<Pattern>, eng: RegexEngine, guideExists: string -> bool)
    ensures Issues(ps, eng, guideExists) == [] <==> forall i :: 0 <= i < |ps| ==> RuleClean(ps[i], eng, guideExists)
  {
    if Issues(ps, eng, guideExists) == [] {
      forall i | 0 <= i < |ps| ensures RuleClean(ps[i], eng, guideExists) {
        RuleProblemsExact(ps[i], eng, guideExists);
        RuleCleanIff(ps[i], eng, guideExists);
        if !RuleClean(ps[i], eng, guideExists) {
          var problem := RuleProblems(ps[i], eng, guideExists)[0];
          IssuesComplete(ps, eng, guideExists, i, problem);
        }
      }
    } else {
      IssuesSound(ps, eng, guideExists);
      var issue := Issues(ps, eng, guideExists)[0];
      assert Reports(ps, issue, eng, guideExists);
      var i := issue.number - 1;
      RuleProblemsExact(ps[i], eng, guideExists);
      RuleCleanIff(ps[i], eng, guideExists);
    }
  }

  /**
    * A configuration that passes the loader's validation can only have
    * regex and guide issues: the criteria and strategy checks are shared.
    */
  lemma ValidConfigIssues(c: Config, eng: RegexEngine, guideExists: string -> bool)
    requires Valid(c)
    ensures forall t :: 0 <= t < |Issues(c.patterns, eng, guideExists)| ==>
      !Issues(c.patterns, eng, guideExists)[t].problem.NoMatchCriteria?
      && !Issues(c.patterns, eng, guideExists)[t].problem.InvalidStrategy?
  {
    var issues := Issues(c.patterns, eng, guideExists);
    IssuesSound(c.patterns, eng, guideExists);
    forall t | 0 <= t < |issues| ensures !issues[t].problem.NoMatchCriteria? && !issues[t].problem.InvalidStrategy? {
      assert Reports(c.patterns, issues[t], eng, guideExists);
      assert WellFormed(c.patterns[issues[t].number - 1]);
    }
  }

  lemma NumberedConcat(number: nat, name: string, a: seq<Problem>, b: seq<Problem>)
    ensures Numbered(number, name, a + b) == Numbered(number, name, a) + Numbered(number, name, b)
  {
  }

  /** Reports appended one group after another are the reports of the groups together. */
  lemma AppendReports(prefix: seq<Issue>, number: nat, name: string, a: seq<Problem>, b: seq<Problem>)
    ensures prefix + Numbered(number, name, a) + Numbered(number, name, b) == prefix + Numbered(number, name, a + b)
  {
    NumberedConcat(number, name, a, b);
  }

  /** One check: the issue appended when `bad` holds. */
  method ReportIf(issues0: seq<Issue>, bad: bool, number: nat, name: string, problem: Problem)
    returns (issues: seq<Issue>)
    ensures issues == issues0 + Numbered(number, name, Flag(bad, problem))
  {
    issues := issues0;
    if bad {
      issues := issues + [Issue(number, name, problem)];
    }
  }

  /** The inner loop: one issue per guide that does not exist. */
  method ReportMissingGuides(issues0: seq<Issue>, number: nat, name: string, guides: seq<string>, guideExists: string -> bool)
    returns (issues: seq<Issue>)
    ensures issues == issues0 + Numbered(number, name, MissingGuides(guides, guideExists))
  {
    issues := issues0;
    var j := 0;
    while j < |guides|
      invariant 0 <= j <= |guides|
      invariant issues == issues0 + Numbered(number, name, MissingGuides(guides[..j], guideExists))
    {
      ghost var done := MissingGuides(guides[..j], guideExists);
      ghost var flag := Flag(!guideExists(guides[j]), GuideNotFound(guides[j]));
      issues := ReportIf(issues, !guideExists(guides[j]), number, name, GuideNotFound(guides[j]));
      assert issues == issues0 + Numbered(number, name, done + flag) by {
        AppendReports(issues0, number, name, done, flag);
      }
      assert guides[..j + 1][..j] == guides[..j];
      j := j + 1;
    }
    assert guides[..|guides|] == guides;
  }

  /** The checks of one rule, appending its issues. */
  method ReportRule(issues0: seq<Issue>, number: nat, p: Pattern, eng: RegexEngine, guideExists: string -> bool)
    returns (issues: seq<Issue>)
    ensures issues == issues0 + Numbered(number, p.name, RuleProblems(p, eng, guideExists))
  {
    ghost var a := Flag(p.filename == "" && p.content == "", NoMatchCriteria);
    ghost var b := Flag(p.filename != "" && !eng.compiles(p.filename), InvalidFilenameRegex);
    ghost var c := Flag(p.content != "" && !eng.compiles(p.content), InvalidContentRegex);
    ghost var d := MissingGuides(p.context + p.diffContext, guideExists);
    ghost var e := Flag(p.contentStrategy != "" && !ValidStrategy(p.contentStrategy), InvalidStrategy(p.contentStrategy));
    issues := ReportIf(issues0, p.filename == "" && p.content == "", number, p.name, NoMatchCriteria);
    issues := ReportIf(issues, p.filename != "" && !eng.compiles(p.filename), number, p.name, InvalidFilenameRegex);
    assert issues == issues0 + Numbered(number, p.name, a + b) by {
      AppendReports(issues0, number, p.name, a, b);
    }
    issues := ReportIf(issues, p.content != "" && !eng.compiles(p.content), number, p.name, InvalidContentRegex);
    assert issues == issues0 + Numbered(number, p.name, a + b + c) by {
      AppendReports(issues0, number, p.name, a + b, c);
    }
    issues := ReportMissingGuides(issues, number, p.name, p.context + p.diffContext, guideExists);
    assert issues == issues0 + Numbered(number, p.name, a + b + c + d) by {
      AppendReports(issues0, number, p.name, a + b + c, d);
    }
    issues := ReportIf(issues, p.contentStrategy != "" && !ValidStrategy(p.contentStrategy), number, p.name,
      InvalidStrategy(p.contentStrategy));
    assert issues == issues0 + Numbered(number, p.name, a + b + c + d + e) by {
      AppendReports(issues0, number, p.name, a + b + c + d, e);
    }
  }

  /** `validatePatterns`: every rule checked, every issue collected, none stopping the loop. */
  method ValidatePatterns(ps: seq<Pattern>, eng: RegexEngine, guideExists: string -> bool) returns (issues: seq<Issue>)
    ensures issues == Issues(ps, eng, guideExists)
  {
    issues := [];
    var i := 0;
    while i < |ps|
      invariant 0 <= i <= |ps|
      invariant issues == Issues(ps[..i], eng, guideExists)
    {
      assert ps[..i + 1][..i] == ps[..i];
      issues := ReportRule(issues, i + 1, ps[i], eng, guideExists);
      i := i + 1;
    }
    assert ps[..|ps|] == ps;
  }

  // ---------------------------------------------------------------------------
  // DiffCmd arguments
  // ---------------------------------------------------------------------------

  /** The range the `diff` command compares when none is given. */
  const DefaultDiffRange: string := "main..HEAD"

  /** What the `diff` command compares: a range, and one file, or "" for every changed file. */
  datatype DiffTarget = DiffTarget(range: string, file: string)

  datatype DiffArgsError = TooManyArguments

  /**
    * The `diff` command's arguments: none compares `main..HEAD`; one is a
    * file to review against `main..HEAD` when such a path exists and a
    * range otherwise; two are a range and a file; more are refused.
    */
  function ResolveDiffArgs(args: seq<string>, pathExists: string -> bool): (r: Result<DiffTarget, DiffArgsError>)
    ensures r.Err? <==> |args| > 2
    ensures |args| == 0 ==> r == Ok(DiffTarget(DefaultDiffRange, ""))
    ensures |args| == 1 && pathExists(args[0]) ==> r == Ok(DiffTarget(DefaultDiffRange, args[0]))
    ensures |args| == 1 && !pathExists(args[0]) ==> r == Ok(DiffTarget(args[0], ""))
    ensures |args| == 2 ==> r == Ok(DiffTarget(args[0], args[1]))
  {
    if |args| == 0 then Ok(DiffTarget(DefaultDiffRange, ""))
    else if |args| == 1 then
      if pathExists(args[0]) then Ok(DiffTarget(DefaultDiffRange, args[0])) else Ok(DiffTarget(args[0], ""))
    else if |args| == 2 then Ok(DiffTarget(args[0], args[1]))
    else Err(TooManyArguments)
  }

  /** The default range compares the `main` branch with `HEAD`. */
  lemma DefaultDiffRangeParses()
    ensures ParseGitRange(DefaultDiffRange) == ("main", "HEAD")
  {
    assert !Contains("HEAD", DotDot) by {
      forall j: nat ensures !OccursAt("HEAD", DotDot, j) {
        if j + 2 <= 4 {
          assert "HEAD"[j..j + 2][0] == "HEAD"[j];
        }
      }
    }
    JoinedRefsParse("main", "HEAD");
    assert "main" + DotDot + "HEAD" == DefaultDiffRange;
  }

  /**
    * Without a range argument the `diff` command compares `main` with
    * `HEAD`, whether or not it is given a file.
    */
  lemma DiffWithoutRange(args: seq<string>, pathExists: string -> bool)
    requires |args| == 0 || (|args| == 1 && pathExists(args[0]))
    ensures var r := ResolveDiffArgs(args, pathExists);
      r.Ok? && ParseGitRange(r.value.range) == ("main", "HEAD")
  {
    DefaultDiffRangeParses();
  }
}
