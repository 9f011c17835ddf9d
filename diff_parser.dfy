/**
  * The unified-diff parser of internal/git/diff_parser.go: `ParseDiff`, its
  * hunk-header grammar `@@ -a[,b] +c[,d] @@`, the helpers that flatten the
  * parsed lines by type, and the review rendering.
  *
  * `ParseDiff` is a loop over the input lines that keeps a current hunk and
  * two running line counters; it is modelled as a method whose result is
  * tied to `Parse`, a fold of `Step` over the lines. The theorems below say
  * what `Parse` computes: the hunks, one per header line, each holding the
  * typed lines of its segment of the input, every line numbered with the
  * position it has in its version of the file.
  */
module DiffParser {
  import opened Wrappers
  import opened Text
  import opened Decimal

  datatype LineType = Added | Removed | Context | NoNewline

  /** One parsed line; a number the line type does not carry is Go's zero value 0. */
  datatype DiffLine = DiffLine(kind: LineType, content: string, oldNum: int, newNum: int)

  datatype DiffHunk = DiffHunk(
    oldStart: int,
    oldCount: int,
    newStart: int,
    newCount: int,
    header: string,
    lines: seq<DiffLine>)

  datatype DiffData = DiffData(
    filePath: string,
    oldFilePath: string,
    newFilePath: string,
    isNew: bool,
    isDeleted: bool,
    isRenamed: bool,
    hunks: seq<DiffHunk>)

  datatype ParseError =
    | InvalidHunkHeader(line: string)
    | InvalidHunkHeaderFormat(line: string)
    | InvalidRangeFormat(rangeStr: string)
    | InvalidOldRange(range: string)
    | InvalidNewRange(range: string)

  // ---------------------------------------------------------------------------
  // Hunk headers
  // ---------------------------------------------------------------------------

  /**
    * `parseRange`: "start[,count]" with the count defaulting to 1, and the
    * empty range meaning (0, 0). Pieces after a second comma are ignored.
    */
  function ParseRange(rangeStr: string): Option<(int, int)> {
    if rangeStr == "" then Some((0, 0))
    else
      var parts := Split(rangeStr, ",");
      match Atoi(parts[0])
      case None => None
      case Some(start) =>
        if |parts| > 1 then
          match Atoi(parts[1])
          case None => None
          case Some(count) => Some((start, count))
        else Some((start, 1))
  }

  /**
    * `parseHunkHeader`: the trimmed line must start with "@@"; the text
    * between the first two "@@" markers, trimmed, must be exactly two
    * space-separated ranges. The hunk keeps the line as given, untrimmed, as
    * its header.
    */
  function ParseHunkHeader(line: string): (r: Result<DiffHunk, ParseError>)
    ensures r.Ok? ==> r.value.header == line && r.value.lines == []
  {
    var trimmed := TrimSpace(line);
    if !HasPrefix(trimmed, "@@") || !Contains(trimmed, "@@") then Err(InvalidHunkHeader(trimmed))
    else
      var parts := Split(trimmed, "@@");
      if |parts| < 2 then Err(InvalidHunkHeaderFormat(trimmed))
      else ParseRanges(TrimSpace(parts[1]), line)
  }

  /** The second half of `parseHunkHeader`: "-a[,b] +c[,d]", "-" and "+" dropped from the fronts. */
  function ParseRanges(rangeStr: string, line: string): (r: Result<DiffHunk, ParseError>)
    ensures r.Ok? ==> r.value.header == line && r.value.lines == []
  {
    var ranges := Split(rangeStr, " ");
    if |ranges| != 2 then Err(InvalidRangeFormat(rangeStr))
    else
      var oldRange := TrimPrefix(ranges[0], "-");
      var newRange := TrimPrefix(ranges[1], "+");
      match ParseRange(oldRange)
      case None => Err(InvalidOldRange(oldRange))
      case Some(o) =>
        match ParseRange(newRange)
        case None => Err(InvalidNewRange(newRange))
        case Some(n) => Ok(DiffHunk(o.0, o.1, n.0, n.1, line, []))
  }

  /** "start,count" as a hunk header prints it. */
  function RangeText(start: int, count: int): string {
    Itoa(start) + "," + Itoa(count)
  }

  /** The header `@@ -a,b +c,d @@` for the four numbers. */
  function HeaderText(oldStart: int, oldCount: int, newStart: int, newCount: int): string {
    "@@ -" + RangeText(oldStart, oldCount) + " +" + RangeText(newStart, newCount) + " @@"
  }

  predicate Int64(n: int) {
    MinInt64 <= n <= MaxInt64
  }

  /** The four numbers of a hunk fit in Go's `int`. */
  predicate InRange(h: DiffHunk) {
    Int64(h.oldStart) && Int64(h.oldCount) && Int64(h.newStart) && Int64(h.newCount)
  }

  lemma ItoaHasNo(n: int, c: char)
    requires c != '-' && !IsDigit(c)
    ensures forall k :: 0 <= k < |Itoa(n)| ==> Itoa(n)[k] != c
  {
  }

  /** A range printed with a count parses back to its two numbers. */
  lemma ParseRangeFull(start: int, count: int)
    requires Int64(start) && Int64(count)
    ensures ParseRange(RangeText(start, count)) == Some((start, count))
  {
    ItoaHasNo(start, ',');
    ItoaHasNo(count, ',');
    SplitAfterFree(Itoa(start), ",", Itoa(count));
    SplitFree(Itoa(count), ",");
    AtoiItoa(start);
    AtoiItoa(count);
  }

  /** A range printed without a count parses back with the count 1. */
  lemma ParseRangeStartOnly(start: int)
    requires Int64(start)
    ensures ParseRange(Itoa(start)) == Some((start, 1))
  {
    ItoaHasNo(start, ',');
    SplitFree(Itoa(start), ",");
    AtoiItoa(start);
  }

  /** Trimming a string that starts and ends inside `h` keeps all of `h`. */
  lemma TrimSpaceKeepsHead(h: string, t: string)
    requires |h| > 0 && !IsSpace(h[0]) && !IsSpace(h[|h| - 1])
    ensures HasPrefix(TrimSpace(h + t), h)
  {
    var s := h + t;
    assert TrimLeftSpace(s) == s;
    var r := TrimRightSpace(s);
    assert s[|h| - 1] == h[|h| - 1];
    assert |r| >= |h|;
    assert r[..|h|] == s[..|h|] == h;
  }


  lemma RangeTextHasNo(start: int, count: int, c: char)
    requires c != '-' && c != ',' && !IsDigit(c)
    ensures forall k :: 0 <= k < |RangeText(start, count)| ==> RangeText(start, count)[k] != c
  {
    ItoaHasNo(start, c);
    ItoaHasNo(count, c);
    var s := RangeText(start, count);
    forall k | 0 <= k < |s| ensures s[k] != c {
      if k < |Itoa(start)| {
        assert s[k] == Itoa(start)[k];
      } else if k > |Itoa(start)| {
        assert s[k] == Itoa(count)[k - |Itoa(start)| - 1];
      }
    }
  }

  /** A sign followed by a string without spaces has no space. */
  lemma SignedHasNoSpace(sign: char, x: string)
    requires sign != ' '
    requires forall k :: 0 <= k < |x| ==> x[k] != ' '
    ensures forall k :: 0 <= k < |[sign] + x| ==> ([sign] + x)[k] != ' '
  {
    forall k | 0 < k < |[sign] + x| ensures ([sign] + x)[k] != ' ' {
      assert ([sign] + x)[k] == x[k - 1];
    }
  }

  /** Trimming the padded range part leaves the two signed ranges and the space between. */
  lemma RangesTrim(x: string, y: string)
    requires |y| > 0 && !IsSpace(y[|y| - 1])
    ensures TrimSpace(" -" + x + " +" + y + " ") == "-" + x + " " + "+" + y
  {
    var ranges := "-" + x + " " + "+" + y;
    assert " -" + x + " +" + y + " " == " " + ranges + " ";
    assert ranges[|ranges| - 1] == y[|y| - 1];
    TrimSpacePadded(ranges);
  }

  /** The padded range part splits on its one inner space. */
  lemma RangesSplit(x: string, y: string)
    requires |y| > 0 && !IsSpace(y[|y| - 1])
    requires forall k :: 0 <= k < |x| ==> x[k] != ' '
    requires forall k :: 0 <= k < |y| ==> y[k] != ' '
    ensures Split(TrimSpace(" -" + x + " +" + y + " "), " ") == ["-" + x, "+" + y]
  {
    var u, v := "-" + x, "+" + y;
    RangesTrim(x, y);
    var t := TrimSpace(" -" + x + " +" + y + " ");
    assert t == u + " " + v;
    SignedHasNoSpace('-', x);
    SignedHasNoSpace('+', y);
    SplitAfterFree(u, " ", v);
    SplitFree(v, " ");
    assert Split(t, " ") == [u] + [v];
  }

  /** Two space-free ranges, padded as a header pads them, parse to their numbers. */
  lemma RangesOf(x: string, y: string, line: string)
    requires |y| > 0 && !IsSpace(y[|y| - 1])
    requires forall k :: 0 <= k < |x| ==> x[k] != ' '
    requires forall k :: 0 <= k < |y| ==> y[k] != ' '
    requires ParseRange(x).Some? && ParseRange(y).Some?
    ensures ParseRanges(TrimSpace(" -" + x + " +" + y + " "), line)
      == Ok(DiffHunk(ParseRange(x).value.0, ParseRange(x).value.1,
                     ParseRange(y).value.0, ParseRange(y).value.1, line, []))
  {
    RangesSplit(x, y);
    assert TrimPrefix("-" + x, "-") == x;
    assert TrimPrefix("+" + y, "+") == y;
  }

  /** The first two "@@" markers of a header delimit its range part. */
  lemma MarkersSplit(middle: string, rest: string)
    requires forall k :: 0 <= k < |middle| ==> middle[k] != '@'
    ensures |Split("@@" + middle + "@@" + rest, "@@")| >= 2
    ensures Split("@@" + middle + "@@" + rest, "@@")[1] == middle
  {
    var s := "@@" + middle + "@@" + rest;
    assert s == [] + "@@" + (middle + "@@" + rest);
    SplitAfterFree([], "@@", middle + "@@" + rest);
    SplitAfterFree(middle, "@@", rest);
  }

  /** Trimming such a line keeps its leading "@@", and its middle is the second "@@"-piece. */
  lemma TrimmedMarkers(middle: string, tail: string)
    requires forall k :: 0 <= k < |middle| ==> middle[k] != '@'
    ensures var trimmed := TrimSpace("@@" + middle + "@@" + tail);
      && HasPrefix(trimmed, "@@") && OccursAt(trimmed, "@@", 0)
      && |Split(trimmed, "@@")| >= 2 && Split(trimmed, "@@")[1] == middle
  {
    var h := "@@" + middle + "@@";
    assert h + tail == "@@" + middle + "@@" + tail;
    TrimSpaceKeepsHead(h, tail);
    var trimmed := TrimSpace(h + tail);
    var rest := trimmed[|h|..];
    assert trimmed == "@@" + middle + "@@" + rest;
    MarkersSplit(middle, rest);
  }

  /** A line made of "@@", an '@'-free middle, "@@" and anything is parsed by its middle. */
  lemma HeaderOf(middle: string, tail: string)
    requires forall k :: 0 <= k < |middle| ==> middle[k] != '@'
    ensures ParseHunkHeader("@@" + middle + "@@" + tail) == ParseRanges(TrimSpace(middle), "@@" + middle + "@@" + tail)
  {
    TrimmedMarkers(middle, tail);
  }

  /** The characters of a printed range are digits, '-' and ','. */
  lemma RangeTextChars(start: int, count: int)
    ensures forall k :: 0 <= k < |RangeText(start, count)| ==>
      RangeText(start, count)[k] != ' ' && RangeText(start, count)[k] != '@'
    ensures !IsSpace(RangeText(start, count)[|RangeText(start, count)| - 1])
  {
    RangeTextHasNo(start, count, ' ');
    RangeTextHasNo(start, count, '@');
    var s := RangeText(start, count);
    assert s[|s| - 1] == Itoa(count)[|Itoa(count)| - 1];
  }

  /** The part of a printed header between its markers has no '@'. */
  lemma MiddleHasNoAt(x: string, y: string)
    requires forall k :: 0 <= k < |x| ==> x[k] != '@'
    requires forall k :: 0 <= k < |y| ==> y[k] != '@'
    ensures var middle := " -" + x + " +" + y + " ";
      forall k :: 0 <= k < |middle| ==> middle[k] != '@'
  {
    var middle := " -" + x + " +" + y + " ";
    forall k | 0 <= k < |middle| ensures middle[k] != '@' {
      if 2 <= k < 2 + |x| {
        assert middle[k] == x[k - 2];
      } else if 4 + |x| <= k < 4 + |x| + |y| {
        assert middle[k] == y[k - 4 - |x|];
      }
    }
  }

  /**
    * The header grammar: `@@ -a,b +c,d @@`, followed by anything (git adds the
    * enclosing function there), parses to exactly a, b, c and d, and the hunk
    * keeps the whole line as its header.
    */
  lemma ParseHunkHeaderRoundTrip(a: int, b: int, c: int, d: int, tail: string)
    requires Int64(a) && Int64(b) && Int64(c) && Int64(d)
    ensures ParseHunkHeader(HeaderText(a, b, c, d) + tail)
      == Ok(DiffHunk(a, b, c, d, HeaderText(a, b, c, d) + tail, []))
  {
    var x, y := RangeText(a, b), RangeText(c, d);
    RangeTextChars(a, b);
    RangeTextChars(c, d);
    ParseRangeFull(a, b);
    ParseRangeFull(c, d);
    HeaderWith(x, y, tail);
  }

  /** A header line built from two well-behaved ranges parses by those ranges. */
  lemma HeaderWith(x: string, y: string, tail: string)
    requires |y| > 0 && !IsSpace(y[|y| - 1])
    requires forall k :: 0 <= k < |x| ==> x[k] != ' ' && x[k] != '@'
    requires forall k :: 0 <= k < |y| ==> y[k] != ' ' && y[k] != '@'
    requires ParseRange(x).Some? && ParseRange(y).Some?
    ensures ParseHunkHeader("@@ -" + x + " +" + y + " @@" + tail)
      == Ok(DiffHunk(ParseRange(x).value.0, ParseRange(x).value.1,
                     ParseRange(y).value.0, ParseRange(y).value.1, "@@ -" + x + " +" + y + " @@" + tail, []))
  {
    var middle := " -" + x + " +" + y + " ";
    var line := "@@ -" + x + " +" + y + " @@" + tail;
    assert ParseHunkHeader(line) == ParseRanges(TrimSpace(middle), line) by {
      HeaderLineShape(x, y, tail);
      MiddleHasNoAt(x, y);
      HeaderOf(middle, tail);
    }
    RangesOf(x, y, line);
  }

  /** A header line is its two ranges, padded, between two `@@` markers. */
  lemma HeaderLineShape(x: string, y: string, tail: string)
    ensures "@@ -" + x + " +" + y + " @@" + tail == "@@" + (" -" + x + " +" + y + " ") + "@@" + tail
  {
  }

  /**
    * A string starting with "@@" splits into at least two parts on it, so the
    * "invalid hunk header format" error of `parseHunkHeader` is never returned.
    */
  lemma MarkerPrefixSplits(t: string)
    requires HasPrefix(t, "@@")
    ensures |Split(t, "@@")| >= 2
  {
    assert t == [] + "@@" + t[2..];
    SplitAfterFree([], "@@", t[2..]);
  }

  /** Both numbers of a parsed range fit in Go's `int`. */
  lemma ParseRangeInRange(rangeStr: string)
    ensures ParseRange(rangeStr).Some? ==> Int64(ParseRange(rangeStr).value.0) && Int64(ParseRange(rangeStr).value.1)
  {
  }

  /** The four numbers of a parsed header fit in Go's `int`. */
  lemma HunkHeaderInRange(line: string)
    ensures ParseHunkHeader(line).Ok? ==> InRange(ParseHunkHeader(line).value)
  {
    var trimmed := TrimSpace(line);
    if HasPrefix(trimmed, "@@") && Contains(trimmed, "@@") {
      var parts := Split(trimmed, "@@");
      if |parts| >= 2 {
        var ranges := Split(TrimSpace(parts[1]), " ");
        if |ranges| == 2 {
          ParseRangeInRange(TrimPrefix(ranges[0], "-"));
          ParseRangeInRange(TrimPrefix(ranges[1], "+"));
        }
      }
    }
  }

  /**
    * A line that starts with "@@" is never rejected for its markers: when
    * its header does not parse, the fault is in the range part.
    */
  lemma HeaderLineErrors(line: string)
    requires IsHeader(line)
    ensures ParseHunkHeader(line).Err? ==>
      || ParseHunkHeader(line).error.InvalidRangeFormat?
      || ParseHunkHeader(line).error.InvalidOldRange?
      || ParseHunkHeader(line).error.InvalidNewRange?
  {
    assert line == "@@" + line[2..];
    TrimSpaceKeepsHead("@@", line[2..]);
    var t := TrimSpace(line);
    assert Contains(t, "@@") by {
      assert OccursAt(t, "@@", 0);
    }
    MarkerPrefixSplits(t);
    var middle := TrimSpace(Split(t, "@@")[1]);
    assert ParseHunkHeader(line) == ParseRanges(middle, line);
    RangesErrors(middle, line);
  }

  lemma RangesErrors(rangeStr: string, line: string)
    ensures ParseRanges(rangeStr, line).Err? ==>
      || ParseRanges(rangeStr, line).error.InvalidRangeFormat?
      || ParseRanges(rangeStr, line).error.InvalidOldRange?
      || ParseRanges(rangeStr, line).error.InvalidNewRange?
  {
  }

  // ---------------------------------------------------------------------------
  // ParseDiff: the step function and its fold
  // ---------------------------------------------------------------------------

  predicate IsHeader(line: string) {
    HasPrefix(line, "@@")
  }

  /**
    * What the parser does with a hunk header line. `Parse` uses
    * `ParseHunkHeader`; the facts about the loop hold for any grammar that
    * keeps the line as the header and starts with no lines.
    */
  type HeaderGrammar = string -> Result<DiffHunk, ParseError>

  ghost predicate KeepsHeader(grammar: HeaderGrammar) {
    forall line :: grammar(line).Ok? ==> grammar(line).value.header == line && grammar(line).value.lines == []
  }

  lemma HunkHeaderKeeps()
    ensures KeepsHeader(ParseHunkHeader)
  {
  }

  /** The parser's variables between two lines: the result so far, the open hunk, the counters. */
  datatype ParseState = ParseState(diff: DiffData, current: Option<DiffHunk>, oldLine: int, newLine: int)

  function Initial(filePath: string): ParseState {
    ParseState(DiffData(filePath, "", "", false, false, false, []), None, 0, 0)
  }

  /** The hunks once the open one, if any, is closed. */
  function Closed(st: ParseState): seq<DiffHunk> {
    if st.current.Some? then st.diff.hunks + [st.current.value] else st.diff.hunks
  }

  /** Adds `l` to the open hunk and moves the counters by `dOld` and `dNew`. */
  function Append(st: ParseState, l: DiffLine, dOld: int, dNew: int): ParseState
    requires st.current.Some?
  {
    var h := st.current.value;
    st.(current := Some(h.(lines := h.lines + [l])), oldLine := st.oldLine + dOld, newLine := st.newLine + dNew)
  }

  /** A header line closes the open hunk and opens the one it describes. */
  function HeaderStep(st: ParseState, line: string, grammar: HeaderGrammar): Result<ParseState, ParseError> {
    match grammar(line)
    case Err(e) => Err(e)
    case Ok(h) => Ok(ParseState(st.diff.(hunks := Closed(st)), Some(h), h.oldStart, h.newStart))
  }

  /**
    * The line a non-empty body line becomes, numbered from the counters, or
    * None for a line starting with a character the parser skips.
    */
  function LineFor(line: string, oldNum: int, newNum: int): (r: Option<DiffLine>)
    requires |line| > 0
    ensures r.Some? ==> NumberedAt(r.value, oldNum, newNum)
  {
    if line[0] == '+' then Some(DiffLine(Added, line[1..], 0, newNum))
    else if line[0] == '-' then Some(DiffLine(Removed, line[1..], oldNum, 0))
    else if line[0] == ' ' then Some(DiffLine(Context, line[1..], oldNum, newNum))
    else if line[0] == '\\' then Some(DiffLine(NoNewline, line, 0, 0))
    else None
  }

  /** A non-empty line inside a hunk: its line is added and the counters move past it. */
  function BodyStep(st: ParseState, line: string): ParseState
    requires st.current.Some? && |line| > 0
  {
    match LineFor(line, st.oldLine, st.newLine)
    case None => st
    case Some(l) => Append(st, l, OldStep(l), NewStep(l))
  }

  /** What one line does to the parser's variables; `last` marks the final line of the input. */
  function Step(st: ParseState, line: string, last: bool, grammar: HeaderGrammar): Result<ParseState, ParseError> {
    if last && line == "" then Ok(st)
    else if HasPrefix(line, "--- ") then
      var path := TrimPrefix(line, "--- ");
      Ok(st.(diff := st.diff.(oldFilePath := path, isNew := st.diff.isNew || path == "/dev/null")))
    else if HasPrefix(line, "+++ ") then
      var path := TrimPrefix(line, "+++ ");
      Ok(st.(diff := st.diff.(newFilePath := path, isDeleted := st.diff.isDeleted || path == "/dev/null")))
    else if IsHeader(line) then HeaderStep(st, line, grammar)
    else if st.current.Some? && |line| > 0 then Ok(BodyStep(st, line))
    else Ok(st)
  }

  /** The loop from line `i` on, and the closing of the last hunk after it. */
  function Run(st: ParseState, lines: seq<string>, i: nat, grammar: HeaderGrammar): Result<DiffData, ParseError>
    requires i <= |lines|
    decreases |lines| - i
  {
    if i == |lines| then Ok(st.diff.(hunks := Closed(st)))
    else match Step(st, lines[i], i == |lines| - 1, grammar)
      case Err(e) => Err(e)
      case Ok(next) => Run(next, lines, i + 1, grammar)
  }

  /** A successful step hands the rest of the input to the next state. */
  lemma RunNext(st: ParseState, lines: seq<string>, i: nat, grammar: HeaderGrammar)
    requires i < |lines| && Step(st, lines[i], i == |lines| - 1, grammar).Ok?
    ensures Run(st, lines, i, grammar) == Run(Step(st, lines[i], i == |lines| - 1, grammar).value, lines, i + 1, grammar)
  {
  }

  /** What `ParseDiff(diffText, filePath)` returns. */
  function Parse(diffText: string, filePath: string): Result<DiffData, ParseError> {
    Run(Initial(filePath), Split(diffText, "\n"), 0, ParseHunkHeader)
  }

  /** A body line of the open hunk: its line is added and the counters move past it. */
  method AddBodyLine(st: ParseState, line: string) returns (next: ParseState)
    requires st.current.Some? && |line| > 0
    ensures next == BodyStep(st, line)
  {
    var h, oldLineNum, newLineNum := st.current.value, st.oldLine, st.newLine;
    var current := st.current;
    if line[0] == '+' {
      current := Some(h.(lines := h.lines + [DiffLine(Added, line[1..], 0, newLineNum)]));
      newLineNum := newLineNum + 1;
    } else if line[0] == '-' {
      current := Some(h.(lines := h.lines + [DiffLine(Removed, line[1..], oldLineNum, 0)]));
      oldLineNum := oldLineNum + 1;
    } else if line[0] == ' ' {
      current := Some(h.(lines := h.lines + [DiffLine(Context, line[1..], oldLineNum, newLineNum)]));
      oldLineNum := oldLineNum + 1;
      newLineNum := newLineNum + 1;
    } else if line[0] == '\\' {
      current := Some(h.(lines := h.lines + [DiffLine(NoNewline, line, 0, 0)]));
    }
    next := ParseState(st.diff, current, oldLineNum, newLineNum);
  }

  /** The body of `ParseDiff`'s loop for a line other than an empty last line. */
  method ParseLine(st: ParseState, line: string) returns (r: Result<ParseState, ParseError>)
    ensures r == Step(st, line, false, ParseHunkHeader)
  {
    var diff, current, oldLineNum, newLineNum := st.diff, st.current, st.oldLine, st.newLine;
    if HasPrefix(line, "--- ") {
      diff := diff.(oldFilePath := TrimPrefix(line, "--- "));
      if diff.oldFilePath == "/dev/null" {
        diff := diff.(isNew := true);
      }
    } else if HasPrefix(line, "+++ ") {
      diff := diff.(newFilePath := TrimPrefix(line, "+++ "));
      if diff.newFilePath == "/dev/null" {
        diff := diff.(isDeleted := true);
      }
    } else if HasPrefix(line, "@@") {
      if current.Some? {
        diff := diff.(hunks := diff.hunks + [current.value]);
      }
      var hunk := ParseHunkHeader(line);
      if hunk.Err? {
        return Err(hunk.error);
      }
      current := Some(hunk.value);
      oldLineNum := hunk.value.oldStart;
      newLineNum := hunk.value.newStart;
    } else if current.Some? && |line| > 0 {
      var next := AddBodyLine(st, line);
      return Ok(next);
    }
    r := Ok(ParseState(diff, current, oldLineNum, newLineNum));
  }

  /**
    * `ParseDiff`: one pass over the lines with the open hunk and the two
    * counters in local variables, as the source does it.
    */
  method ParseDiff(diffText: string, filePath: string) returns (r: Result<DiffData, ParseError>)
    ensures r == Parse(diffText, filePath)
  {
    var lines := Split(diffText, "\n");
    var diff := DiffData(filePath, "", "", false, false, false, []);
    var current: Option<DiffHunk> := None;
    var oldLineNum := 0;
    var newLineNum := 0;
    var i := 0;
    while i < |lines|
      invariant 0 <= i <= |lines|
      invariant Run(ParseState(diff, current, oldLineNum, newLineNum), lines, i, ParseHunkHeader) == Parse(diffText, filePath)
    {
      var line := lines[i];
      if i == |lines| - 1 && line == "" {
        i := i + 1;
        continue;
      }
      var step := ParseLine(ParseState(diff, current, oldLineNum, newLineNum), line);
      if step.Err? {
        return Err(step.error);
      }
      diff, current, oldLineNum, newLineNum := step.value.diff, step.value.current, step.value.oldLine, step.value.newLine;
      i := i + 1;
    }
    if current.Some? {
      diff := diff.(hunks := diff.hunks + [current.value]);
    }
    r := Ok(diff);
  }

  // ---------------------------------------------------------------------------
  // Line numbering
  // ---------------------------------------------------------------------------

  /** How far a line moves the old-side counter. */
  function OldStep(l: DiffLine): nat {
    if l.kind == Removed || l.kind == Context then 1 else 0
  }

  /** How far a line moves the new-side counter. */
  function NewStep(l: DiffLine): nat {
    if l.kind == Added || l.kind == Context then 1 else 0
  }

  /** The number of Removed and Context lines. */
  function OldAdvance(ls: seq<DiffLine>): nat {
    if |ls| == 0 then 0 else OldStep(ls[0]) + OldAdvance(ls[1..])
  }

  /** The number of Added and Context lines. */
  function NewAdvance(ls: seq<DiffLine>): nat {
    if |ls| == 0 then 0 else NewStep(ls[0]) + NewAdvance(ls[1..])
  }

  /** The numbers a line of each type carries when it sits at line `oldNum` / `newNum` of its file versions. */
  predicate NumberedAt(l: DiffLine, oldNum: int, newNum: int) {
    match l.kind
    case Added => l.oldNum == 0 && l.newNum == newNum
    case Removed => l.oldNum == oldNum && l.newNum == 0
    case Context => l.oldNum == oldNum && l.newNum == newNum
    case NoNewline => l.oldNum == 0 && l.newNum == 0
  }

  /**
    * The lines are numbered consecutively from `oldNum` and `newNum`: each
    * carries the current numbers of the sides it occupies, and moves past
    * them.
    */
  predicate NumberedFrom(ls: seq<DiffLine>, oldNum: int, newNum: int) {
    |ls| == 0 ||
    (NumberedAt(ls[0], oldNum, newNum) && NumberedFrom(ls[1..], oldNum + OldStep(ls[0]), newNum + NewStep(ls[0])))
  }

  /** A hunk whose numbers are those its header gives and whose lines are numbered from them. */
  predicate GoodHunk(h: DiffHunk, grammar: HeaderGrammar) {
    NumberedFrom(h.lines, h.oldStart, h.newStart) && IsHeader(h.header) && grammar(h.header) == Ok(h.(lines := []))
  }

  /** The invariant of the parser's variables. */
  predicate Consistent(st: ParseState, grammar: HeaderGrammar) {
    && (forall j :: 0 <= j < |st.diff.hunks| ==> GoodHunk(st.diff.hunks[j], grammar))
    && (st.current.Some? ==>
          && GoodHunk(st.current.value, grammar)
          && st.oldLine == st.current.value.oldStart + OldAdvance(st.current.value.lines)
          && st.newLine == st.current.value.newStart + NewAdvance(st.current.value.lines))
    && !st.diff.isRenamed
  }

  lemma {:induction false} AdvanceSnoc(ls: seq<DiffLine>, l: DiffLine)
    ensures OldAdvance(ls + [l]) == OldAdvance(ls) + OldStep(l)
    ensures NewAdvance(ls + [l]) == NewAdvance(ls) + NewStep(l)
    decreases |ls|
  {
    if |ls| == 0 {
      assert (ls + [l])[1..] == [];
    } else {
      assert (ls + [l])[1..] == ls[1..] + [l];
      AdvanceSnoc(ls[1..], l);
    }
  }

  lemma {:induction false} AppendKeepsNumbering(ls: seq<DiffLine>, l: DiffLine, oldNum: int, newNum: int)
    requires NumberedFrom(ls, oldNum, newNum)
    requires NumberedAt(l, oldNum + OldAdvance(ls), newNum + NewAdvance(ls))
    ensures NumberedFrom(ls + [l], oldNum, newNum)
    decreases |ls|
  {
    if |ls| > 0 {
      assert (ls + [l])[1..] == ls[1..] + [l];
      AppendKeepsNumbering(ls[1..], l, oldNum + OldStep(ls[0]), newNum + NewStep(ls[0]));
    }
  }

  lemma AppendConsistent(st: ParseState, l: DiffLine, grammar: HeaderGrammar)
    requires Consistent(st, grammar) && st.current.Some?
    requires NumberedAt(l, st.oldLine, st.newLine)
    ensures Consistent(Append(st, l, OldStep(l), NewStep(l)), grammar)
  {
    var h := st.current.value;
    AppendKeepsNumbering(h.lines, l, h.oldStart, h.newStart);
    AdvanceSnoc(h.lines, l);
    assert h.(lines := h.lines + [l]).(lines := []) == h.(lines := []);
  }

  lemma BodyStepConsistent(st: ParseState, line: string, grammar: HeaderGrammar)
    requires Consistent(st, grammar) && st.current.Some? && |line| > 0
    ensures Consistent(BodyStep(st, line), grammar)
    ensures BodyStep(st, line).diff == st.diff
  {
    var r := LineFor(line, st.oldLine, st.newLine);
    if r.Some? {
      AppendConsistent(st, r.value, grammar);
    }
  }

  lemma HeaderStepConsistent(st: ParseState, line: string, grammar: HeaderGrammar)
    requires KeepsHeader(grammar)
    requires Consistent(st, grammar) && IsHeader(line) && HeaderStep(st, line, grammar).Ok?
    ensures Consistent(HeaderStep(st, line, grammar).value, grammar)
    ensures HeaderStep(st, line, grammar).value.diff.filePath == st.diff.filePath
  {
    var h := grammar(line).value;
    assert h.(lines := []) == h;
    var hs := Closed(st);
    assert forall j :: 0 <= j < |hs| ==> GoodHunk(hs[j], grammar);
  }

  lemma StepConsistent(st: ParseState, line: string, last: bool, grammar: HeaderGrammar)
    requires KeepsHeader(grammar) && Consistent(st, grammar)
    requires Step(st, line, last, grammar).Ok?
    ensures Consistent(Step(st, line, last, grammar).value, grammar)
    ensures Step(st, line, last, grammar).value.diff.filePath == st.diff.filePath
  {
    if last && line == "" {
    } else if HasPrefix(line, "--- ") || HasPrefix(line, "+++ ") {
    } else if IsHeader(line) {
      HeaderStepConsistent(st, line, grammar);
    } else if st.current.Some? && |line| > 0 {
      BodyStepConsistent(st, line, grammar);
    }
  }

  lemma {:induction false} RunConsistent(st: ParseState, lines: seq<string>, i: nat, grammar: HeaderGrammar)
    requires i <= |lines| && KeepsHeader(grammar) && Consistent(st, grammar)
    requires Run(st, lines, i, grammar).Ok?
    ensures forall j :: 0 <= j < |Run(st, lines, i, grammar).value.hunks| ==>
      GoodHunk(Run(st, lines, i, grammar).value.hunks[j], grammar)
    ensures Run(st, lines, i, grammar).value.filePath == st.diff.filePath
    ensures !Run(st, lines, i, grammar).value.isRenamed
    decreases |lines| - i
  {
    if i < |lines| {
      StepConsistent(st, lines[i], i == |lines| - 1, grammar);
      RunConsistent(Step(st, lines[i], i == |lines| - 1, grammar).value, lines, i + 1, grammar);
    }
  }

  /**
    * On success every hunk's four numbers are those its header gives, and
    * its lines are numbered consecutively from the header's starts (see
    * `NumberedHunkAt` for the numbers line by line). `FilePath` is the
    * argument and `IsRenamed` is never set.
    */
  lemma ParseNumbersLines(diffText: string, filePath: string)
    requires Parse(diffText, filePath).Ok?
    ensures Parse(diffText, filePath).value.filePath == filePath
    ensures !Parse(diffText, filePath).value.isRenamed
    ensures forall j :: 0 <= j < |Parse(diffText, filePath).value.hunks| ==>
      GoodHunk(Parse(diffText, filePath).value.hunks[j], ParseHunkHeader)
  {
    HunkHeaderKeeps();
    RunConsistent(Initial(filePath), Split(diffText, "\n"), 0, ParseHunkHeader);
  }

  lemma {:induction false} NumberedFromAt(ls: seq<DiffLine>, oldNum: int, newNum: int, k: nat)
    requires NumberedFrom(ls, oldNum, newNum) && k < |ls|
    ensures NumberedAt(ls[k], oldNum + OldAdvance(ls[..k]), newNum + NewAdvance(ls[..k]))
    decreases k
  {
    if k > 0 {
      NumberedFromAt(ls[1..], oldNum + OldStep(ls[0]), newNum + NewStep(ls[0]), k - 1);
      assert ls[..k][1..] == ls[1..][..k - 1];
    }
  }

  /**
    * In a numbered hunk, line `k` carries the hunk's start plus the number of
    * earlier lines of the hunk on each side it occupies.
    */
  lemma NumberedHunkAt(h: DiffHunk, k: nat)
    requires NumberedFrom(h.lines, h.oldStart, h.newStart) && k < |h.lines|
    ensures NumberedAt(h.lines[k], h.oldStart + OldAdvance(h.lines[..k]), h.newStart + NewAdvance(h.lines[..k]))
  {
    NumberedFromAt(h.lines, h.oldStart, h.newStart, k);
  }

  /** Lines numbered from `newNum` carry new-side numbers no smaller than it, old-side likewise. */
  lemma {:induction false} NumberedFromBelow(ls: seq<DiffLine>, oldNum: int, newNum: int, k: nat)
    requires NumberedFrom(ls, oldNum, newNum) && k < |ls|
    ensures NewStep(ls[k]) == 1 ==> ls[k].newNum >= newNum
    ensures OldStep(ls[k]) == 1 ==> ls[k].oldNum >= oldNum
    decreases k
  {
    if k > 0 {
      NumberedFromBelow(ls[1..], oldNum + OldStep(ls[0]), newNum + NewStep(ls[0]), k - 1);
    }
  }

  lemma {:induction false} NumberedFromIncrease(ls: seq<DiffLine>, oldNum: int, newNum: int, k1: nat, k2: nat)
    requires NumberedFrom(ls, oldNum, newNum) && k1 < k2 < |ls|
    ensures NewStep(ls[k1]) == 1 && NewStep(ls[k2]) == 1 ==> ls[k1].newNum < ls[k2].newNum
    ensures OldStep(ls[k1]) == 1 && OldStep(ls[k2]) == 1 ==> ls[k1].oldNum < ls[k2].oldNum
    decreases k1
  {
    if k1 == 0 {
      NumberedFromBelow(ls[1..], oldNum + OldStep(ls[0]), newNum + NewStep(ls[0]), k2 - 1);
    } else {
      NumberedFromIncrease(ls[1..], oldNum + OldStep(ls[0]), newNum + NewStep(ls[0]), k1 - 1, k2 - 1);
    }
  }

  /**
    * Within a numbered hunk the new-side numbers of the lines present in the
    * new file strictly increase, and so do the old-side numbers of the lines
    * present in the old file.
    */
  lemma NumbersIncrease(h: DiffHunk, k1: nat, k2: nat)
    requires NumberedFrom(h.lines, h.oldStart, h.newStart) && k1 < k2 < |h.lines|
    ensures NewStep(h.lines[k1]) == 1 && NewStep(h.lines[k2]) == 1 ==> h.lines[k1].newNum < h.lines[k2].newNum
    ensures OldStep(h.lines[k1]) == 1 && OldStep(h.lines[k2]) == 1 ==> h.lines[k1].oldNum < h.lines[k2].oldNum
  {
    NumberedFromIncrease(h.lines, h.oldStart, h.newStart, k1, k2);
  }

  // ---------------------------------------------------------------------------
  // Which input lines end up in which hunk
  // ---------------------------------------------------------------------------

  /**
    * The typed text a line adds to the hunk it falls in: `+`, `-` and space
    * lines lose their first character, a backslash line keeps all of it, and file
    * headers, empty lines and lines starting with anything else add nothing.
    */
  function Entry(line: string): seq<(LineType, string)> {
    if |line| == 0 || HasPrefix(line, "--- ") || HasPrefix(line, "+++ ") then []
    else if line[0] == '+' then [(Added, line[1..])]
    else if line[0] == '-' then [(Removed, line[1..])]
    else if line[0] == ' ' then [(Context, line[1..])]
    else if line[0] == '\\' then [(NoNewline, line)]
    else []
  }

  function Entries(ls: seq<string>): seq<(LineType, string)> {
    if |ls| == 0 then [] else Entry(ls[0]) + Entries(ls[1..])
  }

  /** The position of the first header line at or after `i` (or the end). */
  function NextHeader(lines: seq<string>, i: nat): (n: nat)
    requires i <= |lines|
    ensures i <= n <= |lines|
    ensures n < |lines| ==> IsHeader(lines[n])
    ensures forall k :: i <= k < n ==> !IsHeader(lines[k])
    decreases |lines| - i
  {
    if i == |lines| || IsHeader(lines[i]) then i else NextHeader(lines, i + 1)
  }

  /**
    * The input cut at its header lines: for each header line at or after
    * `i`, in order, the header and the lines up to the next header.
    */
  function Segments(lines: seq<string>, i: nat): seq<(string, seq<string>)>
    requires i <= |lines|
    decreases |lines| - i
  {
    var n := NextHeader(lines, i);
    if n == |lines| then []
    else [(lines[n], lines[n + 1..NextHeader(lines, n + 1)])] + Segments(lines, n + 1)
  }

  /** Each segment with its lines replaced by their entries. */
  function SegmentEntries(segs: seq<(string, seq<string>)>): (r: seq<(string, seq<(LineType, string)>)>)
    ensures |r| == |segs|
    ensures forall j :: 0 <= j < |segs| ==> r[j] == (segs[j].0, Entries(segs[j].1))
  {
    if |segs| == 0 then [] else [(segs[0].0, Entries(segs[0].1))] + SegmentEntries(segs[1..])
  }

  /** The segments of the input from `i` on, with their entries. */
  function SegmentOutline(lines: seq<string>, i: nat): seq<(string, seq<(LineType, string)>)>
    requires i <= |lines|
  {
    SegmentEntries(Segments(lines, i))
  }

  /** The kind and text of each line, without the numbers. */
  function Shapes(ls: seq<DiffLine>): (r: seq<(LineType, string)>)
    ensures |r| == |ls|
  {
    if |ls| == 0 then [] else Shapes(ls[..|ls| - 1]) + [(ls[|ls| - 1].kind, ls[|ls| - 1].content)]
  }

  /** The header and line shapes of each hunk. */
  function Outline(hs: seq<DiffHunk>): (r: seq<(string, seq<(LineType, string)>)>)
    ensures |r| == |hs|
  {
    if |hs| == 0 then [] else Outline(hs[..|hs| - 1]) + [(hs[|hs| - 1].header, Shapes(hs[|hs| - 1].lines))]
  }

  lemma ShapesSnoc(ls: seq<DiffLine>, l: DiffLine)
    ensures Shapes(ls + [l]) == Shapes(ls) + [(l.kind, l.content)]
  {
    assert (ls + [l])[..|ls|] == ls;
  }

  lemma OutlineSnoc(hs: seq<DiffHunk>, h: DiffHunk)
    ensures Outline(hs + [h]) == Outline(hs) + [(h.header, Shapes(h.lines))]
  {
    assert (hs + [h])[..|hs|] == hs;
  }

  lemma {:induction false} OutlineAt(hs: seq<DiffHunk>, j: nat)
    requires j < |hs|
    ensures Outline(hs)[j] == (hs[j].header, Shapes(hs[j].lines))
    decreases |hs|
  {
    if j < |hs| - 1 {
      OutlineAt(hs[..|hs| - 1], j);
    }
  }

  /** The outline the state promises: the closed hunks, then the open one with the entries still to come before the next header. */
  function Pending(st: ParseState, lines: seq<string>, i: nat): seq<(string, seq<(LineType, string)>)>
    requires i <= |lines|
  {
    Outline(st.diff.hunks)
      + (if st.current.Some? then
           [(st.current.value.header, Shapes(st.current.value.lines) + Entries(lines[i..NextHeader(lines, i)]))]
         else [])
  }

  /** Where no entries are still to come, the promise is the outline of the closed hunks. */
  lemma PendingClosed(st: ParseState, lines: seq<string>, i: nat)
    requires i <= |lines| && NextHeader(lines, i) == i
    ensures Pending(st, lines, i) == Outline(Closed(st))
  {
    assert Entries(lines[i..i]) == [];
    if st.current.Some? {
      var cur := st.current.value;
      assert Shapes(cur.lines) + Entries(lines[i..i]) == Shapes(cur.lines);
      OutlineSnoc(st.diff.hunks, cur);
    }
  }

  lemma EntriesCons(lines: seq<string>, i: nat, n: nat)
    requires i < n <= |lines|
    ensures Entries(lines[i..n]) == Entry(lines[i]) + Entries(lines[i + 1..n])
  {
    assert lines[i..n][1..] == lines[i + 1..n];
  }

  /** The line a body line becomes has the kind and text of its entry. */
  lemma LineForEntry(line: string, oldNum: int, newNum: int)
    requires |line| > 0 && !HasPrefix(line, "--- ") && !HasPrefix(line, "+++ ")
    ensures LineFor(line, oldNum, newNum).None? ==> Entry(line) == []
    ensures LineFor(line, oldNum, newNum).Some? ==>
      Entry(line) == [(LineFor(line, oldNum, newNum).value.kind, LineFor(line, oldNum, newNum).value.content)]
  {
  }

  lemma BodyStepShapes(st: ParseState, line: string)
    requires st.current.Some? && |line| > 0 && !HasPrefix(line, "--- ") && !HasPrefix(line, "+++ ")
    ensures BodyStep(st, line).current.Some?
    ensures BodyStep(st, line).diff == st.diff
    ensures BodyStep(st, line).current.value.header == st.current.value.header
    ensures Shapes(BodyStep(st, line).current.value.lines) == Shapes(st.current.value.lines) + Entry(line)
  {
    LineForEntry(line, st.oldLine, st.newLine);
    var r := LineFor(line, st.oldLine, st.newLine);
    if r.Some? {
      ShapesSnoc(st.current.value.lines, r.value);
    }
  }

  /** The segments from a header line on: its own, then those after it. */
  lemma SegmentOutlineAtHeader(lines: seq<string>, i: nat)
    requires i < |lines| && IsHeader(lines[i])
    ensures SegmentOutline(lines, i)
      == [(lines[i], Entries(lines[i + 1..NextHeader(lines, i + 1)]))] + SegmentOutline(lines, i + 1)
  {
    var segs := Segments(lines, i + 1);
    var seg := (lines[i], lines[i + 1..NextHeader(lines, i + 1)]);
    assert Segments(lines, i) == [seg] + segs;
    assert ([seg] + segs)[1..] == segs;
  }

  /** A line that is not a header starts no segment. */
  lemma SegmentOutlineSkip(lines: seq<string>, i: nat)
    requires i < |lines| && !IsHeader(lines[i])
    ensures SegmentOutline(lines, i) == SegmentOutline(lines, i + 1)
  {
    assert NextHeader(lines, i) == NextHeader(lines, i + 1);
  }

  /**
    * A step over a line that is not a header keeps the promise when it
    * leaves the closed hunks alone and adds the line's entry to the open one.
    */
  lemma PendingSkip(st: ParseState, next: ParseState, lines: seq<string>, i: nat)
    requires i < |lines| && !IsHeader(lines[i])
    requires next.diff.hunks == st.diff.hunks && next.current.Some? == st.current.Some?
    requires st.current.Some? ==>
      && next.current.value.header == st.current.value.header
      && Shapes(next.current.value.lines) == Shapes(st.current.value.lines) + Entry(lines[i])
    ensures Pending(st, lines, i) == Pending(next, lines, i + 1)
  {
    var n := NextHeader(lines, i);
    assert NextHeader(lines, i + 1) == n;
    if st.current.Some? {
      var h, h' := st.current.value, next.current.value;
      var shapes := Shapes(h.lines);
      var e, tail := Entry(lines[i]), Entries(lines[i + 1..n]);
      calc {
        Pending(st, lines, i);
        Outline(st.diff.hunks) + [(h.header, shapes + Entries(lines[i..n]))];
        { EntriesCons(lines, i, n); }
        Outline(st.diff.hunks) + [(h.header, shapes + (e + tail))];
        { assert shapes + (e + tail) == (shapes + e) + tail; }
        Outline(next.diff.hunks) + [(h'.header, Shapes(h'.lines) + tail)];
        Pending(next, lines, i + 1);
      }
    }
  }

  /** After a header step, the promise is the closed hunks and the new hunk with the entries up to the next header. */
  lemma PendingAfterHeader(st: ParseState, lines: seq<string>, i: nat, grammar: HeaderGrammar)
    requires KeepsHeader(grammar)
    requires i < |lines| && HeaderStep(st, lines[i], grammar).Ok?
    ensures Pending(HeaderStep(st, lines[i], grammar).value, lines, i + 1)
      == Outline(Closed(st)) + [(lines[i], Entries(lines[i + 1..NextHeader(lines, i + 1)]))]
  {
    var next := HeaderStep(st, lines[i], grammar).value;
    var es := Entries(lines[i + 1..NextHeader(lines, i + 1)]);
    assert next.diff.hunks == Closed(st);
    assert next.current.value.header == lines[i] && next.current.value.lines == [];
    assert Shapes(next.current.value.lines) + es == es;
  }

  lemma HeaderStepOutline(st: ParseState, lines: seq<string>, i: nat, grammar: HeaderGrammar)
    requires KeepsHeader(grammar)
    requires i < |lines| && IsHeader(lines[i])
    requires HeaderStep(st, lines[i], grammar).Ok?
    ensures Pending(st, lines, i) + SegmentOutline(lines, i)
      == Pending(HeaderStep(st, lines[i], grammar).value, lines, i + 1) + SegmentOutline(lines, i + 1)
  {
    var seg := [(lines[i], Entries(lines[i + 1..NextHeader(lines, i + 1)]))];
    var closed := Outline(Closed(st));
    var rest := SegmentOutline(lines, i + 1);
    calc {
      Pending(st, lines, i) + SegmentOutline(lines, i);
      { PendingClosed(st, lines, i); SegmentOutlineAtHeader(lines, i); }
      closed + (seg + rest);
      (closed + seg) + rest;
      { PendingAfterHeader(st, lines, i, grammar); }
      Pending(HeaderStep(st, lines[i], grammar).value, lines, i + 1) + rest;
    }
  }

  lemma OtherStepOutline(st: ParseState, lines: seq<string>, i: nat, grammar: HeaderGrammar)
    requires i < |lines| && !IsHeader(lines[i])
    requires Step(st, lines[i], i == |lines| - 1, grammar).Ok?
    ensures Pending(st, lines, i) + SegmentOutline(lines, i)
      == Pending(Step(st, lines[i], i == |lines| - 1, grammar).value, lines, i + 1) + SegmentOutline(lines, i + 1)
  {
    SegmentOutlineSkip(lines, i);
    var line := lines[i];
    var last := i == |lines| - 1;
    var next := Step(st, line, last, grammar).value;
    if st.current.Some? && |line| > 0 && !HasPrefix(line, "--- ") && !HasPrefix(line, "+++ ") {
      assert next == BodyStep(st, line);
      BodyStepShapes(st, line);
    } else {
      assert next.diff.hunks == st.diff.hunks && next.current == st.current;
      assert st.current.Some? ==> Entry(line) == [];
    }
    PendingSkip(st, next, lines, i);
  }

  lemma {:induction false} RunOutline(st: ParseState, lines: seq<string>, i: nat, grammar: HeaderGrammar)
    requires KeepsHeader(grammar)
    requires i <= |lines|
    requires Run(st, lines, i, grammar).Ok?
    ensures Outline(Run(st, lines, i, grammar).value.hunks) == Pending(st, lines, i) + SegmentOutline(lines, i)
    decreases |lines| - i
  {
    if i == |lines| {
      PendingClosed(st, lines, i);
    } else {
      var next := Step(st, lines[i], i == |lines| - 1, grammar).value;
      if IsHeader(lines[i]) {
        assert lines[i][0] == '@';
        assert next == HeaderStep(st, lines[i], grammar).value;
        HeaderStepOutline(st, lines, i, grammar);
      } else {
        OtherStepOutline(st, lines, i, grammar);
      }
      RunOutline(next, lines, i + 1, grammar);
    }
  }

  /**
    * On success there is one hunk per header line, in input order, and the
    * hunk a header opens holds exactly the entries of the lines between it
    * and the next header: `+`, `-` and space lines with their first character
    * dropped, backslash lines whole. File headers (even inside a hunk), empty
    * lines, lines starting with any other character and lines before the
    * first header add nothing.
    */
  lemma ParseSegments(diffText: string, filePath: string)
    requires Parse(diffText, filePath).Ok?
    ensures |Parse(diffText, filePath).value.hunks| == |Segments(Split(diffText, "\n"), 0)|
    ensures forall j :: 0 <= j < |Parse(diffText, filePath).value.hunks| ==>
      && Parse(diffText, filePath).value.hunks[j].header == Segments(Split(diffText, "\n"), 0)[j].0
      && Shapes(Parse(diffText, filePath).value.hunks[j].lines) == Entries(Segments(Split(diffText, "\n"), 0)[j].1)
  {
    var lines := Split(diffText, "\n");
    var hunks := Parse(diffText, filePath).value.hunks;
    HunkHeaderKeeps();
    RunOutline(Initial(filePath), lines, 0, ParseHunkHeader);
    assert Outline(hunks) == SegmentOutline(lines, 0);
    forall j | 0 <= j < |hunks|
      ensures hunks[j].header == Segments(lines, 0)[j].0 && Shapes(hunks[j].lines) == Entries(Segments(lines, 0)[j].1)
    {
      OutlineAt(hunks, j);
    }
  }

  // ---------------------------------------------------------------------------
  // Errors and file headers
  // ---------------------------------------------------------------------------

  /** Some header line at or after `i` is rejected by the header grammar. */
  predicate BadHeaderFrom(lines: seq<string>, i: nat, grammar: HeaderGrammar) {
    exists k :: i <= k < |lines| && IsHeader(lines[k]) && grammar(lines[k]).Err?
  }

  /** Line `k` is the first header line at or after `i` that the header grammar rejects. */
  predicate FirstBadHeader(lines: seq<string>, i: nat, k: int, grammar: HeaderGrammar) {
    && i <= k < |lines| && IsHeader(lines[k]) && grammar(lines[k]).Err?
    && forall m :: i <= m < k && IsHeader(lines[m]) ==> grammar(lines[m]).Ok?
  }

  lemma StepFails(st: ParseState, line: string, last: bool, grammar: HeaderGrammar)
    ensures Step(st, line, last, grammar).Err? <==> IsHeader(line) && grammar(line).Err?
    ensures Step(st, line, last, grammar).Err? ==> Step(st, line, last, grammar).error == grammar(line).error
  {
    if IsHeader(line) {
      assert line[0] == '@';
    }
  }

  lemma {:induction false} RunFailsIff(st: ParseState, lines: seq<string>, i: nat, grammar: HeaderGrammar)
    requires i <= |lines|
    ensures Run(st, lines, i, grammar).Err? <==> BadHeaderFrom(lines, i, grammar)
    decreases |lines| - i
  {
    if i < |lines| {
      var line := lines[i];
      StepFails(st, line, i == |lines| - 1, grammar);
      if !(IsHeader(line) && grammar(line).Err?) {
        var next := Step(st, line, i == |lines| - 1, grammar).value;
        RunNext(st, lines, i, grammar);
        RunFailsIff(next, lines, i + 1, grammar);
        if BadHeaderFrom(lines, i, grammar) {
          var k :| i <= k < |lines| && IsHeader(lines[k]) && grammar(lines[k]).Err?;
          assert i + 1 <= k;
        }
      }
    }
  }

  lemma {:induction false} RunFirstError(st: ParseState, lines: seq<string>, i: nat, grammar: HeaderGrammar)
    requires i <= |lines| && Run(st, lines, i, grammar).Err?
    ensures exists k :: FirstBadHeader(lines, i, k, grammar) && grammar(lines[k]).error == Run(st, lines, i, grammar).error
    decreases |lines| - i
  {
    var line := lines[i];
    StepFails(st, line, i == |lines| - 1, grammar);
    if IsHeader(line) && grammar(line).Err? {
      assert FirstBadHeader(lines, i, i, grammar);
    } else {
      var next := Step(st, line, i == |lines| - 1, grammar).value;
      RunNext(st, lines, i, grammar);
      RunFirstError(next, lines, i + 1, grammar);
      var k :| FirstBadHeader(lines, i + 1, k, grammar) && grammar(lines[k]).error == Run(next, lines, i + 1, grammar).error;
      assert FirstBadHeader(lines, i, k, grammar);
    }
  }

  /**
    * `ParseDiff` fails exactly when some line starting with "@@" is not a
    * valid hunk header, and then with the error of the first such line.
    */
  lemma ParseFailsIff(diffText: string, filePath: string)
    ensures Parse(diffText, filePath).Err? <==> BadHeaderFrom(Split(diffText, "\n"), 0, ParseHunkHeader)
    ensures Parse(diffText, filePath).Err? ==>
      exists k :: FirstBadHeader(Split(diffText, "\n"), 0, k, ParseHunkHeader)
        && ParseHunkHeader(Split(diffText, "\n")[k]).error == Parse(diffText, filePath).error
  {
    RunFailsIff(Initial(filePath), Split(diffText, "\n"), 0, ParseHunkHeader);
    if Parse(diffText, filePath).Err? {
      RunFirstError(Initial(filePath), Split(diffText, "\n"), 0, ParseHunkHeader);
    }
  }

  lemma {:induction false} SegmentsNone(lines: seq<string>, i: nat)
    requires i <= |lines|
    requires forall k :: i <= k < |lines| ==> !IsHeader(lines[k])
    ensures Segments(lines, i) == []
  {
    assert NextHeader(lines, i) == |lines|;
  }

  /**
    * Input with no line starting with "@@" (the empty input among them)
    * parses without error to an empty hunk list, with `FilePath` the argument.
    */
  lemma ParseWithoutHeaders(diffText: string, filePath: string)
    requires forall k :: 0 <= k < |Split(diffText, "\n")| ==> !IsHeader(Split(diffText, "\n")[k])
    ensures Parse(diffText, filePath).Ok?
    ensures Parse(diffText, filePath).value.hunks == []
    ensures Parse(diffText, filePath).value.filePath == filePath
  {
    ParseFailsIff(diffText, filePath);
    ParseSegments(diffText, filePath);
    SegmentsNone(Split(diffText, "\n"), 0);
    ParseNumbersLines(diffText, filePath);
  }

  /** The empty diff: no hunks, no error, nothing set but the path. */
  lemma ParseEmpty(filePath: string)
    ensures Parse("", filePath) == Ok(DiffData(filePath, "", "", false, false, false, []))
  {
    SplitFree("", "\n");
    var st := Initial(filePath);
    assert Step(st, "", true, ParseHunkHeader) == Ok(st);
    assert Run(st, [""], 1, ParseHunkHeader) == Ok(st.diff);
  }

  /** The last line at or after `i` that starts with `prefix` is line `k`. */
  predicate LastWithPrefix(lines: seq<string>, prefix: string, i: nat, k: int) {
    && i <= k < |lines| && HasPrefix(lines[k], prefix)
    && forall m :: k < m < |lines| ==> !HasPrefix(lines[m], prefix)
  }

  /** What one line does to the old-file fields. */
  lemma StepOldFile(st: ParseState, line: string, last: bool, grammar: HeaderGrammar)
    requires Step(st, line, last, grammar).Ok?
    ensures Step(st, line, last, grammar).value.diff.oldFilePath ==
      (if HasPrefix(line, "--- ") then line[4..] else st.diff.oldFilePath)
    ensures Step(st, line, last, grammar).value.diff.isNew <==> st.diff.isNew || line == "--- /dev/null"
  {
    if HasPrefix(line, "--- ") {
      assert line == "--- " + line[4..];
    }
  }

  /** What one line does to the new-file fields. */
  lemma StepNewFile(st: ParseState, line: string, last: bool, grammar: HeaderGrammar)
    requires Step(st, line, last, grammar).Ok?
    ensures Step(st, line, last, grammar).value.diff.newFilePath ==
      (if HasPrefix(line, "+++ ") then line[4..] else st.diff.newFilePath)
    ensures Step(st, line, last, grammar).value.diff.isDeleted <==> st.diff.isDeleted || line == "+++ /dev/null"
  {
    if HasPrefix(line, "+++ ") {
      assert line == "+++ " + line[4..];
      assert !HasPrefix(line, "--- ") by { assert line[0] == '+'; }
    }
  }

  lemma {:induction false} RunOldFile(st: ParseState, lines: seq<string>, i: nat, grammar: HeaderGrammar)
    requires i <= |lines| && Run(st, lines, i, grammar).Ok?
    ensures (forall k :: i <= k < |lines| ==> !HasPrefix(lines[k], "--- ")) ==>
      Run(st, lines, i, grammar).value.oldFilePath == st.diff.oldFilePath
    ensures forall k :: LastWithPrefix(lines, "--- ", i, k) ==> Run(st, lines, i, grammar).value.oldFilePath == lines[k][4..]
    ensures Run(st, lines, i, grammar).value.isNew <==>
      st.diff.isNew || exists k :: i <= k < |lines| && lines[k] == "--- /dev/null"
    decreases |lines| - i
  {
    if i < |lines| {
      var line := lines[i];
      StepOldFile(st, line, i == |lines| - 1, grammar);
      var next := Step(st, line, i == |lines| - 1, grammar).value;
      RunNext(st, lines, i, grammar);
      RunOldFile(next, lines, i + 1, grammar);
      forall k | LastWithPrefix(lines, "--- ", i, k)
        ensures Run(st, lines, i, grammar).value.oldFilePath == lines[k][4..]
      {
        if k > i {
          assert LastWithPrefix(lines, "--- ", i + 1, k);
        }
      }
      if exists k :: i <= k < |lines| && lines[k] == "--- /dev/null" {
        var k :| i <= k < |lines| && lines[k] == "--- /dev/null";
        if k > i {
          assert i + 1 <= k;
        }
      }
    }
  }

  lemma {:induction false} RunNewFile(st: ParseState, lines: seq<string>, i: nat, grammar: HeaderGrammar)
    requires i <= |lines| && Run(st, lines, i, grammar).Ok?
    ensures (forall k :: i <= k < |lines| ==> !HasPrefix(lines[k], "+++ ")) ==>
      Run(st, lines, i, grammar).value.newFilePath == st.diff.newFilePath
    ensures forall k :: LastWithPrefix(lines, "+++ ", i, k) ==> Run(st, lines, i, grammar).value.newFilePath == lines[k][4..]
    ensures Run(st, lines, i, grammar).value.isDeleted <==>
      st.diff.isDeleted || exists k :: i <= k < |lines| && lines[k] == "+++ /dev/null"
    decreases |lines| - i
  {
    if i < |lines| {
      var line := lines[i];
      StepNewFile(st, line, i == |lines| - 1, grammar);
      var next := Step(st, line, i == |lines| - 1, grammar).value;
      RunNext(st, lines, i, grammar);
      RunNewFile(next, lines, i + 1, grammar);
      forall k | LastWithPrefix(lines, "+++ ", i, k)
        ensures Run(st, lines, i, grammar).value.newFilePath == lines[k][4..]
      {
        if k > i {
          assert LastWithPrefix(lines, "+++ ", i + 1, k);
        }
      }
      if exists k :: i <= k < |lines| && lines[k] == "+++ /dev/null" {
        var k :| i <= k < |lines| && lines[k] == "+++ /dev/null";
        if k > i {
          assert i + 1 <= k;
        }
      }
    }
  }

  /**
    * `OldFilePath` is what follows "--- " on the last line that starts with
    * it (wherever it stands, inside a hunk too), "" if there is none, and
    * `IsNew` holds iff some such line names /dev/null.
    */
  lemma ParseOldFile(diffText: string, filePath: string)
    requires Parse(diffText, filePath).Ok?
    ensures (forall k :: 0 <= k < |Split(diffText, "\n")| ==> !HasPrefix(Split(diffText, "\n")[k], "--- ")) ==>
      Parse(diffText, filePath).value.oldFilePath == ""
    ensures forall k :: LastWithPrefix(Split(diffText, "\n"), "--- ", 0, k) ==>
      Parse(diffText, filePath).value.oldFilePath == Split(diffText, "\n")[k][4..]
    ensures Parse(diffText, filePath).value.isNew <==>
      exists k :: 0 <= k < |Split(diffText, "\n")| && Split(diffText, "\n")[k] == "--- /dev/null"
  {
    RunOldFile(Initial(filePath), Split(diffText, "\n"), 0, ParseHunkHeader);
  }

  /** The same for "+++ ", `NewFilePath` and `IsDeleted`. */
  lemma ParseNewFile(diffText: string, filePath: string)
    requires Parse(diffText, filePath).Ok?
    ensures (forall k :: 0 <= k < |Split(diffText, "\n")| ==> !HasPrefix(Split(diffText, "\n")[k], "+++ ")) ==>
      Parse(diffText, filePath).value.newFilePath == ""
    ensures forall k :: LastWithPrefix(Split(diffText, "\n"), "+++ ", 0, k) ==>
      Parse(diffText, filePath).value.newFilePath == Split(diffText, "\n")[k][4..]
    ensures Parse(diffText, filePath).value.isDeleted <==>
      exists k :: 0 <= k < |Split(diffText, "\n")| && Split(diffText, "\n")[k] == "+++ /dev/null"
  {
    RunNewFile(Initial(filePath), Split(diffText, "\n"), 0, ParseHunkHeader);
  }

  /**
    * When `ParseDiff` fails, the error is about the range part of a header:
    * the "invalid hunk header" and "invalid hunk header format" errors of
    * `parseHunkHeader` cannot come out of it, because it only hands over
    * lines that start with "@@".
    */
  lemma ParseErrorKinds(diffText: string, filePath: string)
    requires Parse(diffText, filePath).Err?
    ensures || Parse(diffText, filePath).error.InvalidRangeFormat?
            || Parse(diffText, filePath).error.InvalidOldRange?
            || Parse(diffText, filePath).error.InvalidNewRange?
  {
    ParseFailsIff(diffText, filePath);
    var lines := Split(diffText, "\n");
    var k :| FirstBadHeader(lines, 0, k, ParseHunkHeader)
      && ParseHunkHeader(lines[k]).error == Parse(diffText, filePath).error;
    HeaderLineErrors(lines[k]);
  }

  // ---------------------------------------------------------------------------
  // GetAddedLines, GetRemovedLines, GetContextLines
  // ---------------------------------------------------------------------------

  /** The lines of all hunks, hunk after hunk. */
  function AllLines(hs: seq<DiffHunk>): seq<DiffLine> {
    if |hs| == 0 then [] else AllLines(hs[..|hs| - 1]) + hs[|hs| - 1].lines
  }

  /** The lines of type `kind`, in their order. */
  function OfKind(ls: seq<DiffLine>, kind: LineType): seq<DiffLine> {
    if |ls| == 0 then []
    else OfKind(ls[..|ls| - 1], kind) + (if ls[|ls| - 1].kind == kind then [ls[|ls| - 1]] else [])
  }

  lemma OfKindSnoc(ls: seq<DiffLine>, l: DiffLine, kind: LineType)
    ensures OfKind(ls + [l], kind) == OfKind(ls, kind) + (if l.kind == kind then [l] else [])
  {
    assert (ls + [l])[..|ls|] == ls;
  }

  lemma AllLinesPrefix(hs: seq<DiffHunk>, j: nat)
    requires j < |hs|
    ensures AllLines(hs[..j + 1]) == AllLines(hs[..j]) + hs[j].lines
  {
    assert hs[..j + 1][..j] == hs[..j];
  }

  /** The inner loop the three getters share: one hunk's lines of type `kind` appended. */
  method CollectHunkLines(r0: seq<DiffLine>, ls: seq<DiffLine>, kind: LineType) returns (r: seq<DiffLine>)
    ensures r == r0 + OfKind(ls, kind)
  {
    r := r0;
    var k := 0;
    while k < |ls|
      invariant 0 <= k <= |ls|
      invariant r == r0 + OfKind(ls[..k], kind)
    {
      ghost var seen := OfKind(ls[..k], kind);
      assert OfKind(ls[..k + 1], kind) == seen + (if ls[k].kind == kind then [ls[k]] else []) by {
        assert ls[..k + 1] == ls[..k] + [ls[k]];
        OfKindSnoc(ls[..k], ls[k], kind);
      }
      if ls[k].kind == kind {
        r := r + [ls[k]];
        assert r == r0 + (seen + [ls[k]]);
      } else {
        assert seen + [] == seen;
      }
      k := k + 1;
    }
    assert ls[..k] == ls;
  }

  /**
    * The loop the three getters share: over the hunks, and within each over
    * its lines, keeping those of type `kind`.
    */
  method CollectLines(d: DiffData, kind: LineType) returns (r: seq<DiffLine>)
    ensures r == OfKind(AllLines(d.hunks), kind)
  {
    r := [];
    var j := 0;
    while j < |d.hunks|
      invariant 0 <= j <= |d.hunks|
      invariant r == OfKind(AllLines(d.hunks[..j]), kind)
    {
      r := CollectHunkLines(r, d.hunks[j].lines, kind);
      AllLinesPrefix(d.hunks, j);
      OfKindConcat(AllLines(d.hunks[..j]), d.hunks[j].lines, kind);
      j := j + 1;
    }
    assert d.hunks[..j] == d.hunks;
  }

  /** `GetAddedLines`. */
  method GetAddedLines(d: DiffData) returns (r: seq<DiffLine>)
    ensures r == OfKind(AllLines(d.hunks), Added)
  {
    r := CollectLines(d, Added);
  }

  /** `GetRemovedLines`. */
  method GetRemovedLines(d: DiffData) returns (r: seq<DiffLine>)
    ensures r == OfKind(AllLines(d.hunks), Removed)
  {
    r := CollectLines(d, Removed);
  }

  /** `GetContextLines`. */
  method GetContextLines(d: DiffData) returns (r: seq<DiffLine>)
    ensures r == OfKind(AllLines(d.hunks), Context)
  {
    r := CollectLines(d, Context);
  }

  /** Every line kept has the type asked for. */
  lemma {:induction false} OfKindOnly(ls: seq<DiffLine>, kind: LineType)
    ensures forall k :: 0 <= k < |OfKind(ls, kind)| ==> OfKind(ls, kind)[k].kind == kind
    decreases |ls|
  {
    if |ls| > 0 {
      OfKindOnly(ls[..|ls| - 1], kind);
    }
  }

  /** A line is kept exactly when it is one of the input's lines and has the type. */
  lemma {:induction false} OfKindMembers(ls: seq<DiffLine>, kind: LineType, l: DiffLine)
    ensures l in OfKind(ls, kind) <==> l in ls && l.kind == kind
    decreases |ls|
  {
    if |ls| > 0 {
      var init := ls[..|ls| - 1];
      OfKindMembers(init, kind, l);
      assert ls == init + [ls[|ls| - 1]];
    }
  }

  /** Filtering a concatenation filters each part, keeping their order. */
  lemma {:induction false} OfKindConcat(a: seq<DiffLine>, b: seq<DiffLine>, kind: LineType)
    ensures OfKind(a + b, kind) == OfKind(a, kind) + OfKind(b, kind)
    decreases |b|
  {
    if |b| > 0 {
      var init, l := b[..|b| - 1], b[|b| - 1];
      var x := if l.kind == kind then [l] else [];
      calc {
        OfKind(a + b, kind);
        { assert a + b == (a + init) + [l]; OfKindSnoc(a + init, l, kind); }
        OfKind(a + init, kind) + x;
        { OfKindConcat(a, init, kind); }
        (OfKind(a, kind) + OfKind(init, kind)) + x;
        OfKind(a, kind) + (OfKind(init, kind) + x);
        { assert b == init + [l]; OfKindSnoc(init, l, kind); }
        OfKind(a, kind) + OfKind(b, kind);
      }
    } else {
      assert a + b == a;
    }
  }

  /**
    * Each getter's result is the lines of that type of the first hunk, then
    * those of the second, and so on.
    */
  lemma OfKindByHunk(hs: seq<DiffHunk>, h: DiffHunk, kind: LineType)
    ensures OfKind(AllLines(hs + [h]), kind) == OfKind(AllLines(hs), kind) + OfKind(h.lines, kind)
  {
    assert (hs + [h])[..|hs|] == hs;
    OfKindConcat(AllLines(hs), h.lines, kind);
  }

  /** Every line has exactly one of the four types, so the four filters share out the lines. */
  lemma {:induction false} OfKindLengths(ls: seq<DiffLine>)
    ensures |OfKind(ls, Added)| + |OfKind(ls, Removed)| + |OfKind(ls, Context)| + |OfKind(ls, NoNewline)| == |ls|
    decreases |ls|
  {
    if |ls| > 0 {
      OfKindLengths(ls[..|ls| - 1]);
    }
  }

  // ---------------------------------------------------------------------------
  // FormatForReview
  // ---------------------------------------------------------------------------

  /** The status line: new, else deleted, else renamed, else none. */
  function StatusLine(d: DiffData): string {
    if d.isNew then "Status: New file\n"
    else if d.isDeleted then "Status: Deleted file\n"
    else if d.isRenamed then "Status: Renamed from " + d.oldFilePath + "\n"
    else ""
  }

  /** The title a hunk gets in the review: its four numbers, then its header if it has one. */
  function HunkTitle(h: DiffHunk): string {
    HeaderText(h.oldStart, h.oldCount, h.newStart, h.newCount) + (if h.header != "" then " " + h.header else "")
  }

  /** The review text of one typed entry; backslash lines are left out. */
  function RenderEntry(e: (LineType, string)): string {
    match e.0
    case Added => "+" + e.1 + "\n"
    case Removed => "-" + e.1 + "\n"
    case Context => " " + e.1 + "\n"
    case NoNewline => ""
  }

  function RenderLines(ls: seq<DiffLine>): string {
    if |ls| == 0 then "" else RenderLines(ls[..|ls| - 1]) + RenderEntry((ls[|ls| - 1].kind, ls[|ls| - 1].content))
  }

  /** The review text of one hunk: a blank line, its title, then its lines. */
  function HunkText(h: DiffHunk): string {
    "\n" + HunkTitle(h) + "\n" + RenderLines(h.lines)
  }

  function RenderHunks(hs: seq<DiffHunk>): string {
    if |hs| == 0 then "" else RenderHunks(hs[..|hs| - 1]) + HunkText(hs[|hs| - 1])
  }

  /** What `FormatForReview` returns. */
  function Review(d: DiffData): string {
    "File: " + d.filePath + "\n" + StatusLine(d) + "\nChanges:\n" + RenderHunks(d.hunks)
  }

  lemma Shift(a: string, b: string, c: string)
    ensures (a + b) + c == a + (b + c)
  {
  }

  /** `b` with the entries of `ls` written after it one by one. */
  function LinesWritten(b: string, ls: seq<DiffLine>): string {
    if |ls| == 0 then b else LinesWritten(b, ls[..|ls| - 1]) + RenderEntry((ls[|ls| - 1].kind, ls[|ls| - 1].content))
  }

  lemma {:induction false} LinesWrittenAfter(b: string, ls: seq<DiffLine>)
    ensures LinesWritten(b, ls) == b + RenderLines(ls)
    decreases |ls|
  {
    if |ls| > 0 {
      var init := ls[..|ls| - 1];
      var e := RenderEntry((ls[|ls| - 1].kind, ls[|ls| - 1].content));
      LinesWrittenAfter(b, init);
      Shift(b, RenderLines(init), e);
    } else {
      assert b + "" == b;
    }
  }

  /** `b` with the texts of the hunks `hs` written after it one by one. */
  function HunksWritten(b: string, hs: seq<DiffHunk>): string {
    if |hs| == 0 then b else HunksWritten(b, hs[..|hs| - 1]) + HunkText(hs[|hs| - 1])
  }

  lemma {:induction false} HunksWrittenAfter(b: string, hs: seq<DiffHunk>)
    ensures HunksWritten(b, hs) == b + RenderHunks(hs)
    decreases |hs|
  {
    if |hs| > 0 {
      var init := hs[..|hs| - 1];
      HunksWrittenSnoc(b, init, hs[|hs| - 1]);
    } else {
      assert b + "" == b;
    }
  }

  lemma {:induction false} HunksWrittenSnoc(b: string, init: seq<DiffHunk>, h: DiffHunk)
    ensures HunksWritten(b, init + [h]) == b + RenderHunks(init + [h])
    decreases |init| + 1, 0
  {
    assert (init + [h])[..|init|] == init;
    HunksWrittenAfter(b, init);
    Shift(b, RenderHunks(init), HunkText(h));
  }

  lemma HunksWrittenStep(b: string, hs: seq<DiffHunk>, j: nat)
    requires j < |hs|
    ensures HunksWritten(b, hs[..j + 1]) == HunksWritten(b, hs[..j]) + HunkText(hs[j])
  {
    assert hs[..j + 1][..j] == hs[..j];
  }

  /** The title line of a hunk, written after `b` in the pieces `FormatForReview` writes it in. */
  method WriteTitle(b: string, h: DiffHunk) returns (r: string)
    ensures r == b + ("\n" + HunkTitle(h) + "\n")
  {
    var numbers := HeaderText(h.oldStart, h.oldCount, h.newStart, h.newCount);
    r := b + ("\n" + numbers);
    if h.header != "" {
      r := r + (" " + h.header);
    } else {
      assert numbers + "" == numbers;
    }
    r := r + "\n";
  }

  /** The loop over one hunk's lines: each entry's text written after `b`; backslash lines write nothing. */
  method WriteLines(b: string, ls: seq<DiffLine>) returns (r: string)
    ensures r == b + RenderLines(ls)
  {
    r := b;
    var k := 0;
    while k < |ls|
      invariant 0 <= k <= |ls|
      invariant r == LinesWritten(b, ls[..k])
    {
      var l := ls[k];
      ghost var before := r;
      if l.kind == Added {
        r := r + ("+" + l.content + "\n");
      } else if l.kind == Removed {
        r := r + ("-" + l.content + "\n");
      } else if l.kind == Context {
        r := r + (" " + l.content + "\n");
      } else {
        assert before + "" == before;
      }
      assert ls[..k + 1][..k] == ls[..k];
      k := k + 1;
    }
    assert ls[..k] == ls;
    LinesWrittenAfter(b, ls);
  }

  /**
    * The body of `FormatForReview`'s loop over the hunks: one hunk's text
    * written after what the builder `b` already holds.
    */
  method WriteHunk(b: string, h: DiffHunk) returns (r: string)
    ensures r == b + HunkText(h)
  {
    r := WriteTitle(b, h);
    r := WriteLines(r, h.lines);
    Shift(b, "\n" + HunkTitle(h) + "\n", RenderLines(h.lines));
  }

  /** The file line, the status line and the `Changes:` line of `FormatForReview`. */
  method WriteHeader(d: DiffData) returns (r: string)
    ensures r == "File: " + d.filePath + "\n" + StatusLine(d) + "\nChanges:\n"
  {
    r := "File: " + d.filePath + "\n";
    ghost var file := r;
    if d.isNew {
      r := r + "Status: New file\n";
    } else if d.isDeleted {
      r := r + "Status: Deleted file\n";
    } else if d.isRenamed {
      r := r + ("Status: Renamed from " + d.oldFilePath + "\n");
    } else {
      assert file + "" == file;
    }
    r := r + "\nChanges:\n";
  }

  /** `FormatForReview`'s loop over the hunks: each hunk's text written after `b`. */
  method WriteHunks(b: string, hs: seq<DiffHunk>) returns (r: string)
    ensures r == b + RenderHunks(hs)
  {
    r := b;
    var j := 0;
    while j < |hs|
      invariant 0 <= j <= |hs|
      invariant r == HunksWritten(b, hs[..j])
    {
      HunksWrittenStep(b, hs, j);
      r := WriteHunk(r, hs[j]);
      j := j + 1;
    }
    assert hs[..j] == hs;
    HunksWrittenAfter(b, hs);
  }

  /** `FormatForReview`: the text written piece by piece into a builder. */
  method FormatForReview(d: DiffData) returns (r: string)
    ensures r == Review(d)
  {
    r := WriteHeader(d);
    r := WriteHunks(r, d.hunks);
  }

  /** A string begins with any string it was made by extending. */
  lemma PrefixOfConcat(a: string, b: string)
    ensures HasPrefix(a + b, a)
  {
    assert (a + b)[..|a|] == a;
  }

  /** The review begins with the file line, followed by the status line when there is one. */
  lemma ReviewStart(d: DiffData)
    ensures HasPrefix(Review(d), "File: " + d.filePath + "\n" + StatusLine(d))
    ensures StatusLine(d) == "" <==> !d.isNew && !d.isDeleted && !d.isRenamed
  {
    PrefixOfConcat("File: " + d.filePath + "\n" + StatusLine(d), "\nChanges:\n" + RenderHunks(d.hunks));
    Shift("File: " + d.filePath + "\n" + StatusLine(d), "\nChanges:\n", RenderHunks(d.hunks));
  }

  function RenderEntries(es: seq<(LineType, string)>): string {
    if |es| == 0 then "" else RenderEntry(es[0]) + RenderEntries(es[1..])
  }

  lemma {:induction false} RenderEntriesConcat(a: seq<(LineType, string)>, b: seq<(LineType, string)>)
    ensures RenderEntries(a + b) == RenderEntries(a) + RenderEntries(b)
    decreases |a|
  {
    if |a| == 0 {
      assert a + b == b;
    } else {
      assert (a + b)[1..] == a[1..] + b;
      RenderEntriesConcat(a[1..], b);
    }
  }

  /** A hunk's lines render as the entries they were made from. */
  lemma {:induction false} RenderLinesShapes(ls: seq<DiffLine>)
    ensures RenderLines(ls) == RenderEntries(Shapes(ls))
    decreases |ls|
  {
    if |ls| > 0 {
      var init, l := ls[..|ls| - 1], ls[|ls| - 1];
      RenderLinesShapes(init);
      var e := (l.kind, l.content);
      RenderEntriesConcat(Shapes(init), [e]);
      assert [e][1..] == [];
    }
  }

  /** A body line the review shows verbatim: non-empty, no file header, starting with '+', '-' or a space. */
  predicate Echoed(line: string) {
    |line| > 0 && !HasPrefix(line, "--- ") && !HasPrefix(line, "+++ ")
    && (line[0] == '+' || line[0] == '-' || line[0] == ' ')
  }

  /** The input lines the review shows, each with its newline. */
  function Echo(ls: seq<string>): string {
    if |ls| == 0 then "" else (if Echoed(ls[0]) then ls[0] + "\n" else "") + Echo(ls[1..])
  }

  lemma EntryEcho(line: string)
    ensures RenderEntries(Entry(line)) == (if Echoed(line) then line + "\n" else "")
  {
    if Echoed(line) {
      assert line == [line[0]] + line[1..];
      assert Entry(line)[1..] == [];
    } else if Entry(line) != [] {
      assert Entry(line)[1..] == [];
    }
  }

  lemma {:induction false} EntriesEcho(ls: seq<string>)
    ensures RenderEntries(Entries(ls)) == Echo(ls)
    decreases |ls|
  {
    if |ls| > 0 {
      EntriesEcho(ls[1..]);
      EntryEcho(ls[0]);
      RenderEntriesConcat(Entry(ls[0]), Entries(ls[1..]));
    }
  }

  /**
    * The review shows each parsed hunk's body exactly as the input had it:
    * the `+`, `-` and space lines of the hunk's segment, verbatim and in
    * order, and nothing else (no backslash line, file header or skipped line).
    */
  lemma ReviewEchoesInput(diffText: string, filePath: string, j: nat)
    requires Parse(diffText, filePath).Ok? && j < |Parse(diffText, filePath).value.hunks|
    ensures j < |Segments(Split(diffText, "\n"), 0)|
    ensures RenderLines(Parse(diffText, filePath).value.hunks[j].lines) == Echo(Segments(Split(diffText, "\n"), 0)[j].1)
  {
    ParseSegments(diffText, filePath);
    var h := Parse(diffText, filePath).value.hunks[j];
    RenderLinesShapes(h.lines);
    EntriesEcho(Segments(Split(diffText, "\n"), 0)[j].1);
  }

  /**
    * The title the review prints for a parsed hunk is itself a header line
    * that parses back to the hunk's four numbers.
    */
  lemma ReviewTitleParses(h: DiffHunk)
    requires ParseHunkHeader(h.header) == Ok(h.(lines := []))
    ensures ParseHunkHeader(HunkTitle(h)).Ok?
    ensures ParseHunkHeader(HunkTitle(h)).value == DiffHunk(h.oldStart, h.oldCount, h.newStart, h.newCount, HunkTitle(h), [])
  {
    HunkHeaderInRange(h.header);
    ParseHunkHeaderRoundTrip(h.oldStart, h.oldCount, h.newStart, h.newCount, if h.header != "" then " " + h.header else "");
  }
}
