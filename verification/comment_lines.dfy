/** `CommentLineAnalyzer`: classifies lines as line comments or block-comment lines,
    skips forward past block comments, and records the coordinates of `"…"` literals. */
module CommentLineAnalyzer {
  import opened Results
  import opened Text
  import LineParser

  /** How a line was registered: not at all, as a line comment, or as a block-comment line. */
  datatype LineKind = Plain | LineComment | BlockComment

  /** The new block-comment status after a line, and how the line was registered. */
  datatype StatusUpdate = StatusUpdate(status: bool, kind: LineKind)

  /** `UpdateCommentLineCount`: `status` says whether the line starts inside a block comment. */
  function UpdateCommentLineCount(line: string, status: bool): (u: StatusUpdate)
    ensures EndsWith(line, "*/") ==> !u.status
    ensures !status && u.status ==> LineParser.HasActiveMultiLineCommentOpener(line)
    ensures !status && !LineParser.HasActiveMultiLineCommentOpener(line) ==>
              (u.kind == LineComment <==> StartsWith(line, "//"))
    ensures u.kind == BlockComment <==> status || LineParser.HasActiveMultiLineCommentOpener(line)
    ensures u.status ==> u.kind == BlockComment
    ensures u.status <==> (status || LineParser.HasActiveMultiLineCommentOpener(line))
                          && !EndsWith(line, "*/")
  {
    var newStatus := status || LineParser.HasActiveMultiLineCommentOpener(line);
    var kind :=
      if newStatus then BlockComment
      else if StartsWith(line, "//") then LineComment
      else Plain;
    StatusUpdate(newStatus && !EndsWith(line, "*/"), kind)
  }

  /** The counters of an analyzer, the comment lines it reported, and its status. */
  datatype Tally = Tally(lineComments: nat, multiLineComments: nat, comments: seq<string>, status: bool)

  /** The loop of `CountCommentLines` over `lines`, entered with block-comment `status`. */
  function CountFrom(lines: seq<string>, status: bool): (t: Tally)
    ensures t.lineComments + t.multiLineComments <= |lines|
    ensures |t.comments| == t.lineComments + t.multiLineComments
    decreases |lines|
  {
    if |lines| == 0 then Tally(0, 0, [], status)
    else
      var u := UpdateCommentLineCount(lines[0], status);
      Register(u.kind, lines[0], CountFrom(lines[1..], u.status))
  }

  /** Adds one line, registered as `kind`, in front of the tally of the lines after it. */
  function Register(kind: LineKind, line: string, rest: Tally): Tally {
    match kind
    case Plain => rest
    case LineComment =>
      Tally(rest.lineComments + 1, rest.multiLineComments, [line] + rest.comments, rest.status)
    case BlockComment =>
      Tally(rest.lineComments, rest.multiLineComments + 1, [line] + rest.comments, rest.status)
  }

  /** The tally of `a` followed by that of `b`, with the status `b` ends in. */
  function Combine(ta: Tally, tb: Tally): Tally {
    Tally(ta.lineComments + tb.lineComments, ta.multiLineComments + tb.multiLineComments,
          ta.comments + tb.comments, tb.status)
  }

  /** `CountCommentLines` on a fresh analyzer: every line is registered at most once, so
      the two counts never exceed the number of lines. */
  function CountCommentLines(lines: seq<string>): (t: Tally)
    ensures t.lineComments + t.multiLineComments <= |lines|
    ensures |t.comments| == t.lineComments + t.multiLineComments
  {
    CountFrom(lines, false)
  }

  /** Counting is compositional: the second part is counted from the status the first
      part ends in. */
  lemma {:induction false} CountSplit(a: seq<string>, b: seq<string>, status: bool)
    ensures var ta := CountFrom(a, status);
            CountFrom(a + b, status) == Combine(ta, CountFrom(b, ta.status))
    decreases |a|
  {
    if |a| == 0 {
      assert a + b == b;
    } else {
      var ab := a + b;
      assert ab[0] == a[0] && ab[1..] == a[1..] + b;
      var u := UpdateCommentLineCount(a[0], status);
      CountSplit(a[1..], b, u.status);
      var ta' := CountFrom(a[1..], u.status);
      RegisterCombine(u.kind, a[0], ta', CountFrom(b, ta'.status));
    }
  }

  lemma RegisterCombine(kind: LineKind, line: string, ta: Tally, tb: Tally)
    ensures Register(kind, line, Combine(ta, tb)) == Combine(Register(kind, line, ta), tb)
  {
    assert [line] + (ta.comments + tb.comments) == ([line] + ta.comments) + tb.comments;
  }

  /** Lines without any `/` hold no comments at all. */
  lemma {:induction false} NoSlashNoComments(lines: seq<string>)
    requires forall k :: 0 <= k < |lines| ==> '/' !in lines[k]
    ensures CountFrom(lines, false).lineComments == 0
    ensures CountFrom(lines, false).multiLineComments == 0
    decreases |lines|
  {
    if |lines| > 0 {
      LineParser.NoSlashNoOpener(lines[0]);
      NoSlashNoComments(lines[1..]);
    }
  }

  // ---------------------------------------------------------------------------------
  // FindFirstNonCommentLine

  /** The block-comment status after lines `start+1 .. j`, scanned from status false. */
  function OpenAfter(lines: seq<string>, start: int, j: int): bool
    requires -1 <= start < j < |lines|
    decreases j - start
  {
    var before := if j == start + 1 then false else OpenAfter(lines, start, j - 1);
    UpdateCommentLineCount(lines[j], before).status
  }

  /** The line a forward scan stops at, and its index. */
  datatype Found = Found(line: string, index: nat)

  /** The loop of `FindFirstNonCommentLine`: `index` is the last line examined. */
  function FindFrom(lines: seq<string>, start: int, index: int, status: bool): (r: Result<Found>)
    requires -1 <= start <= index < |lines|
    requires status == (index > start)
    requires forall j :: start < j <= index ==> OpenAfter(lines, start, j)
    ensures r.Ok? ==> index < r.value.index < |lines| && r.value.line == lines[r.value.index]
    ensures r.Ok? ==> !OpenAfter(lines, start, r.value.index)
    ensures r.Ok? ==> forall j :: start < j < r.value.index ==> OpenAfter(lines, start, j)
    ensures r.Err? <==> forall j :: index < j < |lines| ==> OpenAfter(lines, start, j)
    ensures r.Err? ==> r.fault == OutOfRange
    decreases |lines| - index
  {
    var next := index + 1;
    if next >= |lines| then Err(OutOfRange)
    else
      var u := UpdateCommentLineCount(lines[next], status);
      assert u.status == OpenAfter(lines, start, next);
      if u.status then FindFrom(lines, start, next, u.status)
      else Ok(Found(lines[next], next))
  }

  /** `FindFirstNonCommentLine`: the first line after `startIndex` that leaves the
      block-comment status false, scanning with a fresh status. The scan runs off the
      list (an exception) when no such line exists or the first index is negative. */
  function FindFirstNonCommentLine(lines: seq<string>, startIndex: int): (r: Result<Found>)
    ensures r.Ok? ==> -1 <= startIndex < r.value.index < |lines| && r.value.line == lines[r.value.index]
    ensures r.Ok? ==> !OpenAfter(lines, startIndex, r.value.index)
    ensures r.Ok? ==> forall j :: startIndex < j < r.value.index ==> OpenAfter(lines, startIndex, j)
    ensures -1 <= startIndex < |lines| ==>
              (r.Err? <==> forall j :: startIndex < j < |lines| ==> OpenAfter(lines, startIndex, j))
    ensures startIndex < -1 ==> r == Err(OutOfRange)
    ensures r.Err? ==> r.fault == OutOfRange
  {
    if startIndex < -1 then Err(OutOfRange)
    else if startIndex >= |lines| then Err(OutOfRange)
    else FindFrom(lines, startIndex, startIndex, false)
  }

  // ---------------------------------------------------------------------------------
  // GetCode: the coordinates of the `"…"` literals of a file.

  /** A (line, position) coordinate; `Before` is the reading order. */
  datatype Coordinate = Coordinate(line: nat, position: nat)

  predicate Before(a: Coordinate, b: Coordinate) {
    a.line < b.line || (a.line == b.line && a.position < b.position)
  }

  /** The opening and closing quote of one literal. */
  datatype StringSpan = StringSpan(start: Coordinate, end: Coordinate)

  predicate QuoteAt(lines: seq<string>, c: Coordinate) {
    c.line < |lines| && c.position < |lines[c.line]| && lines[c.line][c.position] == '"'
  }

  /** The literal flags of `GetCode`. Unlike `LineParser`, the escape character is `\`. */
  datatype Lexer = Lexer(inString: bool, inEscape: bool)

  /** One character's effect on the flags: an unescaped `"` toggles the literal, and a `\`
      inside a literal toggles the escape, which any other character clears. */
  function Lex(st: Lexer, ch: char): (next: Lexer)
    ensures ch != '\\' ==> !next.inEscape
    ensures (ch == '"' && !st.inEscape) <==> next.inString != st.inString
  {
    var inString := if ch == '"' && !st.inEscape then !st.inString else st.inString;
    Lexer(inString, ch == '\\' && inString && !st.inEscape)
  }

  function LexAll(st: Lexer, s: string): Lexer
    decreases |s|
  {
    if |s| == 0 then st else LexAll(Lex(st, s[0]), s[1..])
  }

  lemma {:induction false} LexAllAppend(st: Lexer, a: string, b: string)
    ensures LexAll(st, a + b) == LexAll(LexAll(st, a), b)
    decreases |a|
  {
    if |a| == 0 {
      assert a + b == b;
    } else {
      assert (a + b)[1..] == a[1..] + b;
      LexAllAppend(Lex(st, a[0]), a[1..], b);
    }
  }

  function Backslashes(k: nat): string {
    seq(k, _ => '\\')
  }

  /** Inside a literal, a run of `k` backslashes flips the escape flag `k` times. */
  lemma {:induction false} BackslashRun(k: nat, escaped: bool)
    ensures LexAll(Lexer(true, escaped), Backslashes(k)) == Lexer(true, escaped != (k % 2 == 1))
    decreases k
  {
    if k > 0 {
      assert Backslashes(k)[1..] == Backslashes(k - 1);
      BackslashRun(k - 1, !escaped);
    }
  }

  /** Inside a literal and after a character other than `\` (which clears the escape),
      a `"` preceded by `k` backslashes closes the literal iff `k` is even. */
  lemma EscapedQuote(k: nat)
    ensures !LexAll(Lexer(true, false), Backslashes(k) + "\"").inString <==> k % 2 == 0
  {
    LexAllAppend(Lexer(true, false), Backslashes(k), "\"");
    BackslashRun(k, false);
  }

  /** The state of `GetCode`: the flags, the start of the open literal, the closed literals. */
  datatype CodeScan = CodeScan(lexer: Lexer, stringStart: Coordinate, spans: seq<StringSpan>)

  /** The spans found so far are quote-delimited, ordered and disjoint, all before `here`;
      an open literal started at a quote after every closed one and before `here`. */
  ghost predicate WellFormed(lines: seq<string>, scan: CodeScan, here: Coordinate) {
    var spans := scan.spans;
    && (forall k :: 0 <= k < |spans| ==>
          QuoteAt(lines, spans[k].start) && QuoteAt(lines, spans[k].end)
          && Before(spans[k].start, spans[k].end) && Before(spans[k].end, here))
    && (forall k :: 0 <= k < |spans| - 1 ==> Before(spans[k].end, spans[k + 1].start))
    && (scan.lexer.inString ==>
          QuoteAt(lines, scan.stringStart) && Before(scan.stringStart, here)
          && (|spans| > 0 ==> Before(spans[|spans| - 1].end, scan.stringStart)))
  }

  function ScanChar(scan: CodeScan, at: Coordinate, ch: char): CodeScan {
    var next := Lex(scan.lexer, ch);
    if ch == '"' && !scan.lexer.inEscape then
      if next.inString then CodeScan(next, at, scan.spans)
      else CodeScan(next, scan.stringStart, scan.spans + [StringSpan(scan.stringStart, at)])
    else CodeScan(next, scan.stringStart, scan.spans)
  }

  /** The inner loop of `GetCode` over line `li` from position `i`. */
  function ScanLine(lines: seq<string>, li: nat, i: nat, scan: CodeScan): (r: CodeScan)
    requires li < |lines| && i <= |lines[li]|
    requires WellFormed(lines, scan, Coordinate(li, i))
    ensures WellFormed(lines, r, Coordinate(li, |lines[li]|))
    decreases |lines[li]| - i
  {
    if i == |lines[li]| then scan
    else ScanLine(lines, li, i + 1, ScanChar(scan, Coordinate(li, i), lines[li][i]))
  }

  /** The outer loop of `GetCode` from line `li`. */
  function ScanLines(lines: seq<string>, li: nat, scan: CodeScan): (r: CodeScan)
    requires li <= |lines|
    requires WellFormed(lines, scan, Coordinate(li, 0))
    ensures WellFormed(lines, r, Coordinate(|lines|, 0))
    decreases |lines| - li
  {
    if li == |lines| then scan
    else ScanLines(lines, li + 1, ScanLine(lines, li, 0, scan))
  }

  /** `GetCode`: every recorded pair starts and ends on a `"`, and the pairs come in
      reading order without overlapping. */
  function GetCode(lines: seq<string>): (spans: seq<StringSpan>)
    ensures forall k :: 0 <= k < |spans| ==>
              QuoteAt(lines, spans[k].start) && QuoteAt(lines, spans[k].end)
              && Before(spans[k].start, spans[k].end)
    ensures forall k :: 0 <= k < |spans| - 1 ==> Before(spans[k].end, spans[k + 1].start)
  {
    ScanLines(lines, 0, CodeScan(Lexer(false, false), Coordinate(0, 0), [])).spans
  }
}
