/** `MethodLengthAnalyzer`: walks the brace depth of a file's lines, measures every method
    that closes at the method level, and warns about methods longer than fifteen lines and
    about methods not separated from the previous one by a blank line. The walk is shared
    with the older copy of the analyser (module `LegacyMethodLength`), which differs only
    in its method level and in having no whitespace check. */
module MethodLength {
  import opened Results
  import opened Text
  import CommentLineAnalyzer
  import LineReport
  import MethodHeader
  import FileCharacteristics

  /** The longest method that draws no warning. */
  const MaxMethodLength := 15

  /** The text the walk shows in place of a method line it has not seen. */
  const UnknownMethod := "Unknown method"

  datatype Warning =
    | TooLong(filename: string, methodName: string, size: int)
    | NoWhitespace(filename: string, methodLine: string)
  {
    /** The text added to the warning list. */
    function Message(): string {
      match this
      case TooLong(f, name, n) => "TOO LONG METHOD: " + f + "/" + name + " " + IntToString(n)
      case NoWhitespace(f, m) => "No whitespace in " + f + " before " + m
    }
  }

  /** The analyser's fields between two lines of the walk. */
  datatype WalkState = WalkState(depth: int, lastBlank: Option<nat>, methodStart: Option<nat>,
                                 warnings: seq<Warning>)

  const Initial := WalkState(0, None, None, [])

  /** No blank line and no `}` line after line `k` up to and including line `j`. */
  predicate Unbroken(lines: seq<string>, k: int, j: int) {
    forall m :: k < m <= j && 0 <= m < |lines| ==> lines[m] != "" && lines[m] != "}"
  }

  /** The backward loop of `CheckForLackingWhiteSpace` from line `j`: it stops at a blank
      line (no warning) or at a `}` line (a warning naming the line seen last). */
  function ScanBack(lines: seq<string>, j: int, methodLine: string): (r: Option<string>)
    requires -1 <= j < |lines|
    ensures r.Some? <==> exists k :: 0 <= k <= j && lines[k] == "}" && Unbroken(lines, k, j)
    ensures r.Some? ==>
              exists k {:trigger Unbroken(lines, k, j)} ::
                0 <= k <= j && lines[k] == "}" && Unbroken(lines, k, j)
                && r.value == (if k == j then methodLine else lines[k + 1])
    decreases j + 1
  {
    if j < 0 then None
    else if lines[j] == "" then None
    else if lines[j] == "}" then
      assert exists k {:trigger Unbroken(lines, k, j)} ::
               0 <= k <= j && lines[k] == "}" && Unbroken(lines, k, j)
               && methodLine == (if k == j then methodLine else lines[k + 1]) by {
        assert Unbroken(lines, j, j);
      }
      Some(methodLine)
    else
      var r := ScanBack(lines, j - 1, lines[j]);
      assert forall k :: 0 <= k < j && Unbroken(lines, k, j - 1) ==> Unbroken(lines, k, j);
      assert forall k :: 0 <= k <= j && lines[k] == "}" && Unbroken(lines, k, j) ==>
                          k < j && Unbroken(lines, k, j - 1);
      assert r.Some? ==> exists k {:trigger Unbroken(lines, k, j)} ::
                           0 <= k <= j && lines[k] == "}" && Unbroken(lines, k, j)
                           && r.value == (if k == j then methodLine else lines[k + 1]) by {
        if r.Some? {
          var k :| 0 <= k <= j - 1 && lines[k] == "}" && Unbroken(lines, k, j - 1)
                   && r.value == (if k == j - 1 then lines[j] else lines[k + 1]);
          assert Unbroken(lines, k, j);
        }
      }
      r
  }

  /** `CheckForLackingWhiteSpace` for the `{` at line `i`: a warning exactly when the
      nearest blank or `}` line above is a `}` line; it names the line just below that
      `}`, or `Unknown method` when the `}` is directly above the `{`. */
  function WhitespaceWarnings(lines: seq<string>, filename: string, i: nat): (w: seq<Warning>)
    requires i < |lines|
    ensures |w| <= 1
    ensures w != [] <==> exists k :: 0 <= k < i && lines[k] == "}" && Unbroken(lines, k, i - 1)
    ensures w != [] ==>
              exists k {:trigger Unbroken(lines, k, i - 1)} ::
                0 <= k < i && lines[k] == "}" && Unbroken(lines, k, i - 1)
                && w[0] == NoWhitespace(filename, if k == i - 1 then UnknownMethod else lines[k + 1])
  {
    match ScanBack(lines, i - 1, UnknownMethod)
    case None => []
    case Some(m) =>
      assert exists k {:trigger Unbroken(lines, k, i - 1)} ::
               0 <= k < i && lines[k] == "}" && Unbroken(lines, k, i - 1)
               && NoWhitespace(filename, m)
                            == NoWhitespace(filename, if k == i - 1 then UnknownMethod else lines[k + 1]) by {
        var k :| 0 <= k <= i - 1 && lines[k] == "}" && Unbroken(lines, k, i - 1)
                 && m == (if k == i - 1 then UnknownMethod else lines[k + 1]);
      }
      [NoWhitespace(filename, m)]
  }

  /** The first line after line `k` that is not inside a block comment. */
  function FirstCodeLineAfter(lines: seq<string>, k: nat): (r: Result<string>)
    requires k < |lines|
    ensures r.Ok? ==>
              exists j :: k < j < |lines| && r.value == lines[j] && !CommentLineAnalyzer.OpenAfter(lines, k, j)
    ensures r.Err? ==> forall j :: k < j < |lines| ==> CommentLineAnalyzer.OpenAfter(lines, k, j)
    ensures (forall j :: k < j < |lines| ==> CommentLineAnalyzer.OpenAfter(lines, k, j)) ==> r.Err?
    ensures r.Err? ==> r.fault == OutOfRange
  {
    match CommentLineAnalyzer.FindFirstNonCommentLine(lines, k)
    case Err(e) => Err(e)
    case Ok(found) => Ok(found.line)
  }

  /** `GetMethodNameLine`: the first line after the last blank line that is not inside a
      block comment; the exception when no blank line has been seen. */
  function GetMethodNameLine(lines: seq<string>, lastBlank: Option<nat>): (r: Result<string>)
    requires lastBlank.Some? ==> lastBlank.value < |lines|
    ensures lastBlank.None? ==> r == Err(ArgumentNull("lastBlankLineIndex"))
    ensures lastBlank.Some? ==> r == FirstCodeLineAfter(lines, lastBlank.value)
  {
    match lastBlank
    case None => Err(ArgumentNull("lastBlankLineIndex"))
    case Some(k) => FirstCodeLineAfter(lines, k)
  }

  /** The lines from `start` to `end`, both included; none when `start` is after `end`. */
  function Body(lines: seq<string>, start: nat, end: nat): (b: seq<string>)
    requires end < |lines|
    ensures |b| == if start <= end then end - start + 1 else 0
    ensures forall k :: 0 <= k < |b| ==> b[k] == lines[start + k]
  {
    if start <= end then lines[start..end + 1] else []
  }

  /** The length `AnalyzeCode` reports: the code lines of the body plus its brace lines.
      It never exceeds the number of lines in the body. */
  function MethodSize(body: seq<string>): (n: int)
    ensures n <= |body|
  {
    var report := LineReport.NewReport(body);
    report.CodeLines() + report.braceLines
  }

  /** Braces count towards a method's length: without comment and opening lines, the
      size is the number of non-blank lines. */
  lemma BracesCount(body: seq<string>)
    requires LineReport.NewReport(body).TotalCommentLines() == 0
    requires LineReport.NewReport(body).openingLines == 0
    ensures MethodSize(body) == LineReport.NewReport(body).nonBlankLines
  {
  }

  /** `AnalyzeCode` for the method from line `start` to line `end`. */
  function AnalyzeCode(lines: seq<string>, filename: string, name: string, start: Option<nat>,
                       end: nat): (r: Result<seq<Warning>>)
    requires end < |lines|
    ensures r.Err? <==> start.None?
    ensures r.Err? ==> r.fault == ArgumentNull("startIndex")
    ensures r.Ok? ==> |r.value| <= 1
    ensures r.Ok? ==> (r.value != [] <==> MethodSize(Body(lines, start.value, end)) > MaxMethodLength)
    ensures r.Ok? && r.value != [] ==>
              r.value[0] == TooLong(filename, name, MethodSize(Body(lines, start.value, end)))
  {
    match start
    case None => Err(ArgumentNull("startIndex"))
    case Some(s) =>
      var size := MethodSize(Body(lines, s, end));
      if size > MaxMethodLength then Ok([TooLong(filename, name, size)]) else Ok([])
  }

  /** A method of at most fifteen lines, braces included, is never too long. */
  lemma ShortMethodNeverWarns(lines: seq<string>, filename: string, name: string, start: nat, end: nat)
    requires end < |lines| && end + 1 <= start + MaxMethodLength
    ensures AnalyzeCode(lines, filename, name, Some(start), end) == Ok([])
  {
  }

  /** How a line moves the depth: only an exact `{` line opens, any line starting with
      `}` closes (`} while (…);` included). */
  function BraceChange(line: string): int {
    if line == "{" then 1 else if StartsWith(line, "}") then -1 else 0
  }

  /** The depth after the first `n` lines. */
  function DepthAfter(lines: seq<string>, n: nat): int
    requires n <= |lines|
  {
    if n == 0 then 0 else DepthAfter(lines, n - 1) + BraceChange(lines[n - 1])
  }

  /** Line `k` is the `{` that opens a method: it raises the depth from the method level. */
  predicate IsOpen(lines: seq<string>, level: int, k: nat)
    requires k < |lines|
  {
    lines[k] == "{" && DepthAfter(lines, k) == level
  }

  /** Line `k` closes a method: it starts with `}` and brings the depth back to the method
      level. */
  predicate IsClosing(lines: seq<string>, level: int, k: nat)
    requires k < |lines|
  {
    StartsWith(lines[k], "}") && DepthAfter(lines, k) == level + 1
  }

  /** Line `k` is where the walk records a blank line: a blank line at the method level, a
      `{` that reaches it, or a line that closes a method. */
  predicate IsMark(lines: seq<string>, level: int, k: nat)
    requires k < |lines|
  {
    (lines[k] == "" && DepthAfter(lines, k) == level)
    || (lines[k] == "{" && DepthAfter(lines, k) + 1 == level)
    || IsClosing(lines, level, k)
  }

  /** The last line before line `n` where a blank line is recorded. */
  function LastMark(lines: seq<string>, level: int, n: nat): (r: Option<nat>)
    requires n <= |lines|
    ensures r.Some? ==> r.value < n && IsMark(lines, level, r.value)
    ensures r.Some? ==> forall m :: r.value < m < n ==> !IsMark(lines, level, m)
    ensures r.None? ==> forall m :: 0 <= m < n ==> !IsMark(lines, level, m)
  {
    if n == 0 then None
    else if IsMark(lines, level, n - 1) then Some(n - 1)
    else LastMark(lines, level, n - 1)
  }

  /** The last `{` before line `n` that opens a method. */
  function LastOpen(lines: seq<string>, level: int, n: nat): (r: Option<nat>)
    requires n <= |lines|
    ensures r.Some? ==> r.value < n && IsOpen(lines, level, r.value)
    ensures r.Some? ==> forall m :: r.value < m < n ==> !IsOpen(lines, level, m)
    ensures r.None? ==> forall m :: 0 <= m < n ==> !IsOpen(lines, level, m)
  {
    if n == 0 then None
    else if IsOpen(lines, level, n - 1) then Some(n - 1)
    else LastOpen(lines, level, n - 1)
  }

  /** Above the method level, the last method-opening `{` is the one that matches: the depth
      stays above the method level from just after it up to line `n`. */
  lemma {:induction false} MatchingOpen(lines: seq<string>, level: int, n: nat)
    requires level >= 0 && n <= |lines| && DepthAfter(lines, n) > level
    ensures LastOpen(lines, level, n).Some?
    ensures forall m :: LastOpen(lines, level, n).value < m <= n ==> DepthAfter(lines, m) > level
  {
    if !IsOpen(lines, level, n - 1) {
      MatchingOpen(lines, level, n - 1);
    }
  }

  /** The fields between lines are a function of the lines walked: the depth, the last
      recorded blank line and the last method-opening `{`. */
  predicate Inv(lines: seq<string>, level: int, i: nat, st: WalkState) {
    i <= |lines|
    && st.depth == DepthAfter(lines, i)
    && st.lastBlank == LastMark(lines, level, i)
    && st.methodStart == LastOpen(lines, level, i)
  }

  /** A warning the walk can produce: a too-long method is longer than fifteen lines but
      not longer than the file; whitespace warnings only when the check is on. */
  predicate Plausible(w: Warning, lines: seq<string>, filename: string, checkWhitespace: bool) {
    match w
    case TooLong(f, _, n) => f == filename && MaxMethodLength < n <= |lines|
    case NoWhitespace(f, _) => f == filename && checkWhitespace
  }

  predicate AllPlausible(ws: seq<Warning>, lines: seq<string>, filename: string, checkWhitespace: bool) {
    forall k :: 0 <= k < |ws| ==> Plausible(ws[k], lines, filename, checkWhitespace)
  }

  lemma PlausibleAppend(ws: seq<Warning>, extra: seq<Warning>, lines: seq<string>, filename: string,
                        checkWhitespace: bool)
    requires AllPlausible(extra, lines, filename, checkWhitespace)
    ensures AllPlausible(ws, lines, filename, checkWhitespace) ==>
              AllPlausible(ws + extra, lines, filename, checkWhitespace)
  {
    assert forall k :: 0 <= k < |extra| ==> (ws + extra)[|ws| + k] == extra[k];
  }

  /** `HandleClosingBrace` once the depth is back at the method level: name the method
      from the first line after the last blank line that is not inside a block comment
      and, if a name is found, measure the method from `methodStart` to line `i`. */
  function CloseMethod(lines: seq<string>, filename: string, i: nat, lastBlank: Option<nat>,
                       methodStart: Option<nat>): (r: Result<seq<Warning>>)
    requires i < |lines|
    requires lastBlank.Some? ==> lastBlank.value < |lines|
    ensures lastBlank.None? ==> r == Err(ArgumentNull("lastBlankLineIndex"))
    ensures lastBlank.Some? && FirstCodeLineAfter(lines, lastBlank.value).Err? ==> r == Err(OutOfRange)
    ensures methodStart.Some? && r.Err? ==> r.fault != ArgumentNull("startIndex")
    ensures r.Ok? ==> |r.value| <= 1
    ensures r.Ok? && r.value != [] ==>
              r.value[0].TooLong? && r.value[0].filename == filename
              && MaxMethodLength < r.value[0].size <= |lines|
    ensures lastBlank.Some? && FirstCodeLineAfter(lines, lastBlank.value).Ok? ==>
              var name := MethodHeader.GetMethodName(FirstCodeLineAfter(lines, lastBlank.value).value);
              (name == "" ==> r == Ok([]))
              && (name != "" ==> r == AnalyzeCode(lines, filename, name, methodStart, i))
  {
    match GetMethodNameLine(lines, lastBlank)
    case Err(e) => Err(e)
    case Ok(nameLine) => MeasureNamed(lines, filename, MethodHeader.GetMethodName(nameLine), methodStart, i)
  }

  lemma ClosePlausible(lines: seq<string>, filename: string, i: nat, lastBlank: Option<nat>,
                       methodStart: Option<nat>, checkWhitespace: bool)
    requires i < |lines| && (lastBlank.Some? ==> lastBlank.value < |lines|)
    requires CloseMethod(lines, filename, i, lastBlank, methodStart).Ok?
    ensures AllPlausible(CloseMethod(lines, filename, i, lastBlank, methodStart).value, lines, filename, checkWhitespace)
  {
    var ws := CloseMethod(lines, filename, i, lastBlank, methodStart).value;
    forall k | 0 <= k < |ws| ensures Plausible(ws[k], lines, filename, checkWhitespace) {
      assert k == 0;
    }
  }

  /** The rest of `HandleClosingBrace` once the method's name is known: a method without a
      name is not measured; a named one is measured by `AnalyzeCode`. */
  function MeasureNamed(lines: seq<string>, filename: string, name: string, start: Option<nat>,
                        end: nat): (r: Result<seq<Warning>>)
    requires end < |lines|
    ensures name == "" ==> r == Ok([])
    ensures name != "" ==> r == AnalyzeCode(lines, filename, name, start, end)
    ensures r.Err? ==> start.None? && r.fault == ArgumentNull("startIndex")
    ensures r.Ok? ==> |r.value| <= 1
    ensures r.Ok? && r.value != [] ==>
              r.value[0].TooLong? && r.value[0] == TooLong(filename, name, r.value[0].size)
              && MaxMethodLength < r.value[0].size <= |lines|
  {
    if name == "" then Ok([])
    else AnalyzeCode(lines, filename, name, start, end)
  }

  /** What line `i` adds to the warnings, told from the lines alone: a closing line reports
      the method from the matching `{`, named from the line after the last recorded blank
      line; an opening line is checked for a preceding blank line when the check is on;
      any other line adds nothing. */
  function StepWarnings(lines: seq<string>, filename: string, level: int, checkWhitespace: bool,
                        i: nat): (r: Result<seq<Warning>>)
    requires i < |lines|
    ensures r.Ok? ==> forall k :: 0 <= k < |r.value| && r.value[k].TooLong? ==> IsClosing(lines, level, i)
    ensures r.Ok? ==> forall k :: 0 <= k < |r.value| && r.value[k].NoWhitespace? ==>
                        checkWhitespace && IsOpen(lines, level, i) && r.value == WhitespaceWarnings(lines, filename, i)
    ensures level >= 0 && r.Err? ==> r.fault != ArgumentNull("startIndex")
  {
    if IsClosing(lines, level, i) then
      assert level >= 0 ==> LastOpen(lines, level, i).Some? by {
        if level >= 0 { MatchingOpen(lines, level, i); }
      }
      var r := CloseMethod(lines, filename, i, LastMark(lines, level, i), LastOpen(lines, level, i));
      assert r.Ok? ==> forall k :: 0 <= k < |r.value| ==> k == 0 && r.value[k].TooLong?;
      r
    else if IsOpen(lines, level, i) && checkWhitespace then
      var w := WhitespaceWarnings(lines, filename, i);
      assert w != [] ==> w[0].NoWhitespace? && w[0].filename == filename;
      Ok(w)
    else Ok([])
  }

  /** The method `name` closing at line `i` has `n` lines, more than fifteen: the line
      closes a method, the name is read from the line after the last recorded blank line,
      and the size is measured from the matching `{` (see `MatchingOpen`). */
  predicate TooLongAt(lines: seq<string>, level: int, i: nat, name: string, n: int)
    requires i < |lines|
  {
    && IsClosing(lines, level, i)
    && LastOpen(lines, level, i).Some?
    && LastMark(lines, level, i).Some?
    && FirstCodeLineAfter(lines, LastMark(lines, level, i).value).Ok?
    && name == MethodHeader.GetMethodName(FirstCodeLineAfter(lines, LastMark(lines, level, i).value).value)
    && name != ""
    && n == MethodSize(Body(lines, LastOpen(lines, level, i).value, i))
    && n > MaxMethodLength
  }

  /** What `CloseMethod` reports: the method named from the line after `mark`, measured
      from `open`, when it is longer than fifteen lines. */
  lemma ClosedMethodReport(lines: seq<string>, filename: string, i: nat, mark: Option<nat>,
                           open: Option<nat>, name: string, n: int)
    requires i < |lines| && (mark.Some? ==> mark.value < |lines|)
    requires CloseMethod(lines, filename, i, mark, open).Ok?
    ensures TooLong(filename, name, n) in CloseMethod(lines, filename, i, mark, open).value
            <==> mark.Some? && open.Some?
                 && FirstCodeLineAfter(lines, mark.value).Ok?
                 && name == MethodHeader.GetMethodName(FirstCodeLineAfter(lines, mark.value).value)
                 && name != ""
                 && n == MethodSize(Body(lines, open.value, i))
                 && n > MaxMethodLength
  {
    var found := FirstCodeLineAfter(lines, mark.value);
    var name' := MethodHeader.GetMethodName(found.value);
    if name' != "" {
      assert CloseMethod(lines, filename, i, mark, open) == AnalyzeCode(lines, filename, name', open, i);
    }
  }

  /** A closing line's warnings are exactly the too-long warning of `TooLongAt`. */
  lemma TooLongAtStep(lines: seq<string>, filename: string, level: int, checkWhitespace: bool,
                      i: nat, name: string, n: int)
    requires i < |lines| && StepWarnings(lines, filename, level, checkWhitespace, i).Ok?
    ensures TooLong(filename, name, n) in StepWarnings(lines, filename, level, checkWhitespace, i).value
            <==> TooLongAt(lines, level, i, name, n)
  {
    var ws := StepWarnings(lines, filename, level, checkWhitespace, i).value;
    if IsClosing(lines, level, i) {
      var mark := LastMark(lines, level, i);
      var open := LastOpen(lines, level, i);
      assert Ok(ws) == CloseMethod(lines, filename, i, mark, open);
      ClosedMethodReport(lines, filename, i, mark, open, name, n);
    } else {
      assert TooLong(filename, name, n) !in ws by {
        forall k | 0 <= k < |ws| ensures !ws[k].TooLong? {
        }
      }
    }
  }

  /** Gathers the warnings of a run of lines: the first failure ends it with that
      failure; otherwise every line's warnings, in line order. */
  function Gather(parts: seq<Result<seq<Warning>>>): (r: Result<seq<Warning>>)
    ensures r.Ok? ==> forall i :: 0 <= i < |parts| ==> parts[i].Ok?
    ensures r.Err? ==> exists i :: 0 <= i < |parts| && parts[i] == r
    ensures r.Ok? ==> forall i, w :: 0 <= i < |parts| && parts[i].Ok? && w in parts[i].value ==> w in r.value
    ensures r.Ok? ==> forall k :: 0 <= k < |r.value| ==>
                        exists i :: 0 <= i < |parts| && parts[i].Ok? && r.value[k] in parts[i].value
  {
    if |parts| == 0 then Ok([])
    else
      var front := parts[..|parts| - 1];
      assert forall i :: 0 <= i < |front| ==> front[i] == parts[i];
      match Gather(front)
      case Err(e) => Err(e)
      case Ok(ws) =>
        match parts[|parts| - 1]
        case Err(e) => Err(e)
        case Ok(w) =>
          assert forall k :: 0 <= k < |w| ==> (ws + w)[|ws| + k] == w[k];
          Ok(ws + w)
  }

  /** One more part: its warnings are appended, or its failure ends the run. */
  lemma GatherSnoc(parts: seq<Result<seq<Warning>>>, last: Result<seq<Warning>>)
    ensures Gather(parts + [last]) == match Gather(parts)
                                      case Err(e) => Err(e)
                                      case Ok(ws) => match last
                                                     case Err(e) => Err(e)
                                                     case Ok(w) => Ok(ws + w)
  {
    assert (parts + [last])[..|parts|] == parts;
  }

  /** A failed run stays failed, the same way, whatever part comes next. */
  lemma GatherErrSnoc(parts: seq<Result<seq<Warning>>>, last: Result<seq<Warning>>)
    requires Gather(parts).Err?
    ensures Gather(parts + [last]) == Gather(parts)
  {
    GatherSnoc(parts, last);
  }

  /** The first `n` parts `f` gives, in order. */
  function PartsOf(f: nat -> Result<seq<Warning>>, n: nat): seq<Result<seq<Warning>>> {
    if n == 0 then [] else PartsOf(f, n - 1) + [f(n - 1)]
  }

  lemma {:induction false} PartsOfAt(f: nat -> Result<seq<Warning>>, n: nat)
    ensures |PartsOf(f, n)| == n
    ensures forall i :: 0 <= i < n ==> PartsOf(f, n)[i] == f(i)
  {
    if n > 0 {
      PartsOfAt(f, n - 1);
    }
  }

  /** Once the first `n` parts fail, the first `m` fail the same way. */
  lemma {:induction false} PartsErrSticks(f: nat -> Result<seq<Warning>>, n: nat, m: nat)
    requires n <= m && Gather(PartsOf(f, n)).Err?
    ensures Gather(PartsOf(f, m)) == Gather(PartsOf(f, n))
    decreases m - n
  {
    if n < m {
      PartsErrSticks(f, n, m - 1);
      GatherErrSnoc(PartsOf(f, m - 1), f(m - 1));
    }
  }

  /** Line `i`'s `StepWarnings`; nothing past the last line. */
  function StepsOf(lines: seq<string>, filename: string, level: int, checkWhitespace: bool)
    : nat -> Result<seq<Warning>>
  {
    (i: nat) => if i < |lines| then StepWarnings(lines, filename, level, checkWhitespace, i) else Ok([])
  }

  lemma StepsOfAt(lines: seq<string>, filename: string, level: int, checkWhitespace: bool, i: nat)
    requires i < |lines|
    ensures StepsOf(lines, filename, level, checkWhitespace)(i) == StepWarnings(lines, filename, level, checkWhitespace, i)
  {
  }

  /** The reference for the walk: the warnings of the first `n` lines, each line's taken
      from `StepWarnings`; the first line whose warnings fail ends it with that failure. */
  function Reference(lines: seq<string>, filename: string, level: int, checkWhitespace: bool,
                     n: nat): (r: Result<seq<Warning>>)
  {
    Gather(PartsOf(StepsOf(lines, filename, level, checkWhitespace), n))
  }

  /** One round of `Analyze`'s loop at line `i`: `level` is the depth of a method's
      declaration, `checkWhitespace` switches `CheckForLackingWhiteSpace` on. By
      `StepAgrees`, the round adds exactly the line's `StepWarnings`. */
  function Step(lines: seq<string>, filename: string, level: int, checkWhitespace: bool,
                i: nat, st: WalkState): (r: Result<WalkState>)
    requires i < |lines| && (st.lastBlank.Some? ==> st.lastBlank.value < |lines|)
    ensures r.Ok? ==> r.value.depth == st.depth + BraceChange(lines[i])
    ensures r.Ok? ==> st.warnings <= r.value.warnings
    ensures r.Ok? && AllPlausible(st.warnings, lines, filename, checkWhitespace) ==>
              AllPlausible(r.value.warnings, lines, filename, checkWhitespace)
    ensures BraceChange(lines[i]) >= 0 ==> r.Ok?
  {
    var line := lines[i];
    if line == "" && st.depth == level then Ok(st.(lastBlank := Some(i)))
    else if line == "{" then
      assert !StartsWith(line, "}") by { assert line[..1][0] == '{'; }
      var d := st.depth + 1;
      if d == level then Ok(st.(depth := d, lastBlank := Some(i)))
      else if d == level + 1 then
        var ws := if checkWhitespace then WhitespaceWarnings(lines, filename, i) else [];
        assert AllPlausible(ws, lines, filename, checkWhitespace);
        PlausibleAppend(st.warnings, ws, lines, filename, checkWhitespace);
        Ok(st.(depth := d, methodStart := Some(i), warnings := st.warnings + ws))
      else Ok(st.(depth := d))
    else if StartsWith(line, "}") then
      var d := st.depth - 1;
      if d == level then
        match CloseMethod(lines, filename, i, st.lastBlank, st.methodStart)
        case Err(e) => Err(e)
        case Ok(ws) =>
          ClosePlausible(lines, filename, i, st.lastBlank, st.methodStart, checkWhitespace);
          PlausibleAppend(st.warnings, ws, lines, filename, checkWhitespace);
          Ok(st.(depth := d, lastBlank := Some(i), warnings := st.warnings + ws))
      else Ok(st.(depth := d))
    else
      assert st.warnings + [] == st.warnings;
      Ok(st)
  }

  /** A round keeps the fields in step with the lines and adds exactly the line's
      `StepWarnings`, failing when they fail. */
  lemma StepAgrees(lines: seq<string>, filename: string, level: int, checkWhitespace: bool,
                   i: nat, st: WalkState)
    requires i < |lines| && Inv(lines, level, i, st)
    ensures var r := Step(lines, filename, level, checkWhitespace, i, st);
      && (r.Ok? ==> Inv(lines, level, i + 1, r.value))
      && (r.Err? ==> StepWarnings(lines, filename, level, checkWhitespace, i) == Err(r.fault))
      && (r.Ok? ==> StepWarnings(lines, filename, level, checkWhitespace, i).Ok?
                    && r.value.warnings == st.warnings + StepWarnings(lines, filename, level, checkWhitespace, i).value)
  {
    if lines[i] == "{" {
      assert !StartsWith(lines[i], "}") by { assert lines[i][..1][0] == '{'; }
    }
  }

  /** The reference after line `i`, given how the walk's round at line `i` ended. */
  lemma ReferenceStep(lines: seq<string>, filename: string, level: int, checkWhitespace: bool,
                      i: nat, ws: seq<Warning>, step: Result<WalkState>)
    requires i < |lines| && Reference(lines, filename, level, checkWhitespace, i) == Ok(ws)
    requires step.Err? ==> StepWarnings(lines, filename, level, checkWhitespace, i) == Err(step.fault)
    requires step.Ok? ==> StepWarnings(lines, filename, level, checkWhitespace, i).Ok?
                          && step.value.warnings == ws + StepWarnings(lines, filename, level, checkWhitespace, i).value
    ensures step.Err? ==> Reference(lines, filename, level, checkWhitespace, |lines|) == Err(step.fault)
    ensures step.Ok? ==> Reference(lines, filename, level, checkWhitespace, i + 1) == Ok(step.value.warnings)
  {
    var f := StepsOf(lines, filename, level, checkWhitespace);
    StepsOfAt(lines, filename, level, checkWhitespace, i);
    GatherSnoc(PartsOf(f, i), f(i));
    if step.Err? {
      PartsErrSticks(f, i + 1, |lines|);
    }
  }

  /** Drops the fields other than the warnings. */
  function WarningsOf(r: Result<WalkState>): Result<seq<Warning>> {
    match r
    case Ok(st) => Ok(st.warnings)
    case Err(e) => Err(e)
  }

  /** `Analyze`'s loop from line `i`: the warnings gathered are all plausible. */
  function WalkFrom(lines: seq<string>, filename: string, level: int, checkWhitespace: bool,
                    i: nat, st: WalkState): (r: Result<WalkState>)
    requires Inv(lines, level, i, st)
    requires AllPlausible(st.warnings, lines, filename, checkWhitespace)
    ensures r.Ok? ==> st.warnings <= r.value.warnings
    ensures r.Ok? ==> AllPlausible(r.value.warnings, lines, filename, checkWhitespace)
    decreases |lines| - i
  {
    if i == |lines| then Ok(st)
    else
      StepAgrees(lines, filename, level, checkWhitespace, i, st);
      match Step(lines, filename, level, checkWhitespace, i, st)
      case Err(e) => Err(e)
      case Ok(next) =>
        var r := WalkFrom(lines, filename, level, checkWhitespace, i + 1, next);
        assert r.Ok? ==> st.warnings <= next.warnings <= r.value.warnings;
        r
  }

  /** The loop from line `i` ends as the reference does. */
  lemma {:induction false} WalkFromMatches(lines: seq<string>, filename: string, level: int,
                                           checkWhitespace: bool, i: nat, st: WalkState)
    requires Inv(lines, level, i, st)
    requires AllPlausible(st.warnings, lines, filename, checkWhitespace)
    requires Reference(lines, filename, level, checkWhitespace, i) == Ok(st.warnings)
    ensures WarningsOf(WalkFrom(lines, filename, level, checkWhitespace, i, st))
            == Reference(lines, filename, level, checkWhitespace, |lines|)
    decreases |lines| - i
  {
    if i < |lines| {
      var step := Step(lines, filename, level, checkWhitespace, i, st);
      StepAgrees(lines, filename, level, checkWhitespace, i, st);
      ReferenceStep(lines, filename, level, checkWhitespace, i, st.warnings, step);
      if step.Ok? {
        WalkFromMatches(lines, filename, level, checkWhitespace, i + 1, step.value);
      }
    }
  }

  /** The whole walk at method level `level`: it equals the reference. A method closing
      at the method level is reported iff `TooLongAt` holds of it; a method-opening `{` is
      reported iff the check is on and a `}` line comes before it with no blank line
      between. */
  function Walk(lines: seq<string>, filename: string, level: int, checkWhitespace: bool)
    : (r: Result<seq<Warning>>)
    requires level >= 0
    ensures r == Reference(lines, filename, level, checkWhitespace, |lines|)
    ensures r.Ok? ==> AllPlausible(r.value, lines, filename, checkWhitespace)
    ensures r.Err? ==> r.fault != ArgumentNull("startIndex")
    ensures r.Ok? ==> ReportsLongMethods(lines, filename, level, r.value)
    ensures r.Ok? ==> ReportsMissingBlanks(lines, filename, level, checkWhitespace, r.value)
  {
    var r := WarningsOf(WalkFrom(lines, filename, level, checkWhitespace, 0, Initial));
    WalkFromMatches(lines, filename, level, checkWhitespace, 0, Initial);
    WalkReports(lines, filename, level, checkWhitespace);
    ReferenceFault(lines, filename, level, checkWhitespace);
    r
  }

  /** The walk never fails for want of a method's `{`: a closing line always has one. */
  lemma ReferenceFault(lines: seq<string>, filename: string, level: int, checkWhitespace: bool)
    requires level >= 0
    ensures var r := Reference(lines, filename, level, checkWhitespace, |lines|);
      r.Err? ==> r.fault != ArgumentNull("startIndex")
  {
    var f := StepsOf(lines, filename, level, checkWhitespace);
    PartsOfAt(f, |lines|);
    var r := Gather(PartsOf(f, |lines|));
    if r.Err? {
      var i :| 0 <= i < |lines| && PartsOf(f, |lines|)[i] == r;
      StepsOfAt(lines, filename, level, checkWhitespace, i);
    }
  }

  /** A too-long warning of line `i` is the one `TooLongAt` describes. */
  lemma TooLongStepSound(lines: seq<string>, filename: string, level: int, checkWhitespace: bool,
                         i: nat, w: Warning)
    requires i < |lines| && StepWarnings(lines, filename, level, checkWhitespace, i).Ok?
    requires w in StepWarnings(lines, filename, level, checkWhitespace, i).value && w.TooLong?
    ensures w == TooLong(filename, w.methodName, w.size)
    ensures TooLongAt(lines, level, i, w.methodName, w.size)
  {
    var ws := StepWarnings(lines, filename, level, checkWhitespace, i).value;
    var k :| 0 <= k < |ws| && ws[k] == w;
    assert IsClosing(lines, level, i);
    assert k == 0;
    TooLongAtStep(lines, filename, level, checkWhitespace, i, w.methodName, w.size);
  }

  /** A method-opening `{` adds exactly its whitespace warnings when the check is on. */
  lemma OpenStep(lines: seq<string>, filename: string, level: int, checkWhitespace: bool, i: nat)
    requires i < |lines| && IsOpen(lines, level, i) && checkWhitespace
    ensures StepWarnings(lines, filename, level, checkWhitespace, i) == Ok(WhitespaceWarnings(lines, filename, i))
  {
    assert !StartsWith(lines[i], "}") by { assert lines[i][..1][0] == '{'; }
  }

  /** A whitespace warning of line `i` comes from a method-opening `{` at line `i`. */
  lemma WhitespaceStepSound(lines: seq<string>, filename: string, level: int, checkWhitespace: bool,
                            i: nat, w: Warning)
    requires i < |lines| && StepWarnings(lines, filename, level, checkWhitespace, i).Ok?
    requires w in StepWarnings(lines, filename, level, checkWhitespace, i).value && w.NoWhitespace?
    ensures checkWhitespace && IsOpen(lines, level, i) && WhitespaceWarnings(lines, filename, i) == [w]
  {
    var ws := StepWarnings(lines, filename, level, checkWhitespace, i).value;
    var k :| 0 <= k < |ws| && ws[k] == w;
    assert ws == WhitespaceWarnings(lines, filename, i);
  }

  /** `ws` reports a method closing at line `i` exactly when `TooLongAt` holds of it. */
  ghost predicate ReportsLongMethods(lines: seq<string>, filename: string, level: int, ws: seq<Warning>) {
    && (forall i, name, n :: 0 <= i < |lines| && TooLongAt(lines, level, i, name, n)
          ==> TooLong(filename, name, n) in ws)
    && (forall k :: 0 <= k < |ws| && ws[k].TooLong? ==>
          exists i :: 0 <= i < |lines| && TooLongAt(lines, level, i, ws[k].methodName, ws[k].size))
  }

  /** With the check on, `ws` holds the whitespace warning of every method-opening `{`;
      every whitespace warning in `ws` is the one of such a `{`. */
  ghost predicate ReportsMissingBlanks(lines: seq<string>, filename: string, level: int, checkWhitespace: bool,
                                 ws: seq<Warning>) {
    && (checkWhitespace ==>
          forall i :: 0 <= i < |lines| && IsOpen(lines, level, i) && WhitespaceWarnings(lines, filename, i) != []
            ==> WhitespaceWarnings(lines, filename, i)[0] in ws)
    && (forall k :: 0 <= k < |ws| && ws[k].NoWhitespace? ==>
          checkWhitespace
          && exists i :: 0 <= i < |lines| && IsOpen(lines, level, i)
                         && WhitespaceWarnings(lines, filename, i) == [ws[k]])
  }

  /** What the reference reports over the whole file. */
  lemma WalkReports(lines: seq<string>, filename: string, level: int, checkWhitespace: bool)
    ensures var r := Reference(lines, filename, level, checkWhitespace, |lines|);
      r.Ok? ==> ReportsLongMethods(lines, filename, level, r.value)
                && ReportsMissingBlanks(lines, filename, level, checkWhitespace, r.value)
  {
    var f := StepsOf(lines, filename, level, checkWhitespace);
    PartsOfAt(f, |lines|);
    if Gather(PartsOf(f, |lines|)).Ok? {
      LongMethodsReported(lines, filename, level, checkWhitespace);
      LongMethodsOnly(lines, filename, level, checkWhitespace);
      MissingBlanksReported(lines, filename, level, checkWhitespace);
      MissingBlanksOnly(lines, filename, level, checkWhitespace);
    }
  }

  lemma LongMethodsReported(lines: seq<string>, filename: string, level: int, checkWhitespace: bool)
    requires Reference(lines, filename, level, checkWhitespace, |lines|).Ok?
    ensures var ws := Reference(lines, filename, level, checkWhitespace, |lines|).value;
      forall i, name, n :: 0 <= i < |lines| && TooLongAt(lines, level, i, name, n) ==> TooLong(filename, name, n) in ws
  {
    var f := StepsOf(lines, filename, level, checkWhitespace);
    var parts := PartsOf(f, |lines|);
    PartsOfAt(f, |lines|);
    var r := Gather(parts);
    forall i, name, n | 0 <= i < |lines| && TooLongAt(lines, level, i, name, n)
      ensures TooLong(filename, name, n) in r.value
    {
      StepsOfAt(lines, filename, level, checkWhitespace, i);
      assert parts[i].Ok?;
      TooLongAtStep(lines, filename, level, checkWhitespace, i, name, n);
    }
  }

  lemma LongMethodsOnly(lines: seq<string>, filename: string, level: int, checkWhitespace: bool)
    requires Reference(lines, filename, level, checkWhitespace, |lines|).Ok?
    ensures var ws := Reference(lines, filename, level, checkWhitespace, |lines|).value;
      forall k :: 0 <= k < |ws| && ws[k].TooLong? ==>
        exists i :: 0 <= i < |lines| && TooLongAt(lines, level, i, ws[k].methodName, ws[k].size)
  {
    var f := StepsOf(lines, filename, level, checkWhitespace);
    var parts := PartsOf(f, |lines|);
    PartsOfAt(f, |lines|);
    var r := Gather(parts);
    forall k | 0 <= k < |r.value| && r.value[k].TooLong?
      ensures exists i :: 0 <= i < |lines| && TooLongAt(lines, level, i, r.value[k].methodName, r.value[k].size)
    {
      var i :| 0 <= i < |parts| && parts[i].Ok? && r.value[k] in parts[i].value;
      StepsOfAt(lines, filename, level, checkWhitespace, i);
      TooLongStepSound(lines, filename, level, checkWhitespace, i, r.value[k]);
    }
  }

  lemma MissingBlanksReported(lines: seq<string>, filename: string, level: int, checkWhitespace: bool)
    requires Reference(lines, filename, level, checkWhitespace, |lines|).Ok?
    ensures var ws := Reference(lines, filename, level, checkWhitespace, |lines|).value;
      checkWhitespace ==>
        forall i :: 0 <= i < |lines| && IsOpen(lines, level, i) && WhitespaceWarnings(lines, filename, i) != []
          ==> WhitespaceWarnings(lines, filename, i)[0] in ws
  {
    var f := StepsOf(lines, filename, level, checkWhitespace);
    var parts := PartsOf(f, |lines|);
    PartsOfAt(f, |lines|);
    var r := Gather(parts);
    if checkWhitespace {
      forall i | 0 <= i < |lines| && IsOpen(lines, level, i) && WhitespaceWarnings(lines, filename, i) != []
        ensures WhitespaceWarnings(lines, filename, i)[0] in r.value
      {
        StepsOfAt(lines, filename, level, checkWhitespace, i);
        OpenStep(lines, filename, level, checkWhitespace, i);
        assert parts[i].Ok?;
      }
    }
  }

  lemma MissingBlanksOnly(lines: seq<string>, filename: string, level: int, checkWhitespace: bool)
    requires Reference(lines, filename, level, checkWhitespace, |lines|).Ok?
    ensures var ws := Reference(lines, filename, level, checkWhitespace, |lines|).value;
      forall k :: 0 <= k < |ws| && ws[k].NoWhitespace? ==>
        checkWhitespace
        && exists i :: 0 <= i < |lines| && IsOpen(lines, level, i) && WhitespaceWarnings(lines, filename, i) == [ws[k]]
  {
    var f := StepsOf(lines, filename, level, checkWhitespace);
    var parts := PartsOf(f, |lines|);
    PartsOfAt(f, |lines|);
    var r := Gather(parts);
    forall k | 0 <= k < |r.value| && r.value[k].NoWhitespace?
      ensures checkWhitespace
              && exists i :: 0 <= i < |lines| && IsOpen(lines, level, i)
                             && WhitespaceWarnings(lines, filename, i) == [r.value[k]]
    {
      var i :| 0 <= i < |parts| && parts[i].Ok? && r.value[k] in parts[i].value;
      StepsOfAt(lines, filename, level, checkWhitespace, i);
      WhitespaceStepSound(lines, filename, level, checkWhitespace, i, r.value[k]);
    }
  }

  /** `Analyze`: the method level is one less than `FileCharacteristics.MethodLevel`, and
      methods are checked for a preceding blank line. A method closing at that level is
      reported iff `TooLongAt` holds of it. */
  function Analyze(filename: string, lines: seq<string>): (r: Result<seq<Warning>>)
    ensures r.Ok? ==> AllPlausible(r.value, lines, filename, true)
    ensures r.Ok? && |lines| <= MaxMethodLength ==> forall k :: 0 <= k < |r.value| ==> !r.value[k].TooLong?
    ensures r.Err? ==> r.fault != ArgumentNull("startIndex")
    ensures r.Ok? ==> ReportsLongMethods(lines, filename, FileCharacteristics.MethodLevel(lines) - 1, r.value)
    ensures r.Ok? ==> ReportsMissingBlanks(lines, filename, FileCharacteristics.MethodLevel(lines) - 1, true, r.value)
  {
    Walk(lines, filename, FileCharacteristics.MethodLevel(lines) - 1, true)
  }

  /** A method at the top level of a file without a namespace, whose `{` is the first line,
      has no blank line before it: naming it fails. */
  lemma MissingBlankLineFails(filename: string)
    ensures Analyze(filename, ["{", "}"]) == Err(ArgumentNull("lastBlankLineIndex"))
  {
    var lines := ["{", "}"];
    assert FileCharacteristics.MethodLevel(lines) == 1 by {
      assert !FileCharacteristics.IsNamespaceLine(lines[0]);
      assert !FileCharacteristics.IsNamespaceLine(lines[1]);
    }
    var s1 := Step(lines, filename, 0, true, 0, Initial);
    assert s1 == Ok(WalkState(1, None, Some(0), []));
    assert Step(lines, filename, 0, true, 1, s1.value) == Err(ArgumentNull("lastBlankLineIndex"));
  }
}
