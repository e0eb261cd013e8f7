/** `IdentifierAnalyzer`: walks the brace depth of a file; checks the case of parameter
    names in method headers at class level and of local variables in method bodies. */
module IdentifierAnalyzer {
  import opened Results
  import opened Text
  import CommentLineAnalyzer
  import FileCharacteristics
  import MethodHeader
  import ParameterParser

  /** Where the walk continues and the warnings a step produced. */
  datatype Progress = Progress(next: nat, warnings: seq<string>)

  /** This class's copy of `IsMethod`: like `MethodHeaderAnalyzer.IsMethod`, but without
      the class-name or space test on the text before the `(`. */
  function IsMethod(line: string): (r: MethodHeader.MethodMatch)
    ensures !r.isMethod ==> r.position == 0
    ensures r.isMethod ==> r.position < |line| && line[r.position] == '('
    ensures r.isMethod ==> MethodHeader.CapitalAfter(line, r.position + 1).capitalUsed
    ensures r.isMethod ==> '=' !in line[..r.position] && '[' !in line[..r.position]
    ensures !r.isMethod ==>
              forall j :: 0 <= j < |line| && MethodHeader.FlaggedParen(line, j) ==>
                '=' in line[..j] || '[' in line[..j]
    ensures r.isMethod ==> forall j :: 0 <= j < r.position ==> !MethodHeader.FlaggedParen(line, j)
  {
    match MethodHeader.ParenFrom(line, 0, true)
    case None =>
      assert forall j :: 0 <= j <= |line| ==> line[0..j] == line[..j];
      MethodHeader.MethodMatch(false, 0)
    case Some(p) =>
      assert line[0..p] == line[..p];
      MethodHeader.MethodMatch(true, p)
  }

  /** `IsEndOfMethodHeader`: the header line ends with `)`, `=>` or `;`, or holds `//`. */
  predicate IsEndOfMethodHeader(line: string) {
    EndsWith(line, ")") || EndsWith(line, "=>") || EndsWith(line, ";") || Contains(line, "//")
  }

  predicate IsCloseParen(c: char) { c == ')' }

  /** The last space-separated token of a parameter with `)` trimmed off: its name. */
  function ParameterName(param: string): string {
    var tokens := Split(param, ' ');
    TrimBoth(tokens[|tokens| - 1], IsCloseParen)
  }

  function MisnamedParameter(filename: string, name: string): string {
    "Misnamed parameter in " + filename + ": " + name
  }

  /** The check of one parameter: a single token never warns; otherwise the name must
      start with a lowercase letter, and an empty name fails on its first character. */
  function CheckParameter(param: string, filename: string): (r: Result<seq<string>>)
    ensures ' ' !in param ==> r == Ok([])
    ensures ' ' in param && ParameterName(param) == "" ==> r == Err(OutOfRange)
    ensures ' ' in param && ParameterName(param) != "" ==>
              r.Ok? && (r.value != [] <==> !IsLower(ParameterName(param)[0]) && ParameterName(param) != "=>")
    ensures r.Ok? ==> r.value == [] || r.value == [MisnamedParameter(filename, ParameterName(param))]
  {
    var tokens := Split(param, ' ');
    var name := ParameterName(param);
    if |tokens| >= 2 && |name| == 0 then Err(OutOfRange)
    else if |tokens| >= 2 && !IsLower(name[0]) && name != "=>" then Ok([MisnamedParameter(filename, name)])
    else Ok([])
  }

  /** A parameter of at least two tokens whose name is empty: checking it fails. */
  predicate NameMissing(param: string) {
    ' ' in param && ParameterName(param) == ""
  }

  /** A parameter of at least two tokens whose name neither starts with a lowercase letter
      nor is `=>`: checking it warns. */
  predicate Misnamed(param: string) {
    ' ' in param && ParameterName(param) != "" && !IsLower(ParameterName(param)[0])
    && ParameterName(param) != "=>"
  }

  /** The index of the first piece holding `=>`, or the number of pieces. */
  function ArrowIndex(pieces: seq<string>): (k: nat)
    ensures k <= |pieces|
    ensures forall j :: 0 <= j < k ==> !Contains(pieces[j], "=>")
    ensures k < |pieces| ==> Contains(pieces[k], "=>")
  {
    if |pieces| == 0 || Contains(pieces[0], "=>") then 0 else 1 + ArrowIndex(pieces[1..])
  }

  /** Some parameter before the first piece holding `=>` has an empty name. */
  predicate Fails(pieces: seq<string>) {
    Among(pieces, ArrowIndex(pieces), NameMissing)
  }

  /** Some item among the first `a` passes `ok`. */
  predicate Among(items: seq<string>, a: nat, ok: string -> bool)
    requires a <= |items|
  {
    exists k :: 0 <= k < a && ok(items[k])
  }

  /** Some item among the first `a` passes `ok` iff the first one does or one of the
      next `a - 1` does. */
  lemma {:induction false} AmongStep(items: seq<string>, a: nat, ok: string -> bool)
    requires 0 < a <= |items|
    ensures Among(items, a, ok) <==> ok(items[0]) || Among(items[1..], a - 1, ok)
  {
    if Among(items[1..], a - 1, ok) {
      var k :| 0 <= k < a - 1 && ok(items[1..][k]);
      assert items[k + 1] == items[1..][k];
    }
    if Among(items, a, ok) {
      var k :| 0 <= k < a && ok(items[k]);
      if k > 0 {
        assert items[1..][k - 1] == items[k];
      }
    }
  }

  /** `ws` reports exactly the misnamed parameters before the first piece holding `=>`:
      as many warnings as there are such parameters, a warning for each of them, and no
      warning for anything else. */
  predicate Reports(pieces: seq<string>, filename: string, ws: seq<string>) {
    |ws| == Count(pieces[..ArrowIndex(pieces)], Misnamed)
    && Covers(pieces, filename, ws) && OnlyMisnamed(pieces, filename, ws)
  }

  predicate Covers(pieces: seq<string>, filename: string, ws: seq<string>) {
    Covered(pieces, ArrowIndex(pieces), filename, Misnamed, MisnamedMessage, ws)
  }

  /** For every item among the first `a` that passes `ok`, `msg` of it is in `ws`. */
  predicate Covered(items: seq<string>, a: nat, filename: string, ok: string -> bool,
                    msg: (string, string) -> string, ws: seq<string>)
    requires a <= |items|
  {
    forall k :: 0 <= k < a && ok(items[k]) ==> msg(filename, items[k]) in ws
  }

  predicate OnlyMisnamed(pieces: seq<string>, filename: string, ws: seq<string>) {
    Witnessed(pieces, ArrowIndex(pieces), filename, Misnamed, MisnamedMessage, ws)
  }

  /** The warning for a misnamed parameter. */
  function MisnamedMessage(filename: string, param: string): string {
    MisnamedParameter(filename, ParameterName(param))
  }

  /** `x` is `msg` of an item among the first `a` that passes `ok`. */
  predicate Witness(items: seq<string>, a: nat, filename: string, ok: string -> bool,
                    msg: (string, string) -> string, x: string)
    requires a <= |items|
  {
    exists k :: 0 <= k < a && ok(items[k]) && x == msg(filename, items[k])
  }

  /** Every entry of `ws` is `msg` of an item among the first `a` that passes `ok`. */
  predicate Witnessed(items: seq<string>, a: nat, filename: string, ok: string -> bool,
                      msg: (string, string) -> string, ws: seq<string>)
    requires a <= |items|
  {
    forall m :: 0 <= m < |ws| ==> Witness(items, a, filename, ok, msg, ws[m])
  }

  /** The loop of `CheckParametersPerLine` over the pieces: it stops at the first piece
      holding `=>`. Before that piece, it fails iff some parameter has an empty name, and
      otherwise reports each misnamed parameter, in order. */
  function CheckPieces(pieces: seq<string>, filename: string): (r: Result<seq<string>>)
    ensures r.Ok? ==> |r.value| <= |pieces|
    ensures r.Err? <==> Fails(pieces)
    ensures r.Err? ==> r.fault == OutOfRange
    ensures r.Ok? ==> Reports(pieces, filename, r.value)
    decreases |pieces|
  {
    if |pieces| == 0 then Ok([])
    else if Contains(pieces[0], "=>") then Ok([])
    else
      FailsStep(pieces);
      match CheckParameter(pieces[0], filename)
      case Err(e) => Err(e)
      case Ok(w) =>
        match CheckPieces(pieces[1..], filename)
        case Err(e) => Err(e)
        case Ok(ws) =>
          ReportsStep(pieces, filename, w, ws);
          Ok(w + ws)
  }

  /** Past a first piece without `=>`, the pieces fail iff the first one or a later one does. */
  lemma {:induction false} FailsStep(pieces: seq<string>)
    requires |pieces| > 0 && !Contains(pieces[0], "=>")
    ensures Fails(pieces) <==> NameMissing(pieces[0]) || Fails(pieces[1..])
  {
    assert ArrowIndex(pieces) == 1 + ArrowIndex(pieces[1..]);
    AmongStep(pieces, ArrowIndex(pieces), NameMissing);
  }

  /** The warnings of the first piece followed by those of the rest report the pieces. */
  lemma {:induction false} ReportsStep(pieces: seq<string>, filename: string, w: seq<string>, ws: seq<string>)
    requires |pieces| > 0 && !Contains(pieces[0], "=>") && !NameMissing(pieces[0])
    requires CheckParameter(pieces[0], filename) == Ok(w)
    requires Reports(pieces[1..], filename, ws)
    ensures Reports(pieces, filename, w + ws)
  {
    var a := ArrowIndex(pieces);
    assert a == 1 + ArrowIndex(pieces[1..]);
    assert pieces[..a][1..] == pieces[1..][..a - 1];
    assert w == [] <==> !Misnamed(pieces[0]);
    CoversStep(pieces, filename, w, ws);
    OnlyMisnamedStep(pieces, filename, w, ws);
  }

  lemma {:induction false} CoversStep(pieces: seq<string>, filename: string, w: seq<string>, ws: seq<string>)
    requires |pieces| > 0 && !Contains(pieces[0], "=>") && !NameMissing(pieces[0])
    requires CheckParameter(pieces[0], filename) == Ok(w)
    requires Covers(pieces[1..], filename, ws)
    ensures Covers(pieces, filename, w + ws)
  {
    var a := ArrowIndex(pieces);
    assert a == 1 + ArrowIndex(pieces[1..]);
    assert Misnamed(pieces[0]) ==> w == [MisnamedMessage(filename, pieces[0])];
    CoveredShift(pieces, a, filename, Misnamed, MisnamedMessage, w, ws);
  }

  /** When the first item passes `ok`, `w` holds its `msg`, and `ws` covers the next
      `a - 1` items: then `w + ws` covers the first `a`. */
  lemma {:induction false} CoveredShift(items: seq<string>, a: nat, filename: string, ok: string -> bool,
                                        msg: (string, string) -> string, w: seq<string>, ws: seq<string>)
    requires 0 < a <= |items|
    requires ok(items[0]) ==> msg(filename, items[0]) in w
    requires Covered(items[1..], a - 1, filename, ok, msg, ws)
    ensures Covered(items, a, filename, ok, msg, w + ws)
  {
    forall k | 0 <= k < a && ok(items[k])
      ensures msg(filename, items[k]) in w + ws
    {
      if k > 0 {
        assert items[1..][k - 1] == items[k];
      }
    }
  }

  lemma {:induction false} OnlyMisnamedStep(pieces: seq<string>, filename: string, w: seq<string>, ws: seq<string>)
    requires |pieces| > 0 && !Contains(pieces[0], "=>") && !NameMissing(pieces[0])
    requires CheckParameter(pieces[0], filename) == Ok(w)
    requires OnlyMisnamed(pieces[1..], filename, ws)
    ensures OnlyMisnamed(pieces, filename, w + ws)
  {
    var a := ArrowIndex(pieces);
    assert a == 1 + ArrowIndex(pieces[1..]);
    HeadWarning(pieces[0], filename, w);
    WitnessedShift(pieces, a, filename, Misnamed, MisnamedMessage, w, ws);
  }

  /** Every entry of `w` is `msg` of the first item, which passes `ok`, and every entry of
      `ws` is `msg` of a passing item among the next `a - 1`: then every entry of `w + ws`
      is `msg` of a passing item among the first `a`. */
  lemma {:induction false} WitnessedShift(items: seq<string>, a: nat, filename: string, ok: string -> bool,
                                          msg: (string, string) -> string, w: seq<string>, ws: seq<string>)
    requires 0 < a <= |items|
    requires w != [] ==> ok(items[0]) && w == [msg(filename, items[0])]
    requires Witnessed(items[1..], a - 1, filename, ok, msg, ws)
    ensures Witnessed(items, a, filename, ok, msg, w + ws)
  {
    forall m | 0 <= m < |w + ws|
      ensures Witness(items, a, filename, ok, msg, (w + ws)[m])
    {
      if m < |w| {
        assert (w + ws)[m] == msg(filename, items[0]) && ok(items[0]);
      } else {
        assert (w + ws)[m] == ws[m - |w|];
        assert Witness(items[1..], a - 1, filename, ok, msg, ws[m - |w|]);
        var k :| 0 <= k < a - 1 && ok(items[1..][k]) && ws[m - |w|] == msg(filename, items[1..][k]);
        assert items[k + 1] == items[1..][k];
        assert ok(items[k + 1]) && (w + ws)[m] == msg(filename, items[k + 1]);
      }
    }
  }

  /** A warning from checking one parameter names that parameter, which is misnamed. */
  lemma HeadWarning(param: string, filename: string, w: seq<string>)
    requires !NameMissing(param) && CheckParameter(param, filename) == Ok(w)
    ensures w != [] ==> Misnamed(param) && w == [MisnamedMessage(filename, param)]
  {
  }

  /** No piece from the first one containing `=>` onward is looked at. */
  lemma {:induction false} ArrowEndsChecking(pieces: seq<string>, filename: string, k: nat)
    requires k < |pieces| && Contains(pieces[k], "=>")
    ensures CheckPieces(pieces, filename) == CheckPieces(pieces[..k], filename)
    decreases k
  {
    if k > 0 && !Contains(pieces[0], "=>") {
      assert pieces[..k][1..] == pieces[1..][..k - 1];
      ArrowEndsChecking(pieces[1..], filename, k - 1);
    }
  }

  /** `CheckParametersPerLine`: the parameters after position `i` of line `lineIndex`. */
  function CheckParametersPerLine(lines: seq<string>, filename: string, lineIndex: nat, i: nat)
    : (r: Result<seq<string>>)
    ensures r.Ok? ==> lineIndex < |lines| && i + 1 <= |lines[lineIndex]|
    ensures lineIndex >= |lines| ==> r == Err(OutOfRange)
    ensures lineIndex < |lines| && i + 1 <= |lines[lineIndex]| ==>
              r == CheckPieces(ParameterParser.GetParameters(lines[lineIndex][i + 1..]), filename)
    ensures r.Err? <==> !(lineIndex < |lines| && i + 1 <= |lines[lineIndex]|)
                        || Fails(ParameterParser.GetParameters(lines[lineIndex][i + 1..]))
    ensures r.Ok? ==> Reports(ParameterParser.GetParameters(lines[lineIndex][i + 1..]), filename, r.value)
  {
    if lineIndex >= |lines| then Err(OutOfRange)
    else if i + 1 > |lines[lineIndex]| then Err(OutOfRange)
    else CheckPieces(ParameterParser.GetParameters(lines[lineIndex][i + 1..]), filename)
  }

  /** The loop of `CheckParameters`. The end-of-header test is applied to `currentLine`,
      the header line, on every round. */
  function CheckLoop(lines: seq<string>, filename: string, lineIndexToTest: nat, position: nat,
                     currentLine: string, acc: seq<string>): (r: Result<Progress>)
    ensures r.Ok? ==> lineIndexToTest <= r.value.next < |lines| && acc <= r.value.warnings
    decreases |lines| - lineIndexToTest
  {
    match CheckParametersPerLine(lines, filename, lineIndexToTest, position)
    case Err(e) => Err(e)
    case Ok(ws) =>
      if IsEndOfMethodHeader(currentLine) then Ok(Progress(lineIndexToTest, acc + ws))
      else CheckLoop(lines, filename, lineIndexToTest + 1, 0, currentLine, acc + ws)
  }

  /** Since the header line is never re-read, a header line that does not end the header
      keeps the loop going until it runs off the list. */
  lemma {:induction false} UnendedHeaderFails(lines: seq<string>, filename: string, k: nat,
                                                position: nat, currentLine: string, acc: seq<string>)
    requires !IsEndOfMethodHeader(currentLine)
    ensures CheckLoop(lines, filename, k, position, currentLine, acc).Err?
    decreases |lines| - k
  {
    match CheckParametersPerLine(lines, filename, k, position)
    case Err(_) =>
    case Ok(ws) => UnendedHeaderFails(lines, filename, k + 1, 0, currentLine, acc + ws);
  }

  /** `CheckParameters`: a header line that ends the header (it ends with `)`, `=>` or `;`,
      or holds `//`) is the only line checked and the walk resumes after it; any other
      header line makes the check fail. */
  function CheckParameters(lines: seq<string>, filename: string, lineIndex: nat, position: nat)
    : (r: Result<Progress>)
    requires lineIndex < |lines|
    ensures IsEndOfMethodHeader(lines[lineIndex]) ==>
              r == match CheckParametersPerLine(lines, filename, lineIndex, position)
                   case Ok(ws) => Ok(Progress(lineIndex, ws))
                   case Err(e) => Err(e)
    ensures !IsEndOfMethodHeader(lines[lineIndex]) ==> r.Err?
    ensures IsEndOfMethodHeader(lines[lineIndex]) && position + 1 <= |lines[lineIndex]| ==>
              var pieces := ParameterParser.GetParameters(lines[lineIndex][position + 1..]);
              (r.Err? <==> Fails(pieces))
              && (r.Ok? ==> r.value.next == lineIndex && Reports(pieces, filename, r.value.warnings))
  {
    var currentLine := lines[lineIndex];
    if !IsEndOfMethodHeader(currentLine) then
      UnendedHeaderFails(lines, filename, lineIndex, position, currentLine, []);
      CheckLoop(lines, filename, lineIndex, position, currentLine, [])
    else
      assert forall ws: seq<string> :: [] + ws == ws;
      CheckLoop(lines, filename, lineIndex, position, currentLine, [])
  }

  /** `GetPartUntilStringStartIfAny`: one less than the index of the first `"`, or the
      length of a line without one. */
  function GetPartUntilStringStartIfAny(line: string): (r: int)
    ensures r == |line| <==> '"' !in line
    ensures r != |line| ==> -1 <= r && r + 1 < |line| && line[r + 1] == '"' && '"' !in line[..r + 1]
  {
    var q := FirstIndex(line, '"');
    if q == -1 then |line| else q - 1
  }

  function WrongIdentifierCase(filename: string, identifier: string): string {
    "Wrong identifier case: " + filename + ": " + identifier + "."
  }

  /** The tokens of a declaration `type name = value …`: the first `=` is the third token. */
  predicate IsDeclaration(tokens: seq<string>) {
    |tokens| > 2 && tokens[2] == "=" && tokens[0] != "=" && tokens[1] != "="
  }

  /** `FindTypingErrors`: in `type name = value` (split on single spaces, before the
      character preceding the first `"`), the name must start with a lowercase letter. */
  function FindTypingErrors(line: string, filename: string): (r: Result<seq<string>>)
    ensures var e := GetPartUntilStringStartIfAny(line);
      e < 1 ==> r == Ok([])
    ensures var e := GetPartUntilStringStartIfAny(line);
      r.Ok? && r.value != [] ==>
        1 <= e && var tokens := Split(line[..e], ' ');
        IsDeclaration(tokens) && tokens[1] != "" && !IsLower(tokens[1][0])
        && r.value == [WrongIdentifierCase(filename, tokens[1])]
    ensures var e := GetPartUntilStringStartIfAny(line);
      1 <= e && (var tokens := Split(line[..e], ' ');
                 IsDeclaration(tokens) && (tokens[1] == "" || !IsLower(tokens[1][0])))
      ==> r != Ok([])
    ensures var e := GetPartUntilStringStartIfAny(line);
      r.Err? <==> 1 <= e && (var tokens := Split(line[..e], ' ');
                             IsDeclaration(tokens) && tokens[1] == "")
    ensures r.Err? ==> r.fault == OutOfRange
    ensures var e := GetPartUntilStringStartIfAny(line);
      1 <= e ==> var tokens := Split(line[..e], ' ');
        IsDeclaration(tokens) && tokens[1] != "" && !IsLower(tokens[1][0]) ==>
          r == Ok([WrongIdentifierCase(filename, tokens[1])])
  {
    var endIndex := GetPartUntilStringStartIfAny(line);
    if endIndex < 1 then Ok([])
    else
      var elements := Split(line[..endIndex], ' ');
      var assignIndex := FirstIndex(elements, "=");
      FirstIndexIsTwo(elements, "=");
      if assignIndex == 2 then
        if |elements[1]| == 0 then Err(OutOfRange)
        else if !IsLower(elements[1][0]) then Ok([WrongIdentifierCase(filename, elements[1])])
        else Ok([])
      else
        Ok([])
  }

  /** The first occurrence is at position 2 exactly when it is there and not before. */
  lemma FirstIndexIsTwo<T>(s: seq<T>, x: T)
    ensures FirstIndex(s, x) == 2 <==> |s| > 2 && s[2] == x && s[0] != x && s[1] != x
  {
    if |s| > 2 {
      assert s[..2] == [s[0], s[1]];
    }
  }

  /** Only the text before the character preceding the first `"` is examined. */
  lemma TypingErrorsIgnoreLiteral(line: string, filename: string)
    requires GetPartUntilStringStartIfAny(line) >= 0
    ensures var e := GetPartUntilStringStartIfAny(line);
      FindTypingErrors(line, filename) == FindTypingErrors(line[..e], filename)
  {
    var e := GetPartUntilStringStartIfAny(line);
    if e < |line| {
      assert '"' !in line[..e] by {
        assert line[..e] <= line[..e + 1];
      }
      assert GetPartUntilStringStartIfAny(line[..e]) == e;
      assert line[..e][..e] == line[..e];
    } else {
      assert line[..e] == line;
    }
  }

  /** `ProcessNonMethodLine`: from line `lineIndex`, skip block-comment lines; if the line
      reached is a method header, check its parameters. The walk resumes after the line
      returned, which is never before `lineIndex`. A header that ends on its own line has
      exactly its misnamed parameters reported; any other header makes the check fail. */
  function ProcessNonMethodLine(lines: seq<string>, filename: string, lineIndex: nat)
    : (r: Result<Progress>)
    requires lineIndex < |lines|
    ensures r.Ok? ==> lineIndex <= r.value.next < |lines|
    ensures CommentLineAnalyzer.FindFirstNonCommentLine(lines, lineIndex - 1).Err? ==> r == Err(OutOfRange)
    ensures var f := CommentLineAnalyzer.FindFirstNonCommentLine(lines, lineIndex - 1);
      f.Ok? && !IsMethod(f.value.line).isMethod ==> r == Ok(Progress(f.value.index, []))
    ensures var f := CommentLineAnalyzer.FindFirstNonCommentLine(lines, lineIndex - 1);
      f.Ok? && IsMethod(f.value.line).isMethod && !IsEndOfMethodHeader(f.value.line) ==> r.Err?
    ensures var f := CommentLineAnalyzer.FindFirstNonCommentLine(lines, lineIndex - 1);
      f.Ok? && IsMethod(f.value.line).isMethod && IsEndOfMethodHeader(f.value.line) ==>
        var pieces := HeaderPieces(f.value.line);
        (r.Err? <==> Fails(pieces))
        && (r.Ok? ==> r.value.next == f.value.index && Reports(pieces, filename, r.value.warnings))
  {
    var f := CommentLineAnalyzer.FindFirstNonCommentLine(lines, lineIndex - 1);
    if f.Err? then Err(f.fault)
    else
      var m := IsMethod(f.value.line);
      if m.isMethod then CheckParameters(lines, filename, f.value.index, m.position)
      else Ok(Progress(f.value.index, []))
  }

  /** The parameter segments of a method-header line: the text after its `(`. */
  function HeaderPieces(line: string): seq<string>
    requires IsMethod(line).isMethod
  {
    ParameterParser.GetParameters(line[IsMethod(line).position + 1..])
  }

  /** The walk's state between lines. */
  datatype Cursor = Cursor(next: nat, depth: int, warnings: seq<string>)

  /** How a line changes the brace depth of this walk. */
  function DepthChange(line: string): int {
    if StartsWith(line, "{") then 1 else if StartsWith(line, "}") then -1 else 0
  }

  /** One round of `Analyze`'s loop at line `i`: the depth changes only on lines starting
      with a brace, and the walk never moves backwards. */
  function AnalyzeStep(lines: seq<string>, methodLevel: int, filename: string, i: nat, depth: int)
    : (r: Result<Cursor>)
    requires i < |lines| && methodLevel >= 1
    ensures r.Ok? ==> i < r.value.next <= |lines|
    ensures r.Ok? ==> r.value.depth == depth + DepthChange(lines[i])
    ensures r.Ok? && r.value.next > i + 1 ==> 0 < depth < methodLevel && DepthChange(lines[i]) == 0
    ensures (StartsWith(lines[i], "{") || StartsWith(lines[i], "}") || depth <= 0) ==>
              r == Ok(Cursor(i + 1, depth + DepthChange(lines[i]), []))
    ensures DepthChange(lines[i]) == 0 && depth >= methodLevel ==>
              (r.Err? <==> FindTypingErrors(lines[i], filename).Err?)
              && (r.Ok? ==> r.value == Cursor(i + 1, depth, FindTypingErrors(lines[i], filename).value))
    ensures DepthChange(lines[i]) == 0 && 0 < depth < methodLevel ==>
              (r.Err? <==> ProcessNonMethodLine(lines, filename, i).Err?)
              && (r.Ok? ==> var p := ProcessNonMethodLine(lines, filename, i).value;
                            r.value == Cursor(p.next + 1, depth, p.warnings))
  {
    var line := lines[i];
    if StartsWith(line, "{") then Ok(Cursor(i + 1, depth + 1, []))
    else if StartsWith(line, "}") then Ok(Cursor(i + 1, depth - 1, []))
    else if depth >= methodLevel then
      match FindTypingErrors(line, filename)
      case Err(e) => Err(e)
      case Ok(ws) => Ok(Cursor(i + 1, depth, ws))
    else if depth > 0 then
      match ProcessNonMethodLine(lines, filename, i)
      case Err(e) => Err(e)
      case Ok(p) => Ok(Cursor(p.next + 1, depth, p.warnings))
    else Ok(Cursor(i + 1, depth, []))
  }

  /** `Analyze`'s loop from line `i`, with the warnings so far in `acc`. */
  function AnalyzeFrom(lines: seq<string>, methodLevel: int, filename: string, i: nat, depth: int,
                       acc: seq<string>): (r: Result<seq<string>>)
    requires i <= |lines| && methodLevel >= 1
    ensures r.Ok? ==> acc <= r.value
    decreases |lines| - i
  {
    if i == |lines| then Ok(acc)
    else match AnalyzeStep(lines, methodLevel, filename, i, depth)
      case Err(e) => Err(e)
      case Ok(c) => AnalyzeFrom(lines, methodLevel, filename, c.next, c.depth, acc + c.warnings)
  }

  /** `Analyze`: the warnings for a file, or the exception that ends the analysis. A file
      in which no line starts with `{` never leaves depth 0 and draws no warnings. */
  function Analyze(filename: string, lines: seq<string>): (r: Result<seq<string>>)
    ensures (forall k :: 0 <= k < |lines| ==> !StartsWith(lines[k], "{")) ==> r == Ok([])
  {
    var level := FileCharacteristics.MethodLevel(lines);
    if forall k :: 0 <= k < |lines| ==> !StartsWith(lines[k], "{") then
      ShallowLinesIgnored(lines, level, filename, 0, 0, []);
      AnalyzeFrom(lines, level, filename, 0, 0, [])
    else
      AnalyzeFrom(lines, level, filename, 0, 0, [])
  }

  /** Lines reached at depth 0 or below are never examined: a walk that never rises above
      depth 0 collects no warnings. */
  lemma {:induction false} ShallowLinesIgnored(lines: seq<string>, methodLevel: int, filename: string,
                                               i: nat, depth: int, acc: seq<string>)
    requires i <= |lines| && methodLevel >= 1 && depth <= 0
    requires forall k :: i <= k < |lines| ==> !StartsWith(lines[k], "{")
    ensures AnalyzeFrom(lines, methodLevel, filename, i, depth, acc) == Ok(acc)
    decreases |lines| - i
  {
    if i < |lines| {
      var c := AnalyzeStep(lines, methodLevel, filename, i, depth);
      assert c == Ok(Cursor(i + 1, depth + DepthChange(lines[i]), []));
      assert acc + [] == acc;
      ShallowLinesIgnored(lines, methodLevel, filename, i + 1, depth + DepthChange(lines[i]), acc);
    }
  }

  /** A parameter written `type name` is reported exactly when its name does not start
      with a lowercase letter. */
  lemma ParameterCaseChecked(typ: string, name: string, filename: string)
    requires ' ' !in typ && ' ' !in name && name != ""
    requires name[0] != ')' && name[|name| - 1] != ')'
    ensures CheckParameter(typ + " " + name, filename)
            == if IsLower(name[0]) || name == "=>" then Ok([])
               else Ok([MisnamedParameter(filename, name)])
  {
    var param := typ + " " + name;
    assert Join([typ, name], ' ') == param by {
      assert [typ, name][1..] == [name];
    }
    SplitUnique(param, ' ', [typ, name]);
    assert TrimBoth(name, IsCloseParen) == name;
  }

  /** In a declaration `type Name = value` outside any string literal, a name that does
      not start with a lowercase letter is reported. */
  lemma CapitalisedDeclarationReported(typ: string, name: string, value: string, filename: string)
    requires ' ' !in typ && ' ' !in name && ' ' !in value
    requires '"' !in typ && '"' !in name && '"' !in value
    requires typ != "=" && name != "=" && name != "" && !IsLower(name[0])
    ensures FindTypingErrors(typ + " " + name + " = " + value, filename)
            == Ok([WrongIdentifierCase(filename, name)])
  {
    var line := typ + " " + name + " = " + value;
    var parts := [typ, name, "=", value];
    JoinDeclaration(typ, name, value);
    var e := GetPartUntilStringStartIfAny(line);
    assert e == |line| by {
      assert '"' !in line;
    }
    assert Split(line[..e], ' ') == parts by {
      assert line[..|line|] == line;
      SplitUnique(line, ' ', parts);
    }
    assert FirstIndex(parts, "=") == 2 by {
      FirstIndexIsTwo(parts, "=");
    }
  }

  /** The words of a declaration with an initialiser, joined by spaces. */
  lemma JoinDeclaration(typ: string, name: string, value: string)
    ensures Join([typ, name, "=", value], ' ') == typ + " " + name + " = " + value
  {
    var parts := [typ, name, "=", value];
    assert Join(["=", value], ' ') == "=" + [' '] + value;
    assert Join([name, "=", value], ' ') == name + [' '] + ("=" + [' '] + value);
    assert parts[1..] == [name, "=", value];
    assert Join(parts, ' ') == typ + [' '] + (name + [' '] + ("=" + [' '] + value));
  }

  /** The depth of the walk from line `i` at depth `depth` when it reaches line `k`,
      provided it visits every line in between. */
  function DepthBefore(lines: seq<string>, i: nat, depth: int, k: nat): int
    requires i <= k <= |lines|
    decreases k - i
  {
    if i == k then depth else DepthBefore(lines, i + 1, depth + DepthChange(lines[i]), k)
  }

  /** A walk that meets no line between class and method level before line `k` visits
      every line up to `k`. When line `k` lies inside a method, the walk checks it for a
      wrongly cased local variable and every warning of that check is in the result. */
  lemma {:induction false} MethodLineChecked(lines: seq<string>, methodLevel: int, filename: string,
                                             i: nat, depth: int, acc: seq<string>, k: nat)
    requires i <= k < |lines| && methodLevel >= 1
    requires forall m :: i <= m < k && DepthChange(lines[m]) == 0 ==>
               !(0 < DepthBefore(lines, i, depth, m) < methodLevel)
    requires DepthChange(lines[k]) == 0 && DepthBefore(lines, i, depth, k) >= methodLevel
    requires AnalyzeFrom(lines, methodLevel, filename, i, depth, acc).Ok?
    ensures FindTypingErrors(lines[k], filename).Ok?
    ensures forall w :: w in FindTypingErrors(lines[k], filename).value ==>
              w in AnalyzeFrom(lines, methodLevel, filename, i, depth, acc).value
    decreases k - i
  {
    var c := AnalyzeStep(lines, methodLevel, filename, i, depth);
    if i == k {
      var ws := FindTypingErrors(lines[k], filename).value;
      assert c.Ok? && c.value == Cursor(i + 1, depth, ws);
      var total := AnalyzeFrom(lines, methodLevel, filename, i + 1, depth, acc + ws).value;
      assert acc + ws <= total;
      KeptInPrefix(acc, ws, total);
    } else {
      assert c.Ok? && c.value.next == i + 1;
      var d := depth + DepthChange(lines[i]);
      DepthBeforeStep(lines, i, depth, k);
      MethodLineChecked(lines, methodLevel, filename, i + 1, d, acc + c.value.warnings, k);
    }
  }

  /** A walk that meets no line between class and method level before line `k` visits
      every line up to `k`. When line `k` lies between class and method level and the
      first code line from it is a method header that ends on that line, the walk checks
      its parameters: none before the first `=>` lacks a name, and the warning of every
      misnamed one is in the result. */
  lemma HeaderParametersChecked(lines: seq<string>, methodLevel: int, filename: string,
                                i: nat, depth: int, acc: seq<string>, k: nat)
    requires i <= k < |lines| && methodLevel >= 1
    requires forall m :: i <= m < k && DepthChange(lines[m]) == 0 ==>
               !(0 < DepthBefore(lines, i, depth, m) < methodLevel)
    requires DepthChange(lines[k]) == 0 && 0 < DepthBefore(lines, i, depth, k) < methodLevel
    requires CommentLineAnalyzer.FindFirstNonCommentLine(lines, k - 1).Ok?
    requires var line := CommentLineAnalyzer.FindFirstNonCommentLine(lines, k - 1).value.line;
               IsMethod(line).isMethod && IsEndOfMethodHeader(line)
    requires AnalyzeFrom(lines, methodLevel, filename, i, depth, acc).Ok?
    ensures var pieces := HeaderPieces(CommentLineAnalyzer.FindFirstNonCommentLine(lines, k - 1).value.line);
      !Fails(pieces) && Covers(pieces, filename, AnalyzeFrom(lines, methodLevel, filename, i, depth, acc).value)
  {
    var rest := WalkReaches(lines, methodLevel, filename, i, depth, acc, k);
    HeaderLineChecked(lines, methodLevel, filename, k, DepthBefore(lines, i, depth, k), rest);
  }

  /** A walk that meets no line between class and method level before line `k` visits
      every line up to `k`: it ends as the walk from line `k` does, at the depth reached
      there, with the warnings gathered on the way. */
  lemma {:induction false} WalkReaches(lines: seq<string>, methodLevel: int, filename: string,
                                       i: nat, depth: int, acc: seq<string>, k: nat)
    returns (rest: seq<string>)
    requires i <= k < |lines| && methodLevel >= 1
    requires forall m :: i <= m < k && DepthChange(lines[m]) == 0 ==>
               !(0 < DepthBefore(lines, i, depth, m) < methodLevel)
    requires AnalyzeFrom(lines, methodLevel, filename, i, depth, acc).Ok?
    ensures AnalyzeFrom(lines, methodLevel, filename, i, depth, acc)
            == AnalyzeFrom(lines, methodLevel, filename, k, DepthBefore(lines, i, depth, k), rest)
    decreases k - i
  {
    if i == k {
      rest := acc;
    } else {
      var c := AnalyzeStep(lines, methodLevel, filename, i, depth);
      assert c.Ok? && c.value.next == i + 1;
      DepthBeforeStep(lines, i, depth, k);
      rest := WalkReaches(lines, methodLevel, filename, i + 1, depth + DepthChange(lines[i]),
                          acc + c.value.warnings, k);
    }
  }

  /** The round of `HeaderParametersChecked` at line `k` itself. */
  lemma HeaderLineChecked(lines: seq<string>, methodLevel: int, filename: string, k: nat, depth: int,
                          acc: seq<string>)
    requires k < |lines| && methodLevel >= 1
    requires DepthChange(lines[k]) == 0 && 0 < depth < methodLevel
    requires CommentLineAnalyzer.FindFirstNonCommentLine(lines, k - 1).Ok?
    requires var line := CommentLineAnalyzer.FindFirstNonCommentLine(lines, k - 1).value.line;
               IsMethod(line).isMethod && IsEndOfMethodHeader(line)
    requires AnalyzeFrom(lines, methodLevel, filename, k, depth, acc).Ok?
    ensures var pieces := HeaderPieces(CommentLineAnalyzer.FindFirstNonCommentLine(lines, k - 1).value.line);
      !Fails(pieces) && Covers(pieces, filename, AnalyzeFrom(lines, methodLevel, filename, k, depth, acc).value)
  {
    var pieces := HeaderPieces(CommentLineAnalyzer.FindFirstNonCommentLine(lines, k - 1).value.line);
    var c := AnalyzeStep(lines, methodLevel, filename, k, depth);
    var p := ProcessNonMethodLine(lines, filename, k);
    assert c.Ok?;
    assert p.Ok? && c.value == Cursor(p.value.next + 1, depth, p.value.warnings);
    var ws := p.value.warnings;
    assert !Fails(pieces) && Reports(pieces, filename, ws);
    var total := AnalyzeFrom(lines, methodLevel, filename, p.value.next + 1, depth, acc + ws).value;
    assert acc + ws <= total;
    KeptInPrefix(acc, ws, total);
    CoversGrow(pieces, filename, ws, total);
  }

  /** Coverage carries over to any list holding every warning of the covering one. */
  lemma CoversGrow(pieces: seq<string>, filename: string, ws: seq<string>, total: seq<string>)
    requires Covers(pieces, filename, ws)
    requires forall w :: w in ws ==> w in total
    ensures Covers(pieces, filename, total)
  {
  }

  /** Whatever follows `acc` at the start of `total` is in `total`. */
  lemma KeptInPrefix(acc: seq<string>, ws: seq<string>, total: seq<string>)
    requires acc + ws <= total
    ensures forall w :: w in ws ==> w in total
  {
    forall w | w in ws ensures w in total {
      var j :| 0 <= j < |ws| && ws[j] == w;
      assert total[|acc| + j] == w;
    }
  }

  /** Starting one line later, at the depth after that line, reaches the same depths. */
  lemma DepthBeforeStep(lines: seq<string>, i: nat, depth: int, k: nat)
    requires i < k <= |lines|
    ensures forall m :: i + 1 <= m <= k ==>
              DepthBefore(lines, i + 1, depth + DepthChange(lines[i]), m) == DepthBefore(lines, i, depth, m)
  {
  }
}
