/** `LineReport`: the per-file line metrics. Lines are trimmed first; comment lines are
    counted by `CommentLineAnalyzer`. */
module LineReport {
  import opened Text
  import CommentLineAnalyzer
  import LineParser

  datatype Report = Report(
    totalLines: nat,
    nonBlankLines: nat,
    braceLines: nat,
    openingLines: nat,          // `using` and `namespace` lines of the file's opening run
    initCommentLines: nat,      // line comments
    multiLineCommentLines: nat, // lines inside or opening a block comment
    comments: seq<string>)
  {
    function TotalCommentLines(): nat {
      initCommentLines + multiLineCommentLines
    }

    /** What is left of the non-blank lines once comment, brace and opening lines are
        taken away. A line in two of those classes is taken away twice. */
    function CodeLines(): (n: int)
      ensures n <= nonBlankLines
    {
      nonBlankLines - TotalCommentLines() - braceLines - openingLines
    }
  }

  /** `IsRawStartingLine`: a `using` directive or a namespace declaration. */
  predicate IsRawStartingLine(line: string) {
    StartsWith(line, "using") || StartsWith(line, "namespace")
  }

  predicate IsNonBlank(line: string) { |line| > 0 }

  predicate IsBraceLine(line: string) { line == "{" || line == "}" }

  /** Lines that may occur in a file's opening run: blank lines, usings, namespaces. */
  predicate IsOpeningRunLine(line: string) { line == "" || IsRawStartingLine(line) }

  function TrimAll(lines: seq<string>): (r: seq<string>)
    ensures |r| == |lines|
    ensures forall k :: 0 <= k < |lines| ==> r[k] == Trim(lines[k])
  {
    seq(|lines|, k requires 0 <= k < |lines| => Trim(lines[k]))
  }

  /** The constructor of `LineReport`. Every count is taken over the trimmed lines: the
      non-blank ones, the lone braces, the `using`/`namespace` lines of the opening run of
      blank, `using` and `namespace` lines, and the comment lines `CountCommentLines`
      finds. */
  function NewReport(lines: seq<string>): (r: Report)
    ensures r.totalLines == |lines|
    ensures r.braceLines <= r.nonBlankLines <= r.totalLines
    ensures r.openingLines <= r.nonBlankLines
    ensures r.TotalCommentLines() <= r.totalLines
    ensures var trimmed := TrimAll(lines);
            var t := CommentLineAnalyzer.CountCommentLines(trimmed);
            r.nonBlankLines == Count(trimmed, IsNonBlank) && r.braceLines == Count(trimmed, IsBraceLine)
            && r.openingLines == Count(TakeWhile(trimmed, IsOpeningRunLine), IsRawStartingLine)
            && r.initCommentLines == t.lineComments && r.multiLineCommentLines == t.multiLineComments
            && r.comments == t.comments
  {
    var trimmed := TrimAll(lines);
    var opening := TakeWhile(trimmed, IsOpeningRunLine);
    var openingLines := Count(opening, IsRawStartingLine);
    var nonBlank := Count(trimmed, IsNonBlank);
    var braces := Count(trimmed, IsBraceLine);
    var tally := CommentLineAnalyzer.CountCommentLines(trimmed);
    CountMonotone(trimmed, IsBraceLine, IsNonBlank);
    OpeningWithinNonBlank(trimmed, opening);
    Report(|lines|, nonBlank, braces, openingLines,
           tally.lineComments, tally.multiLineComments, tally.comments)
  }

  lemma OpeningWithinNonBlank(trimmed: seq<string>, opening: seq<string>)
    requires |opening| <= |trimmed| && opening == trimmed[..|opening|]
    ensures Count(opening, IsRawStartingLine) <= Count(trimmed, IsNonBlank)
  {
    assert trimmed == opening + trimmed[|opening|..];
    CountAppend(opening, trimmed[|opening|..], IsRawStartingLine);
    forall k | 0 <= k < |trimmed| && IsRawStartingLine(trimmed[k])
      ensures IsNonBlank(trimmed[k])
    {
    }
    CountMonotone(trimmed, IsRawStartingLine, IsNonBlank);
  }

  /** Opening lines are counted only in the file's opening run: once a line that is neither
      blank nor a `using`/`namespace` line occurs, later `using` lines are not counted. */
  lemma OpeningLinesStopAtCode(head: seq<string>, code: string, tail: seq<string>)
    requires !IsOpeningRunLine(Trim(code))
    ensures NewReport(head + [code] + tail).openingLines == NewReport(head + [code]).openingLines
  {
    var a := TrimAll(head + [code] + tail);
    assert a[..|head| + 1] == TrimAll(head + [code]);
    assert !IsOpeningRunLine(a[|head|]);
    TakeWhileStops(a, IsOpeningRunLine, |head|);
  }

  /** A file without `/` has no comment lines, so nothing is recorded as a comment. */
  lemma NoSlashNoCommentLines(lines: seq<string>)
    requires forall k :: 0 <= k < |lines| ==> '/' !in lines[k]
    ensures NewReport(lines).TotalCommentLines() == 0 && NewReport(lines).comments == []
  {
    var trimmed := TrimAll(lines);
    forall k | 0 <= k < |trimmed| ensures '/' !in trimmed[k] {
      TrimKeepsOut(lines[k], '/');
    }
    CommentLineAnalyzer.NoSlashNoComments(trimmed);
  }

  /** Trimming adds no character. */
  lemma TrimKeepsOut(s: string, c: char)
    requires c !in s
    ensures c !in Trim(s)
  {
  }

  /** Non-blank lines that hold no `/`, no lone brace and no `using`/`namespace` prefix are
      all code lines. */
  lemma PlainLinesAreCode(lines: seq<string>)
    requires forall k :: 0 <= k < |lines| ==>
               var t := Trim(lines[k]); t != "" && '/' !in t && !IsBraceLine(t) && !IsRawStartingLine(t)
    ensures NewReport(lines).CodeLines() == |lines|
  {
    var trimmed := TrimAll(lines);
    CommentLineAnalyzer.NoSlashNoComments(trimmed);
    CountAll(trimmed, IsNonBlank);
    CountNone(trimmed, IsBraceLine);
    var opening := TakeWhile(trimmed, IsOpeningRunLine);
    CountNone(opening, IsRawStartingLine);
  }

  lemma {:induction false} CountAll<T>(s: seq<T>, p: T -> bool)
    requires forall k :: 0 <= k < |s| ==> p(s[k])
    ensures Count(s, p) == |s|
    decreases |s|
  {
    if |s| > 0 {
      CountAll(s[1..], p);
    }
  }

  lemma {:induction false} CountNone<T>(s: seq<T>, p: T -> bool)
    requires forall k :: 0 <= k < |s| ==> !p(s[k])
    ensures Count(s, p) == 0
    decreases |s|
  {
    if |s| > 0 {
      CountNone(s[1..], p);
    }
  }

  /** An opener line, one more line and a closer line are three block-comment lines. */
  lemma BlockCommentTally(lines: seq<string>)
    requires |lines| == 3 && lines[0] == "/*" && lines[1] == "{" && lines[2] == "*/"
    ensures var t := CommentLineAnalyzer.CountCommentLines(lines);
            t.lineComments == 0 && t.multiLineComments == 3
  {
    LineParser.LeadingMarkers(lines[0]);
    var u0 := CommentLineAnalyzer.UpdateCommentLineCount(lines[0], false);
    assert u0.status && u0.kind.BlockComment? by {
      assert !EndsWith(lines[0], "*/");
    }
    var u1 := CommentLineAnalyzer.UpdateCommentLineCount(lines[1], true);
    assert u1.status && u1.kind.BlockComment? by {
      assert !EndsWith(lines[1], "*/");
    }
    var t2 := CommentLineAnalyzer.CountFrom(lines[2..], true);
    assert t2.lineComments == 0 && t2.multiLineComments == 1 by {
      assert lines[2..][0] == lines[2] && lines[2..][1..] == [];
    }
    var t1 := CommentLineAnalyzer.CountFrom(lines[1..], true);
    assert t1.lineComments == 0 && t1.multiLineComments == 2 by {
      assert lines[1..][0] == lines[1] && lines[1..][1..] == lines[2..];
    }
  }

  /** A brace line inside a block comment is subtracted both as a comment and as a brace
      line, so the code-line count can be negative. */
  lemma CodeLinesCanBeNegative(lines: seq<string>)
    requires |lines| == 3 && lines[0] == "/*" && lines[1] == "{" && lines[2] == "*/"
    ensures NewReport(lines).CodeLines() == -1
  {
    CommentedBraceTrimmed(lines);
    assert TakeWhile(lines, IsOpeningRunLine) == [] by {
      assert !IsOpeningRunLine(lines[0]);
    }
    CountAll(lines, IsNonBlank);
    CommentedBraceCounted(lines);
    BlockCommentTally(lines);
  }

  /** Trimming leaves the three lines of a commented-out brace as they are. */
  lemma CommentedBraceTrimmed(lines: seq<string>)
    requires |lines| == 3 && lines[0] == "/*" && lines[1] == "{" && lines[2] == "*/"
    ensures TrimAll(lines) == lines
  {
    TrimUntouched("/*");
    TrimUntouched("{");
    TrimUntouched("*/");
    var t := TrimAll(lines);
    assert t[0] == lines[0] && t[1] == lines[1] && t[2] == lines[2];
  }

  /** Of the three lines of a commented-out brace, one is a brace line. */
  lemma CommentedBraceCounted(lines: seq<string>)
    requires |lines| == 3 && lines[0] == "/*" && lines[1] == "{" && lines[2] == "*/"
    ensures Count(lines, IsBraceLine) == 1
  {
    assert lines == [lines[0]] + [lines[1]] + [lines[2]];
    CountAppend([lines[0]] + [lines[1]], [lines[2]], IsBraceLine);
    CountAppend([lines[0]], [lines[1]], IsBraceLine);
  }
}
