/** `MrsMalaprop`: warns when a line uses a .NET type name (`String`, `Decimal`, `Char`,
    `Int32`, `Double`) where the C# keyword would do. Only the first occurrence of each
    name in a line is looked at. */
module MrsMalaprop {
  import opened Text
  import opened Results

  /** The type names, in the order they are checked. */
  const Malapropisms: seq<string> := ["String", "Decimal", "Char", "Int32", "Double"]

  /** The character before position `index` does not continue a word or a string. */
  predicate StartBoundary(line: string, index: int) {
    index - 1 < 0 || index - 1 >= |line| || !(IsLetter(line[index - 1]) || line[index - 1] == '"')
  }

  /** The character after the name does not continue a word or a string. */
  predicate EndBoundary(line: string, malaprop: string, index: int) {
    var post := index + |malaprop|;
    post < 0 || post >= |line| || !(IsLetter(line[post]) || line[post] == '"')
  }

  predicate ProperBoundaries(line: string, malaprop: string, index: int) {
    StartBoundary(line, index) && EndBoundary(line, malaprop, index)
  }

  /** `malaprop` first occurs in `line` at `i`. */
  predicate FirstOccurrence(line: string, malaprop: string, i: int) {
    OccursAt(line, malaprop, i) && forall j :: 0 <= j < i ==> !OccursAt(line, malaprop, j)
  }

  function Message(filename: string, malaprop: string): string {
    "In " + filename + " use regular type instead of '" + malaprop + "'"
  }

  /** The inner loop body for one name: a warning exactly when the name's first occurrence
      stands on its own. */
  function NameWarnings(line: string, filename: string, malaprop: string): (w: seq<string>)
    ensures w == [] || w == [Message(filename, malaprop)]
    ensures w != [] <==> exists i :: FirstOccurrence(line, malaprop, i) && ProperBoundaries(line, malaprop, i)
  {
    match IndexOf(line, malaprop)
    case None => []
    case Some(i) =>
      assert FirstOccurrence(line, malaprop, i);
      if ProperBoundaries(line, malaprop, i) then [Message(filename, malaprop)] else []
  }

  /** Different names give different messages for the same file. */
  lemma {:induction false} MessageInjective(filename: string, a: string, b: string)
    requires Message(filename, a) == Message(filename, b)
    ensures a == b
  {
    var pre := "In " + filename + " use regular type instead of '";
    assert Message(filename, a) == pre + a + "'";
    assert Message(filename, b) == pre + b + "'";
    assert |a| == |b|;
    assert a == Message(filename, a)[|pre|..|pre| + |a|];
    assert b == Message(filename, b)[|pre|..|pre| + |b|];
  }

  /** `s` is the warning for one of `names`. */
  predicate IsMessageFor(s: string, filename: string, names: seq<string>) {
    exists n :: n in names && s == Message(filename, n)
  }

  /** A message for one of `names` is the message for `n` only if `n` is among them. */
  lemma MessageForMember(filename: string, names: seq<string>, n: string)
    requires IsMessageFor(Message(filename, n), filename, names)
    ensures n in names
  {
    var n' :| n' in names && Message(filename, n) == Message(filename, n');
    MessageInjective(filename, n, n');
  }

  /** No name occurs twice. */
  predicate Distinct(names: seq<string>) {
    forall i, j :: 0 <= i < j < |names| ==> names[i] != names[j]
  }

  /** The inner loop over `names`, in the order of the names: the message for a name is
      among the warnings iff that name draws a warning on its own, and with distinct names
      it is there at most once. */
  function WarningsFor(line: string, filename: string, names: seq<string>): (w: seq<string>)
    ensures |w| <= |names|
    ensures forall k :: 0 <= k < |w| ==> IsMessageFor(w[k], filename, names)
    ensures forall n :: n in names ==>
              (Message(filename, n) in w <==> NameWarnings(line, filename, n) != [])
    ensures Distinct(names) ==> forall n :: multiset(w)[Message(filename, n)] <= 1
    decreases |names|
  {
    if |names| == 0 then []
    else
      var first := NameWarnings(line, filename, names[0]);
      var rest := WarningsFor(line, filename, names[1..]);
      var w := first + rest;
      assert forall k :: 0 <= k < |w| ==> IsMessageFor(w[k], filename, names) by {
        forall k | 0 <= k < |w|
          ensures IsMessageFor(w[k], filename, names)
        {
          if k < |first| {
            assert w[k] == Message(filename, names[0]) && names[0] in names;
          } else {
            assert w[k] == rest[k - |first|];
            var n :| n in names[1..] && rest[k - |first|] == Message(filename, n);
            assert n in names;
          }
        }
      }
      WarningsForStep(line, filename, names, first, rest);
      w
  }

  /** The message for `n` is in the rest only when `n` is among the rest's names. */
  lemma {:induction false} AbsentFromRest(filename: string, names: seq<string>, rest: seq<string>, n: string)
    requires forall k :: 0 <= k < |rest| ==> IsMessageFor(rest[k], filename, names)
    requires n !in names
    ensures Message(filename, n) !in rest
  {
    if Message(filename, n) in rest {
      var k :| 0 <= k < |rest| && rest[k] == Message(filename, n);
      MessageForMember(filename, names, n);
    }
  }

  /** The inductive step of `WarningsFor`'s membership and multiplicity promises. */
  lemma {:induction false} WarningsForStep(line: string, filename: string, names: seq<string>,
                                           first: seq<string>, rest: seq<string>)
    requires |names| > 0 && first == NameWarnings(line, filename, names[0])
    requires forall k :: 0 <= k < |rest| ==> IsMessageFor(rest[k], filename, names[1..])
    requires forall n :: n in names[1..] ==>
               (Message(filename, n) in rest <==> NameWarnings(line, filename, n) != [])
    requires Distinct(names[1..]) ==> forall n :: multiset(rest)[Message(filename, n)] <= 1
    ensures forall n :: n in names ==>
              (Message(filename, n) in first + rest <==> NameWarnings(line, filename, n) != [])
    ensures Distinct(names) ==> forall n :: multiset(first + rest)[Message(filename, n)] <= 1
  {
    forall n | n in names
      ensures Message(filename, n) in first + rest <==> NameWarnings(line, filename, n) != []
    {
      if n != names[0] {
        assert n in names[1..];
        if Message(filename, n) in first {
          MessageInjective(filename, n, names[0]);
        }
      } else if n !in names[1..] {
        AbsentFromRest(filename, names[1..], rest, n);
      }
    }
    if Distinct(names) {
      assert Distinct(names[1..]) by {
        forall i, j | 0 <= i < j < |names[1..]| ensures names[1..][i] != names[1..][j] {
          assert names[1..][i] == names[i + 1] && names[1..][j] == names[j + 1];
        }
      }
      forall n ensures multiset(first + rest)[Message(filename, n)] <= 1 {
        assert multiset(first + rest) == multiset(first) + multiset(rest);
        if Message(filename, n) in first {
          MessageInjective(filename, n, names[0]);
          assert names[0] !in names[1..] by {
            assert forall j :: 0 <= j < |names[1..]| ==> names[1..][j] == names[j + 1];
          }
          AbsentFromRest(filename, names[1..], rest, n);
        }
      }
    }
  }

  /** The type names are distinct. */
  lemma MalapropismsDistinct()
    ensures Distinct(Malapropisms)
  {
  }

  /** The warnings for one line: the message for a type name is there iff that name's first
      occurrence stands on its own, and then exactly once. */
  function LineWarnings(line: string, filename: string): (w: seq<string>)
    ensures |w| <= |Malapropisms|
    ensures forall k :: 0 <= k < |w| ==> IsMessageFor(w[k], filename, Malapropisms)
    ensures forall n :: n in Malapropisms ==>
              (Message(filename, n) in w <==> NameWarnings(line, filename, n) != [])
    ensures forall n :: multiset(w)[Message(filename, n)] <= 1
  {
    MalapropismsDistinct();
    WarningsFor(line, filename, Malapropisms)
  }

  /** Some line of `lines` draws the warning for `n`. */
  predicate Draws(lines: seq<string>, filename: string, n: string) {
    exists k :: 0 <= k < |lines| && NameWarnings(lines[k], filename, n) != []
  }

  /** `Analyze`: the warnings of every line, line after line. The message for a type name
      is among them iff some line draws it. */
  function Analyze(filename: string, lines: seq<string>): (w: seq<string>)
    ensures |w| <= |Malapropisms| * |lines|
    ensures forall k :: 0 <= k < |w| ==> IsMessageFor(w[k], filename, Malapropisms)
    ensures forall n :: n in Malapropisms ==> (Message(filename, n) in w <==> Draws(lines, filename, n))
    decreases |lines|
  {
    if |lines| == 0 then []
    else
      var head := LineWarnings(lines[0], filename);
      var tail := Analyze(filename, lines[1..]);
      AnalyzeStep(filename, Malapropisms, lines, head, tail);
      head + tail
  }

  /** The inductive step of `Analyze`'s promises, for any list of names. */
  lemma {:induction false} AnalyzeStep(filename: string, names: seq<string>, lines: seq<string>,
                                       head: seq<string>, tail: seq<string>)
    requires |lines| > 0
    requires forall k :: 0 <= k < |head| ==> IsMessageFor(head[k], filename, names)
    requires forall n :: n in names ==>
               (Message(filename, n) in head <==> NameWarnings(lines[0], filename, n) != [])
    requires forall k :: 0 <= k < |tail| ==> IsMessageFor(tail[k], filename, names)
    requires forall n :: n in names ==> (Message(filename, n) in tail <==> Draws(lines[1..], filename, n))
    ensures forall k :: 0 <= k < |head + tail| ==> IsMessageFor((head + tail)[k], filename, names)
    ensures forall n :: n in names ==> (Message(filename, n) in head + tail <==> Draws(lines, filename, n))
  {
    forall k | 0 <= k < |head + tail| ensures IsMessageFor((head + tail)[k], filename, names) {
      if k >= |head| {
        assert (head + tail)[k] == tail[k - |head|];
      }
    }
    forall n | n in names
      ensures Message(filename, n) in head + tail <==> Draws(lines, filename, n)
    {
      if Draws(lines, filename, n) {
        var k :| 0 <= k < |lines| && NameWarnings(lines[k], filename, n) != [];
        if k > 0 {
          assert lines[1..][k - 1] == lines[k];
        }
      }
      if Draws(lines[1..], filename, n) {
        var k :| 0 <= k < |lines[1..]| && NameWarnings(lines[1..][k], filename, n) != [];
        assert lines[k + 1] == lines[1..][k];
      }
    }
  }

  /** The concatenation of `f` over `lines`, line after line. */
  function Concat(f: string -> seq<string>, lines: seq<string>): seq<string>
    decreases |lines|
  {
    if |lines| == 0 then [] else f(lines[0]) + Concat(f, lines[1..])
  }

  /** Concatenating over `a + b` is concatenating over `a`, then over `b`. */
  lemma {:induction false} ConcatAppend(f: string -> seq<string>, a: seq<string>, b: seq<string>)
    ensures Concat(f, a + b) == Concat(f, a) + Concat(f, b)
    decreases |a|
  {
    if |a| > 0 {
      assert (a + b)[0] == a[0] && (a + b)[1..] == a[1..] + b;
      ConcatAppend(f, a[1..], b);
    } else {
      assert a + b == b;
    }
  }

  /** `Analyze` concatenates the warnings of each line. */
  lemma {:induction false} AnalyzeConcat(filename: string, lines: seq<string>)
    ensures Analyze(filename, lines) == Concat(l => LineWarnings(l, filename), lines)
    decreases |lines|
  {
    if |lines| > 0 {
      AnalyzeConcat(filename, lines[1..]);
    }
  }

  /** The lines are examined independently of each other. */
  lemma AnalyzeAppend(filename: string, a: seq<string>, b: seq<string>)
    ensures Analyze(filename, a + b) == Analyze(filename, a) + Analyze(filename, b)
  {
    AnalyzeConcat(filename, a + b);
    AnalyzeConcat(filename, a);
    AnalyzeConcat(filename, b);
    ConcatAppend(l => LineWarnings(l, filename), a, b);
  }

  /** A name whose first occurrence runs on into a letter is not reported, however it is
      used later in the line: `StringBuilder b = String.Empty;` draws no warning. */
  lemma FirstOccurrenceDecides(malaprop: string, filename: string, c: char, rest: string)
    requires |malaprop| > 0 && IsLetter(c)
    ensures NameWarnings(malaprop + [c] + rest, filename, malaprop) == []
  {
    var line := malaprop + [c] + rest;
    assert OccursAt(line, malaprop, 0) by {
      assert line[0..|malaprop|] == malaprop;
    }
    assert FirstOccurrence(line, malaprop, 0);
    assert !EndBoundary(line, malaprop, 0);
  }

  /** Names that start with a capital letter never occur in a line without capitals. */
  lemma {:induction false} CapitalisedNamesAbsent(line: string, filename: string, names: seq<string>)
    requires forall k :: 0 <= k < |line| ==> !IsUpper(line[k])
    requires forall k :: 0 <= k < |names| ==> |names[k]| > 0 && IsUpper(names[k][0])
    ensures WarningsFor(line, filename, names) == []
    decreases |names|
  {
    if |names| > 0 {
      var n := names[0];
      forall i | 0 <= i && i + |n| <= |line|
        ensures !OccursAt(line, n, i)
      {
        assert line[i..i + |n|][0] == line[i];
      }
      assert NameWarnings(line, filename, n) == [];
      CapitalisedNamesAbsent(line, filename, names[1..]);
    }
  }

  /** Every type name starts with a capital letter, so a line without one is never
      reported. */
  lemma NoCapitalNoWarning(line: string, filename: string)
    requires forall k :: 0 <= k < |line| ==> !IsUpper(line[k])
    ensures LineWarnings(line, filename) == []
  {
    CapitalisedNamesAbsent(line, filename, Malapropisms);
  }
}
