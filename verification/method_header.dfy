/** The "capital letter before `(`" heuristic: `CapitalData`, `MethodHeaderAnalyzer.IsMethod`
    and the `GetMethodName` of both method-length analysers. The same flag automaton is
    copied into `IdentifierAnalyzer` and both `MethodLengthAnalyzer` classes; it is
    defined once here. */
module MethodHeader {
  import opened Results
  import opened Text

  /** The flag "an uppercase letter has been seen since the last space" and where the
      current run of such letters started. */
  datatype CapitalData = CapitalData(capitalUsed: bool, lastCapitalIndex: nat)

  const NoCapital := CapitalData(false, 0)

  /** `CapitalData.Update`: a space clears the flag; an uppercase letter seen while the flag
      is clear sets it and records its index. */
  function Update(d: CapitalData, i: nat, ch: char): (d': CapitalData)
    ensures ch == ' ' ==> !d'.capitalUsed
    ensures IsUpper(ch) && !d.capitalUsed ==> d' == CapitalData(true, i)
    ensures !(IsUpper(ch) && !d.capitalUsed) ==> d'.lastCapitalIndex == d.lastCapitalIndex
    ensures ch != ' ' && !IsUpper(ch) ==> d' == d
  {
    var used := if ch == ' ' then false else d.capitalUsed;
    if IsUpper(ch) && !used then CapitalData(true, i) else d.(capitalUsed := used)
  }

  /** The capital data after the first `n` characters of `line`. When the flag is set,
      the recorded index holds an uppercase letter with no space from it on; when it is
      clear, every uppercase letter read so far is followed by a space. */
  function CapitalAfter(line: string, n: nat): (d: CapitalData)
    requires n <= |line|
    ensures d.capitalUsed ==>
              d.lastCapitalIndex < n && IsUpper(line[d.lastCapitalIndex])
              && ' ' !in line[d.lastCapitalIndex..n]
    ensures !d.capitalUsed ==>
              forall k :: 0 <= k < n && IsUpper(line[k]) ==> ' ' in line[k + 1..n]
    ensures d.capitalUsed ==>
              forall j :: 0 <= j < d.lastCapitalIndex && ' ' !in line[j..d.lastCapitalIndex]
                ==> !IsUpper(line[j])
  {
    if n == 0 then NoCapital
    else
      var prev := CapitalAfter(line, n - 1);
      var d := Update(prev, n - 1, line[n - 1]);
      RunStep(line, n, prev, d);
      FirstCapitalStep(line, n, prev, d);
      ClearStep(line, n, prev, d);
      d
  }

  /** Reading character `n - 1`: a recorded capital stays followed by no space. */
  lemma RunStep(line: string, n: nat, prev: CapitalData, d: CapitalData)
    requires 0 < n <= |line| && d == Update(prev, n - 1, line[n - 1])
    requires prev.capitalUsed ==>
               prev.lastCapitalIndex < n - 1 && IsUpper(line[prev.lastCapitalIndex])
               && ' ' !in line[prev.lastCapitalIndex..n - 1]
    ensures d.capitalUsed ==>
              d.lastCapitalIndex < n && IsUpper(line[d.lastCapitalIndex])
              && ' ' !in line[d.lastCapitalIndex..n]
  {
    if d.capitalUsed && prev.capitalUsed {
      assert line[prev.lastCapitalIndex..n] == line[prev.lastCapitalIndex..n - 1] + [line[n - 1]];
    }
  }

  /** Reading character `n - 1`: the recorded capital is the first of its run. */
  lemma FirstCapitalStep(line: string, n: nat, prev: CapitalData, d: CapitalData)
    requires 0 < n <= |line| && d == Update(prev, n - 1, line[n - 1])
    requires !prev.capitalUsed ==> forall k :: 0 <= k < n - 1 && IsUpper(line[k]) ==> ' ' in line[k + 1..n - 1]
    requires prev.capitalUsed ==>
               prev.lastCapitalIndex < n - 1
               && forall j :: 0 <= j < prev.lastCapitalIndex && ' ' !in line[j..prev.lastCapitalIndex]
                    ==> !IsUpper(line[j])
    ensures d.capitalUsed ==>
              d.lastCapitalIndex < n
              && forall j :: 0 <= j < d.lastCapitalIndex && ' ' !in line[j..d.lastCapitalIndex]
                   ==> !IsUpper(line[j])
  {
    if d.capitalUsed && !prev.capitalUsed {
      forall j | 0 <= j < d.lastCapitalIndex && IsUpper(line[j])
        ensures ' ' in line[j..d.lastCapitalIndex]
      {
        assert line[j + 1..n - 1] == line[j..d.lastCapitalIndex][1..];
      }
    }
  }

  /** Reading character `n - 1`: with the flag clear, every capital is followed by a
      space. */
  lemma ClearStep(line: string, n: nat, prev: CapitalData, d: CapitalData)
    requires 0 < n <= |line| && d == Update(prev, n - 1, line[n - 1])
    requires !prev.capitalUsed ==> forall k :: 0 <= k < n - 1 && IsUpper(line[k]) ==> ' ' in line[k + 1..n - 1]
    ensures !d.capitalUsed ==> forall k :: 0 <= k < n && IsUpper(line[k]) ==> ' ' in line[k + 1..n]
  {
    if !d.capitalUsed {
      forall k | 0 <= k < n && IsUpper(line[k])
        ensures ' ' in line[k + 1..n]
      {
        if line[n - 1] == ' ' {
          assert line[k + 1..n][n - 2 - k] == ' ';
        } else {
          assert line[k + 1..n] == line[k + 1..n - 1] + [line[n - 1]];
        }
      }
    }
  }

  /** An uppercase letter with no space between it and position `n` sets the flag. */
  lemma CapitalRunSetsFlag(line: string, k: nat, n: nat)
    requires k < n <= |line| && IsUpper(line[k]) && ' ' !in line[k + 1..n]
    ensures CapitalAfter(line, n).capitalUsed
  {
  }

  /** A `(` read while the flag is set: position `i` qualifies once `line[i]` is read. */
  predicate FlaggedParen(line: string, i: nat)
    requires i < |line|
  {
    line[i] == '(' && CapitalAfter(line, i + 1).capitalUsed
  }

  /** The scanning loop shared by the heuristics: the first flagged `(` at or after `i`.
      With `stopAtAssignment`, a `=` or `[` ends the scan without a result (against
      field initialisers and annotations). */
  function ParenFrom(line: string, i: nat, stopAtAssignment: bool): (r: Option<nat>)
    requires i <= |line|
    ensures r.Some? ==> i <= r.value < |line| && FlaggedParen(line, r.value)
    ensures r.Some? ==> forall j :: i <= j < r.value ==> !FlaggedParen(line, j)
    ensures r.Some? && stopAtAssignment ==> '=' !in line[i..r.value] && '[' !in line[i..r.value]
    ensures r.None? && !stopAtAssignment ==> forall j :: i <= j < |line| ==> !FlaggedParen(line, j)
    ensures r.None? && stopAtAssignment ==>
              forall j :: i <= j < |line| && FlaggedParen(line, j) ==>
                '=' in line[i..j] || '[' in line[i..j]
    decreases |line| - i
  {
    if i == |line| then None
    else if stopAtAssignment && (line[i] == '=' || line[i] == '[') then
      assert forall j :: i < j < |line| ==> line[i..j][0] == line[i];
      None
    else if FlaggedParen(line, i) then Some(i)
    else
      var r := ParenFrom(line, i + 1, stopAtAssignment);
      assert forall j :: i < j <= |line| ==> line[i..j] == [line[i]] + line[i + 1..j];
      r
  }

  /** The outcome of a method-header test: `(isMethod, position)`. */
  datatype MethodMatch = MethodMatch(isMethod: bool, position: nat)

  /** `MethodHeaderAnalyzer.IsMethod`: the first `(` reached while the flag is set, before
      any `=` or `[`, opens a method header when the text before it is the class name
      (a constructor) or contains a space (a return type precedes the name). */
  function IsMethod(line: string, className: Option<string>): (r: MethodMatch)
    ensures !r.isMethod ==> r.position == 0
    ensures r.isMethod ==> r.position < |line| && line[r.position] == '('
    ensures r.isMethod ==> Some(line[..r.position]) == className || ' ' in line[..r.position]
    ensures r.isMethod ==> '=' !in line[..r.position] && '[' !in line[..r.position]
    ensures r.isMethod ==>
              var d := CapitalAfter(line, r.position + 1);
              d.lastCapitalIndex < r.position && IsUpper(line[d.lastCapitalIndex])
              && ' ' !in line[d.lastCapitalIndex..r.position]
    ensures r.isMethod ==> FlaggedParen(line, r.position)
    ensures r.isMethod ==> forall j :: 0 <= j < r.position ==> !FlaggedParen(line, j)
    ensures (forall k :: 0 <= k < |line| ==> !IsUpper(line[k])) ==> !r.isMethod
    ensures forall p :: 0 <= p < |line| && FlaggedParen(line, p)
              && (forall j :: 0 <= j < p ==> !FlaggedParen(line, j))
              && '=' !in line[..p] && '[' !in line[..p]
              && (Some(line[..p]) == className || ' ' in line[..p])
              ==> r == MethodMatch(true, p)
  {
    match ParenFrom(line, 0, true)
    case None => MethodMatch(false, 0)
    case Some(p) =>
      assert line[0..p] == line[..p];
      var lineSoFar := line[0..p];
      var d := CapitalAfter(line, p + 1);
      assert line[d.lastCapitalIndex..p] <= line[d.lastCapitalIndex..p + 1];
      if Some(lineSoFar) == className || ' ' in lineSoFar then MethodMatch(true, p)
      else MethodMatch(false, 0)
  }

  /** `name` is the method name read at the `(` in position `p`: that `(` is the first one
      read while the flag is set, `name` ends right before it, and `name` starts at the
      first uppercase letter after the last space before it. */
  predicate NameAt(line: string, p: nat, name: string) {
    0 < |name| <= p < |line| && FlaggedParen(line, p)
    && IsUpper(name[0]) && ' ' !in name
    && (forall j :: 0 <= j < p ==> !FlaggedParen(line, j))
    && line[p - |name|..p] == name
    && (forall j :: 0 <= j < p - |name| && ' ' !in line[j..p - |name|] ==> !IsUpper(line[j]))
  }

  /** `GetMethodName` on the declarator line: the run from the last capital up to the
      first `(` read while the flag is set, or "" when there is none. */
  function GetMethodName(line: string): (name: string)
    ensures name != "" ==> IsUpper(name[0]) && ' ' !in name && '(' !in name
    ensures name != "" ==>
              exists p :: |name| <= p < |line| && line[p] == '(' && line[p - |name|..p] == name
    ensures name == "" <==> forall p :: 0 <= p < |line| ==> !FlaggedParen(line, p)
    ensures name != "" ==> exists p :: NameAt(line, p, name)
  {
    match ParenFrom(line, 0, false)
    case None => ""
    case Some(p) =>
      var d := CapitalAfter(line, p + 1);
      NameAtFirstParen(line, p);
      line[d.lastCapitalIndex..p]
  }

  /** At the first flagged `(`, the run from the last capital is a name read there, and
      it holds no `(`. */
  lemma NameAtFirstParen(line: string, p: nat)
    requires p < |line| && FlaggedParen(line, p)
    requires forall j :: 0 <= j < p ==> !FlaggedParen(line, j)
    ensures var d := CapitalAfter(line, p + 1);
      d.lastCapitalIndex < p
      && NameAt(line, p, line[d.lastCapitalIndex..p]) && '(' !in line[d.lastCapitalIndex..p]
  {
    var d := CapitalAfter(line, p + 1);
    var name := line[d.lastCapitalIndex..p];
    assert ' ' !in name by {
      assert name <= line[d.lastCapitalIndex..p + 1];
    }
    assert '(' !in name by {
      forall j | d.lastCapitalIndex <= j < p
        ensures line[j] != '('
      {
        var run := line[d.lastCapitalIndex + 1..j + 1];
        assert forall m :: 0 <= m < |run| ==> run[m] == name[m + 1];
        CapitalRunSetsFlag(line, d.lastCapitalIndex, j + 1);
        assert !FlaggedParen(line, j);
      }
    }
    assert name[0] == line[d.lastCapitalIndex];
  }

  /** The text of a name up to any position inside it holds no space. */
  lemma {:induction false} NameRunHasNoSpace(line: string, p: nat, name: string, c: nat)
    requires NameAt(line, p, name) && c <= p
    ensures p - |name| < c ==> ' ' !in line[p - |name|..c] && IsUpper(line[p - |name|])
  {
    if p - |name| < c {
      assert line[p - |name|..c] <= name;
    }
  }

  /** At most one name satisfies `NameAt`: the `(` is the first flagged one, and the start
      is pinned by the uppercase letter with no space up to the `(`. Hence the non-empty
      name `GetMethodName` returns is the only candidate. */
  lemma {:induction false} NameAtUnique(line: string, p: nat, q: nat, a: string, b: string)
    requires NameAt(line, p, a) && NameAt(line, q, b)
    ensures p == q && a == b
  {
    assert p == q;
    NameRunHasNoSpace(line, p, a, p - |b|);
    NameRunHasNoSpace(line, p, b, p - |a|);
  }
}
