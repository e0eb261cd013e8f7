/** `ParameterParser`: splits the text after a method's `(` at the commas that are not
    nested inside `<…>` or `(…)`. */
module ParameterParser {
  import opened Text

  /** `UpdateDepth`: `<` and `(` open a nesting level, `>` and `)` close one. */
  function UpdateDepth(depth: int, ch: char): (d: int)
    ensures ch == '<' || ch == '(' ==> d == depth + 1
    ensures ch == '>' || ch == ')' ==> d == depth - 1
    ensures ch != '<' && ch != '(' && ch != '>' && ch != ')' ==> d == depth
  {
    var d := if ch == '<' || ch == '(' then depth + 1 else depth;
    if ch == '>' || ch == ')' then d - 1 else d
  }

  /** The nesting depth after the first `n` characters of `v`. */
  function PrefixDepth(v: string, n: nat): int
    requires n <= |v|
  {
    if n == 0 then 0 else UpdateDepth(PrefixDepth(v, n - 1), v[n - 1])
  }

  /** The commas at or after `i` that split: at depth 0, before the depth first reaches -1. */
  function SplittingCommas(v: string, i: nat): nat
    requires i <= |v|
    decreases |v| - i
  {
    if i == |v| || PrefixDepth(v, i + 1) == -1 then 0
    else (if v[i] == ',' && PrefixDepth(v, i + 1) == 0 then 1 else 0) + SplittingCommas(v, i + 1)
  }

  /** The first position at or after `i` where the depth reaches -1, or `|v|`. */
  function StopIndex(v: string, i: nat): (s: nat)
    requires i <= |v|
    ensures i <= s <= |v|
    decreases |v| - i
  {
    if i == |v| || PrefixDepth(v, i + 1) == -1 then i else StopIndex(v, i + 1)
  }

  /** The pieces of `acc`, each followed by `sep`. */
  function Terminated(acc: seq<string>, sep: char): string {
    if |acc| == 0 then "" else acc[0] + [sep] + Terminated(acc[1..], sep)
  }

  lemma {:induction false} TerminatedSnoc(acc: seq<string>, x: string, sep: char)
    ensures Terminated(acc + [x], sep) == Terminated(acc, sep) + x + [sep]
    decreases |acc|
  {
    if |acc| > 0 {
      assert (acc + [x])[1..] == acc[1..] + [x];
      TerminatedSnoc(acc[1..], x, sep);
    } else {
      assert acc + [x] == [x];
    }
  }

  lemma {:induction false} JoinTerminated(acc: seq<string>, x: string, sep: char)
    ensures Join(acc + [x], sep) == Terminated(acc, sep) + x
    decreases |acc|
  {
    if |acc| > 0 {
      assert (acc + [x])[1..] == acc[1..] + [x];
      JoinTerminated(acc[1..], x, sep);
    } else {
      assert acc + [x] == [x];
    }
  }

  /** The depth has not reached -1 within the first `n` characters. */
  predicate NotStopped(v: string, n: nat)
    requires n <= |v|
  {
    forall m :: 0 < m <= n ==> PrefixDepth(v, m) != -1
  }

  /** Position `j` holds a comma that splits: at depth 0, before the depth reaches -1. */
  predicate IsCut(v: string, j: int) {
    0 <= j < |v| && v[j] == ',' && PrefixDepth(v, j + 1) == 0 && NotStopped(v, j + 1)
  }

  /** The position of the comma after piece `k` when the pieces are joined with commas. */
  function CutAt(r: seq<string>, k: nat): int
    requires k < |r|
  {
    |Terminated(r[..k + 1], ',')| - 1
  }

  /** The loop of `GetParameters` from position `i`, with the pieces cut so far in `acc`
      and the current piece starting at `start`. The pieces cut so far end exactly at the
      splitting commas before `i`. */
  function Collect(v: string, i: nat, depth: int, start: nat, acc: seq<string>): (r: seq<string>)
    requires start <= i <= |v|
    requires depth == PrefixDepth(v, i) && NotStopped(v, i)
    requires Terminated(acc, ',') == v[..start]
    requires forall k :: 0 <= k < |acc| ==> IsCut(v, CutAt(acc, k))
    requires forall j :: 0 <= j < i && IsCut(v, j) ==> exists k :: 0 <= k < |acc| && j == CutAt(acc, k)
    ensures |r| >= 1 && Join(r, ',') == v
    ensures |r| == |acc| + 1 + SplittingCommas(v, i)
    ensures |v| - |r[|r| - 1]| <= StopIndex(v, i)
    ensures forall k :: 0 <= k < |r| - 1 ==> IsCut(v, CutAt(r, k))
    ensures forall j :: IsCut(v, j) ==> exists k :: 0 <= k < |r| - 1 && j == CutAt(r, k)
    decreases |v| - i
  {
    if i == |v| then
      Finish(v, i, start, acc)
    else
      var ch := v[i];
      var d := UpdateDepth(depth, ch);
      assert d == PrefixDepth(v, i + 1);
      if d == -1 then
        assert StopIndex(v, i) == i;
        Finish(v, i, start, acc)
      else
        assert StopIndex(v, i) == StopIndex(v, i + 1);
        assert NotStopped(v, i + 1);
        if ch == ',' && d == 0 then
          CutStep(v, i, start, acc);
          Collect(v, i + 1, d, i + 1, acc + [v[start..i]])
        else
          assert !IsCut(v, i);
          Collect(v, i + 1, d, start, acc)
  }

  /** The pieces so far, each with its comma, are the input up to the comma at `i`. */
  lemma TerminatedCut(v: string, i: nat, start: nat, acc: seq<string>)
    requires start <= i < |v| && v[i] == ','
    requires Terminated(acc, ',') == v[..start]
    ensures Terminated(acc + [v[start..i]], ',') == v[..i + 1]
  {
    TerminatedSnoc(acc, v[start..i], ',');
    assert v[..i + 1] == v[..start] + v[start..i] + [','] by {
      assert v[..i + 1] == v[..i] + [v[i]];
      assert v[..i] == v[..start] + v[start..i];
    }
  }

  /** Cutting at the splitting comma at `i` keeps the pieces ending exactly at the
      splitting commas, now up to and including `i`. */
  lemma CutStep(v: string, i: nat, start: nat, acc: seq<string>)
    requires start <= i < |v| && NotStopped(v, i + 1)
    requires v[i] == ',' && PrefixDepth(v, i + 1) == 0
    requires Terminated(acc, ',') == v[..start]
    requires forall k :: 0 <= k < |acc| ==> IsCut(v, CutAt(acc, k))
    requires forall j :: 0 <= j < i && IsCut(v, j) ==> exists k :: 0 <= k < |acc| && j == CutAt(acc, k)
    ensures Terminated(acc + [v[start..i]], ',') == v[..i + 1]
    ensures forall k :: 0 <= k < |acc| + 1 ==> IsCut(v, CutAt(acc + [v[start..i]], k))
    ensures forall j :: 0 <= j < i + 1 && IsCut(v, j) ==>
              exists k :: 0 <= k < |acc| + 1 && j == CutAt(acc + [v[start..i]], k)
  {
    var acc' := acc + [v[start..i]];
    TerminatedCut(v, i, start, acc);
    assert acc'[..|acc|] == acc;
    CutsKept(v, i, acc, acc');
    assert IsCut(v, i);
    CutsStayCuts(v, i, acc, acc');
    CutsCovered(v, i, acc, acc');
  }

  /** Appending a piece keeps the earlier cut positions, and puts the new one at `i`. */
  lemma CutsKept(v: string, i: nat, acc: seq<string>, acc': seq<string>)
    requires |acc'| == |acc| + 1 && acc'[..|acc|] == acc && |Terminated(acc', ',')| == i + 1
    ensures CutAt(acc', |acc|) == i
    ensures forall k :: 0 <= k < |acc| ==> CutAt(acc', k) == CutAt(acc, k)
  {
    assert acc'[..|acc| + 1] == acc';
    forall k | 0 <= k < |acc| ensures CutAt(acc', k) == CutAt(acc, k) {
      assert acc'[..k + 1] == acc[..k + 1];
    }
  }

  /** Appending the piece that ends at the splitting comma `i` keeps every cut a cut. */
  lemma CutsStayCuts(v: string, i: nat, acc: seq<string>, acc': seq<string>)
    requires |acc'| == |acc| + 1 && CutAt(acc', |acc|) == i && IsCut(v, i)
    requires forall k :: 0 <= k < |acc| ==> CutAt(acc', k) == CutAt(acc, k)
    requires forall k :: 0 <= k < |acc| ==> IsCut(v, CutAt(acc, k))
    ensures forall k :: 0 <= k < |acc'| ==> IsCut(v, CutAt(acc', k))
  {
    forall k | 0 <= k < |acc'| ensures IsCut(v, CutAt(acc', k)) {
      if k < |acc| {
        assert CutAt(acc', k) == CutAt(acc, k);
      }
    }
  }

  /** Every splitting comma up to `i` is the end of a piece of `acc'`. */
  lemma CutsCovered(v: string, i: nat, acc: seq<string>, acc': seq<string>)
    requires |acc'| == |acc| + 1 && CutAt(acc', |acc|) == i
    requires forall k :: 0 <= k < |acc| ==> CutAt(acc', k) == CutAt(acc, k)
    requires forall j :: 0 <= j < i && IsCut(v, j) ==> exists k :: 0 <= k < |acc| && j == CutAt(acc, k)
    ensures forall j :: 0 <= j < i + 1 && IsCut(v, j) ==> exists k :: 0 <= k < |acc'| && j == CutAt(acc', k)
  {
    forall j | 0 <= j < i + 1 && IsCut(v, j)
      ensures exists k :: 0 <= k < |acc'| && j == CutAt(acc', k)
    {
      if j < i {
        var k :| 0 <= k < |acc| && j == CutAt(acc, k);
        assert CutAt(acc', k) == j;
      }
    }
  }

  /** The last piece, from `start` to the end: no splitting comma lies at or after `i`. */
  function Finish(v: string, i: nat, start: nat, acc: seq<string>): (r: seq<string>)
    requires start <= i <= |v| && NotStopped(v, i)
    requires i == |v| || PrefixDepth(v, i + 1) == -1
    requires Terminated(acc, ',') == v[..start]
    requires forall k :: 0 <= k < |acc| ==> IsCut(v, CutAt(acc, k))
    requires forall j :: 0 <= j < i && IsCut(v, j) ==> exists k :: 0 <= k < |acc| && j == CutAt(acc, k)
    ensures r == acc + [v[start..]] && Join(r, ',') == v
    ensures forall k :: 0 <= k < |r| - 1 ==> IsCut(v, CutAt(r, k))
    ensures forall j :: IsCut(v, j) ==> exists k :: 0 <= k < |r| - 1 && j == CutAt(r, k)
  {
    JoinTerminated(acc, v[start..], ',');
    var r := acc + [v[start..]];
    forall k | 0 <= k < |acc| ensures CutAt(r, k) == CutAt(acc, k) {
      assert r[..k + 1] == acc[..k + 1];
    }
    forall j | IsCut(v, j) ensures exists k :: 0 <= k < |r| - 1 && j == CutAt(r, k) {
      assert j < i by {
        if i < |v| {
          assert PrefixDepth(v, i + 1) == -1;
        }
      }
      var k :| 0 <= k < |acc| && j == CutAt(acc, k);
      assert CutAt(r, k) == j;
    }
    r
  }

  /** `GetParameters`: joining the pieces with commas gives back the input, and the commas
      between the pieces are exactly the splitting commas: those at depth 0 before the depth
      first reaches -1. Hence there is one piece more than there are splitting commas, and
      once the depth reaches -1 the rest of the input is the final piece. */
  function GetParameters(v: string): (r: seq<string>)
    ensures |r| >= 1
    ensures Join(r, ',') == v
    ensures |r| == 1 + SplittingCommas(v, 0)
    ensures |v| - |r[|r| - 1]| <= StopIndex(v, 0)
    ensures forall k :: 0 <= k < |r| - 1 ==> IsCut(v, CutAt(r, k))
    ensures forall j :: IsCut(v, j) ==> exists k :: 0 <= k < |r| - 1 && j == CutAt(r, k)
  {
    Collect(v, 0, 0, 0, [])
  }

  /** A character that neither nests nor splits. */
  predicate Neutral(c: char) {
    c != '<' && c != '(' && c != '>' && c != ')' && c != ','
  }

  /** Over a stretch of neutral characters the depth stays where it was. */
  lemma {:induction false} DepthFlat(v: string, lo: nat, hi: nat)
    requires lo <= hi <= |v| && forall m :: lo <= m < hi ==> Neutral(v[m])
    ensures forall m :: lo <= m <= hi ==> PrefixDepth(v, m) == PrefixDepth(v, lo)
    decreases hi - lo
  {
    if lo < hi {
      DepthFlat(v, lo + 1, hi);
    }
  }

  /** The comma after the first piece follows it directly; the one after the second
      piece lies beyond it. */
  lemma CutsIncrease(r: seq<string>)
    requires |r| >= 2
    ensures CutAt(r, 0) == |r[0]|
    ensures |r| >= 3 ==> CutAt(r, 0) < CutAt(r, 1)
  {
    assert r[..1] == [] + [r[0]];
    TerminatedSnoc([], r[0], ',');
    if |r| >= 3 {
      assert r[..2] == r[..1] + [r[1]];
      TerminatedSnoc(r[..1], r[1], ',');
    }
  }

  /** Two pieces whose joint is the comma after the first `n` characters of `v`. */
  lemma {:induction false} JoinedAt(r: seq<string>, v: string, n: nat)
    requires |r| == 2 && Join(r, ',') == v && CutAt(r, 0) == n
    ensures n < |v| && r == [v[..n], v[n + 1..]]
  {
    CutsIncrease(r);
    assert r[1..] == [r[1]];
    assert v == r[0] + [','] + r[1];
    assert v[..n] == r[0];
    assert v[n + 1..] == r[1];
  }

  /** A comma nested inside a generic argument list does not split: text `a<b,c>d` with
      neutral `a`, `b`, `c`, `d` stays one piece. */
  lemma {:induction false} NestedCommaDoesNotSplit(a: string, b: string, c: string, d: string)
    requires forall m :: 0 <= m < |a| ==> Neutral(a[m])
    requires forall m :: 0 <= m < |b| ==> Neutral(b[m])
    requires forall m :: 0 <= m < |c| ==> Neutral(c[m])
    requires forall m :: 0 <= m < |d| ==> Neutral(d[m])
    ensures var v := a + "<" + b + "," + c + ">" + d; GetParameters(v) == [v]
  {
    var v := a + "<" + b + "," + c + ">" + d;
    var comma := |a| + 1 + |b|;
    var close := comma + 1 + |c|;
    assert forall m :: 0 <= m < |a| ==> v[m] == a[m];
    assert forall m :: |a| + 1 <= m < comma ==> v[m] == b[m - |a| - 1];
    assert forall m :: comma + 1 <= m < close ==> v[m] == c[m - comma - 1];
    assert forall m :: close + 1 <= m < |v| ==> v[m] == d[m - close - 1];
    DepthFlat(v, 0, |a|);
    assert v[|a|] == '<' && v[comma] == ',';
    assert PrefixDepth(v, |a|) == 0;
    assert PrefixDepth(v, |a| + 1) == 1;
    DepthFlat(v, |a| + 1, comma);
    assert PrefixDepth(v, comma) == 1;
    assert PrefixDepth(v, comma + 1) == 1;
    forall j | 0 <= j < |v| && v[j] == ',' ensures j == comma {
    }
    var r := GetParameters(v);
    assert !IsCut(v, CutAt(r, 0));
    assert r[0] == Join(r, ',');
  }

  /** A closing parenthesis ends the splitting: text `a,b)c` with neutral `a` and `b` is
      cut at its first comma only, however many commas follow the parenthesis. */
  lemma {:induction false} ClosingParenEndsSplitting(a: string, b: string, c: string)
    requires forall m :: 0 <= m < |a| ==> Neutral(a[m])
    requires forall m :: 0 <= m < |b| ==> Neutral(b[m])
    ensures GetParameters(a + "," + b + ")" + c) == [a, b + ")" + c]
  {
    var v := a + "," + b + ")" + c;
    var n := |a|;
    var close := n + 1 + |b|;
    assert forall m :: 0 <= m < n ==> v[m] == a[m];
    assert forall m :: n + 1 <= m < close ==> v[m] == b[m - n - 1];
    DepthFlat(v, 0, n);
    assert v[n] == ',' && v[close] == ')';
    assert PrefixDepth(v, n) == 0;
    assert PrefixDepth(v, n + 1) == 0;
    DepthFlat(v, n + 1, close);
    assert PrefixDepth(v, close) == 0;
    assert PrefixDepth(v, close + 1) == -1;
    assert IsCut(v, n);
    forall j | IsCut(v, j) ensures j == n {
    }
    var r := GetParameters(v);
    CutsIncrease(r);
    JoinedAt(r, v, n);
    assert v[..n] == a;
    assert v[n + 1..] == b + ")" + c by {
      assert v == a + [','] + (b + ")" + c);
    }
  }
}
