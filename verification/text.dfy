/** The character classes and the ordinal string operations of .NET the analysers rely on.
    Character classes are restricted to ASCII; there is no culture-sensitive behaviour. */
module Text {
  import opened Results

  predicate IsUpper(c: char) { 'A' <= c <= 'Z' }

  predicate IsLower(c: char) { 'a' <= c <= 'z' }

  predicate IsLetter(c: char) { IsUpper(c) || IsLower(c) }

  /** Space, tab, line feed, vertical tab, form feed and carriage return. */
  predicate IsWhiteSpace(c: char) { c == ' ' || '\t' <= c <= '\r' }

  predicate StartsWith(s: string, prefix: string) {
    |prefix| <= |s| && s[..|prefix|] == prefix
  }

  predicate EndsWith(s: string, suffix: string) {
    |suffix| <= |s| && s[|s| - |suffix|..] == suffix
  }

  /** `pattern` occurs in `s` starting at position `i`. */
  predicate OccursAt(s: string, pattern: string, i: int) {
    0 <= i && i + |pattern| <= |s| && s[i..i + |pattern|] == pattern
  }

  /** Ordinal `string.IndexOf(string)`: the first position of `pattern` in `s`, if any. */
  function IndexOf(s: string, pattern: string): (r: Option<nat>)
    ensures r.Some? ==> OccursAt(s, pattern, r.value)
    ensures r.Some? ==> forall j :: 0 <= j < r.value ==> !OccursAt(s, pattern, j)
    ensures r.None? ==> forall j :: !OccursAt(s, pattern, j)
  {
    IndexOfFrom(s, pattern, 0)
  }

  function IndexOfFrom(s: string, pattern: string, k: nat): (r: Option<nat>)
    ensures r.Some? ==> k <= r.value && OccursAt(s, pattern, r.value)
    ensures r.Some? ==> forall j :: k <= j < r.value ==> !OccursAt(s, pattern, j)
    ensures r.None? ==> forall j :: k <= j ==> !OccursAt(s, pattern, j)
    decreases |s| - k
  {
    if k + |pattern| > |s| then None
    else if s[k..k + |pattern|] == pattern then Some(k)
    else IndexOfFrom(s, pattern, k + 1)
  }

  /** `string.Contains(string)`. */
  predicate Contains(s: string, pattern: string) {
    IndexOf(s, pattern).Some?
  }

  /** `List.FindIndex` / `IndexOf` on a sequence: the first index holding `x`, or -1. */
  function FirstIndex<T(==)>(s: seq<T>, x: T): (r: int)
    ensures -1 <= r < |s|
    ensures r == -1 <==> x !in s
    ensures 0 <= r ==> s[r] == x && x !in s[..r]
  {
    if |s| == 0 then -1
    else if s[0] == x then 0
    else
      var r := FirstIndex(s[1..], x);
      if r == -1 then -1
      else
        assert s[..r + 1] == [s[0]] + s[1..][..r];
        r + 1
  }

  /** The pieces joined back together with `sep` between neighbours (`string.Join`). */
  function Join(parts: seq<string>, sep: char): string
    requires |parts| >= 1
  {
    if |parts| == 1 then parts[0] else parts[0] + [sep] + Join(parts[1..], sep)
  }

  /** `string.Split(char)`: every separator cuts, and empty pieces are kept. */
  function Split(s: string, sep: char): (parts: seq<string>)
    ensures |parts| >= 1
    ensures Join(parts, sep) == s
    ensures forall k :: 0 <= k < |parts| ==> sep !in parts[k]
    ensures |parts| == 1 <==> sep !in s
    decreases |s|
  {
    var q := FirstIndex(s, sep);
    if q == -1 then [s]
    else
      var rest := Split(s[q + 1..], sep);
      assert s == s[..q] + [sep] + s[q + 1..];
      [s[..q]] + rest
  }

  /** Splitting at the first separator, for unfolding `Split` on concrete strings. */
  lemma SplitAt(s: string, sep: char, q: nat)
    requires q < |s| && s[q] == sep && sep !in s[..q]
    ensures Split(s, sep) == [s[..q]] + Split(s[q + 1..], sep)
  {
    assert FirstIndex(s, sep) == q;
  }

  /** `Split` is the only way to cut `s` into separator-free pieces that join back to `s`. */
  lemma {:induction false} SplitUnique(s: string, sep: char, parts: seq<string>)
    requires |parts| >= 1 && Join(parts, sep) == s
    requires forall k :: 0 <= k < |parts| ==> sep !in parts[k]
    ensures Split(s, sep) == parts
    decreases |parts|
  {
    if |parts| > 1 {
      var head := parts[0];
      var tail := parts[1..];
      var rest := Join(tail, sep);
      assert sep !in head;
      assert s == head + [sep] + rest;
      var q := |head|;
      assert s[..q] == head && s[q] == sep && s[q + 1..] == rest by {
        assert s == head + ([sep] + rest);
      }
      SplitAt(s, sep, q);
      assert forall k :: 0 <= k < |tail| ==> tail[k] == parts[k + 1];
      SplitUnique(rest, sep, tail);
      assert parts == [head] + tail;
    }
  }

  /** How many leading characters of `s` satisfy `drop`. */
  function LeadingRun(s: string, drop: char -> bool): (n: nat)
    ensures n <= |s|
    ensures forall k :: 0 <= k < n ==> drop(s[k])
    ensures n < |s| ==> !drop(s[n])
  {
    if |s| > 0 && drop(s[0]) then
      var n := LeadingRun(s[1..], drop);
      assert forall k :: 1 <= k < n + 1 ==> s[k] == s[1..][k - 1];
      n + 1
    else 0
  }

  /** How many trailing characters of `s` satisfy `drop`. */
  function TrailingRun(s: string, drop: char -> bool): (n: nat)
    ensures n <= |s|
    ensures forall k :: |s| - n <= k < |s| ==> drop(s[k])
    ensures n < |s| ==> !drop(s[|s| - n - 1])
  {
    if |s| > 0 && drop(s[|s| - 1]) then
      var n := TrailingRun(s[..|s| - 1], drop);
      assert forall k :: |s| - 1 - n <= k < |s| - 1 ==> s[k] == s[..|s| - 1][k];
      n + 1
    else 0
  }

  /** `Trim(chars)`: the characters satisfying `drop` removed at both ends. */
  function TrimBoth(s: string, drop: char -> bool): (r: string)
    ensures |r| > 0 ==> !drop(r[0]) && !drop(r[|r| - 1])
    ensures exists a {:trigger s[a..]} ::
              (0 <= a <= |s| && r <= s[a..]
               && (forall k :: 0 <= k < a ==> drop(s[k]))
               && (forall k :: a + |r| <= k < |s| ==> drop(s[k])))
  {
    var a := LeadingRun(s, drop);
    var t := s[a..];
    var n := TrailingRun(t, drop);
    var r := t[..|t| - n];
    assert forall k :: a + |r| <= k < |s| ==> s[k] == t[k - a];
    r
  }

  /** `string.Trim()`. */
  function Trim(s: string): string {
    TrimBoth(s, IsWhiteSpace)
  }

  /** A string without whitespace at either end is its own trim. */
  lemma TrimUntouched(s: string)
    requires |s| > 0 ==> !IsWhiteSpace(s[0]) && !IsWhiteSpace(s[|s| - 1])
    ensures Trim(s) == s
  {
    assert LeadingRun(s, IsWhiteSpace) == 0;
    assert TrailingRun(s, IsWhiteSpace) == 0;
  }

  /** How many elements satisfy `p` (LINQ `Count(predicate)`). */
  function Count<T>(s: seq<T>, p: T -> bool): (n: nat)
    ensures n <= |s|
  {
    if |s| == 0 then 0 else (if p(s[0]) then 1 else 0) + Count(s[1..], p)
  }

  lemma {:induction false} CountAppend<T>(a: seq<T>, b: seq<T>, p: T -> bool)
    ensures Count(a + b, p) == Count(a, p) + Count(b, p)
    decreases |a|
  {
    if |a| > 0 {
      assert (a + b)[1..] == a[1..] + b;
      CountAppend(a[1..], b, p);
    } else {
      assert a + b == b;
    }
  }

  /** A predicate implied by another counts at least as many elements. */
  lemma {:induction false} CountMonotone<T>(s: seq<T>, p: T -> bool, q: T -> bool)
    requires forall k :: 0 <= k < |s| && p(s[k]) ==> q(s[k])
    ensures Count(s, p) <= Count(s, q)
    decreases |s|
  {
    if |s| > 0 {
      CountMonotone(s[1..], p, q);
    }
  }

  /** LINQ `TakeWhile`: the longest prefix whose elements all satisfy `p`. */
  function TakeWhile<T>(s: seq<T>, p: T -> bool): (r: seq<T>)
    ensures |r| <= |s| && r == s[..|r|]
    ensures forall k :: 0 <= k < |r| ==> p(r[k])
    ensures |r| < |s| ==> !p(s[|r|])
  {
    if |s| > 0 && p(s[0]) then
      var rest := TakeWhile(s[1..], p);
      assert [s[0]] + rest == s[..|rest| + 1];
      [s[0]] + rest
    else []
  }

  /** `TakeWhile` stops at the first element failing `p`: what follows it is never read. */
  lemma {:induction false} TakeWhileStops<T>(s: seq<T>, p: T -> bool, n: nat)
    requires n < |s| && !p(s[n])
    ensures TakeWhile(s, p) == TakeWhile(s[..n + 1], p)
    decreases n
  {
    if n > 0 && p(s[0]) {
      assert s[..n + 1][0] == s[0] && s[..n + 1][1..] == s[1..][..n];
      TakeWhileStops(s[1..], p, n - 1);
    }
  }

  /** Decimal rendering of an integer, as string interpolation prints it. */
  function IntToString(n: int): string
    decreases if n < 0 then 1 - n else n
  {
    if n < 0 then "-" + IntToString(-n)
    else if n < 10 then [DigitChar(n)]
    else IntToString(n / 10) + [DigitChar(n % 10)]
  }

  function DigitChar(d: int): char
    requires 0 <= d < 10
  {
    ['0', '1', '2', '3', '4', '5', '6', '7', '8', '9'][d]
  }
}
