/** `FileCharacteristics`: the brace depth at which method bodies sit, derived from how
    the file declares its namespace. */
module FileCharacteristics {
  import opened Text

  predicate IsNamespaceLine(line: string) { StartsWith(line, "namespace") }

  /** A file-scoped namespace declaration: `namespace X;`. */
  predicate IsFileScopedNamespaceLine(line: string) {
    StartsWith(line, "namespace") && EndsWith(line, ";")
  }

  /** LINQ `Any`, and equally the `foreach` loop that raises a flag on a match. */
  function AnyLine(lines: seq<string>, p: string -> bool): (b: bool)
    ensures b <==> exists k :: 0 <= k < |lines| && p(lines[k])
    decreases |lines|
  {
    if |lines| == 0 then false
    else if p(lines[0]) then true
    else
      var rest := AnyLine(lines[1..], p);
      assert rest ==> exists k :: 1 <= k < |lines| && p(lines[k]) by {
        if rest {
          var k :| 0 <= k < |lines| - 1 && p(lines[1..][k]);
          assert p(lines[k + 1]);
        }
      }
      assert (exists k :: 1 <= k < |lines| && p(lines[k])) ==> rest by {
        if exists k :: 1 <= k < |lines| && p(lines[k]) {
          var k :| 1 <= k < |lines| && p(lines[k]);
          assert p(lines[1..][k - 1]);
        }
      }
      rest
  }

  /** `MethodLevel`: 1 for a file of top-level statements (no namespace line), 2 for a
      file-scoped namespace, 3 for a block-scoped namespace. */
  function MethodLevel(lines: seq<string>): (level: int)
    ensures 1 <= level <= 3
    ensures level == 1 <==> forall k :: 0 <= k < |lines| ==> !IsNamespaceLine(lines[k])
    ensures level == 2 <==> exists k :: 0 <= k < |lines| && IsFileScopedNamespaceLine(lines[k])
    ensures level == 3 <==>
              (exists k :: 0 <= k < |lines| && IsNamespaceLine(lines[k]))
              && forall k :: 0 <= k < |lines| ==> !IsFileScopedNamespaceLine(lines[k])
  {
    var isTopLevelStatement := !AnyLine(lines, IsNamespaceLine);
    if isTopLevelStatement then 1
    else
      var isFileScoped := AnyLine(lines, IsFileScopedNamespaceLine);
      if isFileScoped then 2 else 3
  }

  /** The level does not depend on the order of the lines. */
  lemma MethodLevelIgnoresOrder(a: seq<string>, b: seq<string>)
    requires multiset(a) == multiset(b)
    ensures MethodLevel(a) == MethodLevel(b)
  {
    forall k | 0 <= k < |a|
      ensures exists j :: 0 <= j < |b| && b[j] == a[k]
    {
      assert a[k] in multiset(a);
      assert a[k] in b;
    }
    forall k | 0 <= k < |b|
      ensures exists j :: 0 <= j < |a| && a[j] == b[k]
    {
      assert b[k] in multiset(b);
      assert b[k] in a;
    }
  }
}
