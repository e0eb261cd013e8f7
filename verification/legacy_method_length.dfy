/** The older `MethodLengthAnalyzer` of the console program: it works on the trimmed lines
    of a file, places methods at depth 1 in a file-scoped namespace and at depth 2
    otherwise, and has no whitespace check. The walk is `MethodLength`'s. */
module LegacyMethodLength {
  import opened Results
  import opened Text
  import FileCharacteristics
  import MethodLength

  /** The constructor's flag: some line declares a file-scoped namespace. */
  function IsFileScoped(lines: seq<string>): (b: bool)
    ensures b <==> exists k :: 0 <= k < |lines| && FileCharacteristics.IsFileScopedNamespaceLine(lines[k])
  {
    FileCharacteristics.AnyLine(lines, FileCharacteristics.IsFileScopedNamespaceLine)
  }

  /** `MethodIndentationLevel`. */
  function MethodIndentationLevel(lines: seq<string>): (level: int)
    ensures level == 1 || level == 2
    ensures level == 1 <==> exists k :: 0 <= k < |lines| && FileCharacteristics.IsFileScopedNamespaceLine(lines[k])
  {
    if IsFileScoped(lines) then 1 else 2
  }

  /** `Analyze` on the trimmed lines of a file: too-long methods only, never a whitespace
      warning; a method closing at `MethodIndentationLevel` is reported exactly when
      `MethodLength.TooLongAt` holds of it. */
  function Analyze(filename: string, lines: seq<string>): (r: Result<seq<MethodLength.Warning>>)
    ensures r.Ok? ==> forall k :: 0 <= k < |r.value| ==> r.value[k].TooLong? && r.value[k].filename == filename
    ensures r.Ok? ==> forall k :: 0 <= k < |r.value| ==> MethodLength.MaxMethodLength < r.value[k].size <= |lines|
    ensures r.Err? ==> r.fault != ArgumentNull("startIndex")
    ensures r.Ok? ==> MethodLength.ReportsLongMethods(lines, filename, MethodIndentationLevel(lines), r.value)
  {
    var r := MethodLength.Walk(lines, filename, MethodIndentationLevel(lines), false);
    if r.Ok? then
      TooLongOnly(r.value, lines, filename);
      r
    else r
  }

  /** Without the whitespace check, every plausible warning is a too-long one. */
  lemma TooLongOnly(ws: seq<MethodLength.Warning>, lines: seq<string>, filename: string)
    requires MethodLength.AllPlausible(ws, lines, filename, false)
    ensures forall k :: 0 <= k < |ws| ==> ws[k].TooLong? && ws[k].filename == filename
    ensures forall k :: 0 <= k < |ws| ==> MethodLength.MaxMethodLength < ws[k].size <= |lines|
  {
    forall k | 0 <= k < |ws|
      ensures ws[k].TooLong? && ws[k].filename == filename
      ensures MethodLength.MaxMethodLength < ws[k].size <= |lines|
    {
      assert MethodLength.Plausible(ws[k], lines, filename, false);
    }
  }

  /** Once the file declares a namespace, this level and the newer analyser's level
      (`FileCharacteristics.MethodLevel` less one) agree; without any namespace line the
      newer analyser places methods at depth 0 and this one at depth 2. */
  lemma LevelsAgreeWithNamespace(lines: seq<string>)
    ensures (exists k :: 0 <= k < |lines| && FileCharacteristics.IsNamespaceLine(lines[k])) ==>
              MethodIndentationLevel(lines) == FileCharacteristics.MethodLevel(lines) - 1
    ensures (forall k :: 0 <= k < |lines| ==> !FileCharacteristics.IsNamespaceLine(lines[k])) ==>
              MethodIndentationLevel(lines) == 2 && FileCharacteristics.MethodLevel(lines) - 1 == 0
  {
    if exists k :: 0 <= k < |lines| && FileCharacteristics.IsFileScopedNamespaceLine(lines[k]) {
      var k :| 0 <= k < |lines| && FileCharacteristics.IsFileScopedNamespaceLine(lines[k]);
      assert FileCharacteristics.IsNamespaceLine(lines[k]);
    }
  }
}
