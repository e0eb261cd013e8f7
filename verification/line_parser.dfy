/** `LineParser`: decides whether a single line opens a block comment, that is whether a
    slash-star outside a `"…"` literal comes before any `//`. */
module LineParser {
  import opened Results
  import opened Text

  /** The parser's two flags: inside a `"…"` literal, and escaping the next character. */
  datatype ScanFlags = ScanFlags(inString: bool, inEscape: bool)

  const Fresh := ScanFlags(false, false)

  /** `MultiLineCommentStartsAfter`: a verdict is reached at position `i` when it holds a `/`
      outside a literal and the next character is `/` (false) or `*` (true). */
  function MultiLineCommentStartsAfter(line: string, i: nat, flags: ScanFlags): (r: Option<bool>)
    requires i < |line|
    ensures r.Some? <==> line[i] == '/' && !flags.inString && i + 1 < |line|
                          && (line[i + 1] == '/' || line[i + 1] == '*')
    ensures r.Some? ==> (r.value <==> line[i + 1] == '*')
  {
    if line[i] == '/' && !flags.inString && i + 1 < |line| then
      if line[i + 1] == '/' then Some(false)
      else if line[i + 1] == '*' then Some(true)
      else None
    else None
  }

  /** The flag updates at the end of one iteration of the scanning loop. The escape flag
      toggles on `/` inside a literal, and a `"` that is not escaped toggles the literal. */
  function Advance(flags: ScanFlags, ch: char): (next: ScanFlags)
    ensures !flags.inEscape ==> !next.inEscape
    ensures !flags.inEscape ==> (next.inString <==> (flags.inString != (ch == '"')))
  {
    var escape := if ch == '/' && flags.inString then !flags.inEscape else flags.inEscape;
    if ch == '"' && !escape then ScanFlags(!flags.inString, escape)
    else if flags.inString && escape then ScanFlags(flags.inString, false)
    else ScanFlags(flags.inString, escape)
  }

  /** The scanning loop of `HasActiveMultiLineCommentOpener` from position `i` on. */
  function ScanFrom(line: string, i: nat, flags: ScanFlags): bool
    requires i <= |line|
    decreases |line| - i
  {
    if i == |line| then false
    else match MultiLineCommentStartsAfter(line, i, flags)
      case Some(verdict) => verdict
      case None => ScanFrom(line, i + 1, Advance(flags, line[i]))
  }

  /** `HasActiveMultiLineCommentOpener`: the parser's verdict equals the reference below,
      the first `/` outside a literal that is followed by `/` or `*` decides, and the line
      opens a block comment iff that character is `*`. */
  function HasActiveMultiLineCommentOpener(line: string): (r: bool)
    ensures r <==> OpensBlockComment(line)
  {
    assert line[..0] == "";
    ScanFromMatchesReference(line, 0);
    ScanFrom(line, 0, Fresh)
  }

  // ---------------------------------------------------------------------------------
  // A reference definition: the literal state is the parity of the quotes seen so far.

  /** The number of `"` characters in `s`. */
  function QuoteCount(s: string): nat {
    if |s| == 0 then 0 else QuoteCount(s[..|s| - 1]) + (if s[|s| - 1] == '"' then 1 else 0)
  }

  /** Position `i` decides the line: a `/` preceded by an even number of quotes and
      followed by `/` or `*`. */
  predicate Decides(line: string, i: int) {
    0 <= i && i + 1 < |line| && line[i] == '/' && (line[i + 1] == '/' || line[i + 1] == '*')
    && QuoteCount(line[..i]) % 2 == 0
  }

  /** The first deciding position at or after `i`. */
  function FirstDecider(line: string, i: nat): (r: Option<nat>)
    requires i <= |line|
    ensures r.Some? ==> i <= r.value && Decides(line, r.value)
    ensures r.Some? ==> forall j :: i <= j < r.value ==> !Decides(line, j)
    ensures r.None? ==> forall j :: i <= j ==> !Decides(line, j)
    decreases |line| - i
  {
    if i == |line| then None
    else if Decides(line, i) then Some(i)
    else FirstDecider(line, i + 1)
  }

  /** The reference verdict: the first deciding `/` is followed by `*`. */
  predicate OpensBlockComment(line: string) {
    match FirstDecider(line, 0)
    case Some(k) => line[k + 1] == '*'
    case None => false
  }

  /** The escape flag is clear at the end of every iteration, so every `"` toggles the
      literal state: the flags at position `i` are determined by the quote parity. */
  lemma {:induction false} FlagsAreQuoteParity(line: string, i: nat)
    requires i < |line|
    ensures Advance(ScanFlags(QuoteCount(line[..i]) % 2 == 1, false), line[i])
         == ScanFlags(QuoteCount(line[..i + 1]) % 2 == 1, false)
  {
    assert line[..i + 1][..i] == line[..i];
  }

  lemma {:induction false} ScanFromMatchesReference(line: string, i: nat)
    requires i <= |line|
    ensures ScanFrom(line, i, ScanFlags(QuoteCount(line[..i]) % 2 == 1, false))
        <==> (match FirstDecider(line, i)
              case Some(k) => line[k + 1] == '*'
              case None => false)
    decreases |line| - i
  {
    if i < |line| {
      var flags := ScanFlags(QuoteCount(line[..i]) % 2 == 1, false);
      if MultiLineCommentStartsAfter(line, i, flags).None? {
        FlagsAreQuoteParity(line, i);
        ScanFromMatchesReference(line, i + 1);
      }
    }
  }

  /** A line beginning with slash-star opens a block comment; one beginning with `//` does not. */
  lemma LeadingMarkers(line: string)
    ensures StartsWith(line, "/*") ==> HasActiveMultiLineCommentOpener(line)
    ensures StartsWith(line, "//") ==> !HasActiveMultiLineCommentOpener(line)
  {
  }

  /** A line without any `/` never opens a block comment. */
  lemma NoSlashNoOpener(line: string)
    requires '/' !in line
    ensures !HasActiveMultiLineCommentOpener(line)
  {
  }

  /** A slash-star after an odd number of quotes lies inside a literal: when it holds the
      only `/` of the line, the line does not open a block comment. */
  lemma QuotedOpenerIgnored(pre: string, post: string)
    requires QuoteCount(pre) % 2 == 1 && '/' !in pre && '/' !in post
    ensures !HasActiveMultiLineCommentOpener(pre + "/*" + post)
  {
    var line := pre + "/*" + post;
    forall j | 0 <= j ensures !Decides(line, j) {
      if j < |pre| {
        assert line[j] == pre[j];
      } else if j == |pre| {
        assert line[..j] == pre;
      } else if j + 1 < |line| {
        assert j == |pre| + 1 || line[j] == post[j - |pre| - 2];
      }
    }
  }

  /** A `/` in the last position cannot open a comment, since there is nothing to look at
      after it: appending one never changes the verdict. */
  lemma TrailingSlashIgnored(line: string)
    ensures HasActiveMultiLineCommentOpener(line + "/") == HasActiveMultiLineCommentOpener(line)
  {
    var ext := line + "/";
    forall j | 0 <= j && j + 1 < |line|
      ensures Decides(ext, j) <==> Decides(line, j)
    {
      assert ext[..j] == line[..j];
    }
    var r := FirstDecider(line, 0);
    var q := FirstDecider(ext, 0);
    if r.Some? {
      assert Decides(ext, r.value);
    } else if q.Some? {
      assert q.value + 1 >= |line|;
      assert ext[q.value + 1] == '/';
    }
  }
}
