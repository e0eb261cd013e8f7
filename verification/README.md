# CSharpLineCounter in Dafny

A Dafny model of the analysis core of CSharpLineCounter. CSharpLineCounter is a heuristic analyser of C# source files. It has no parser: it works on lists of (trimmed) line strings using character scans, brace counting and a "capital letter before `(`" rule. The model covers:

- **Comment detection.**
  - `LineParser` decides whether a line opens a block comment outside a string literal.
  - `CommentLineAnalyzer` counts line comments and block-comment lines.
  - `CommentLineAnalyzer` skips forward past block-comment lines.
  - `CommentLineAnalyzer` records the coordinates of `"…"` literals.
- **Line metrics.** `LineReport` computes total, non-blank, brace, opening, comment and code lines.
- **File shape.** `FileCharacteristics` gives the brace depth at which methods sit.
- **The method-header heuristic.**
  - `CapitalData`.
  - `MethodHeaderAnalyzer.IsMethod`.
  - the copies of these in `IdentifierAnalyzer` and in both method-length analysers.
  - `GetMethodName`.
- **Identifier checks.** `IdentifierAnalyzer` checks the case of parameter names and local variables. `ParameterParser` splits parameter lists at the commas that are not nested.
- **Method length.** There are two `MethodLengthAnalyzer`s:
  - the current one, which also reports a missing blank line before a method;
  - the older one of the console program.
  They share one brace walk.
- **Type names.** `MrsMalaprop` flags `String`, `Decimal`, `Char`, `Int32` and `Double` where the C# keyword would do.

Everything is modelled as pure functions over `string` and `seq<string>`.

- **Exceptions.** The exceptions the code can raise are values of `Results.Result`: `OutOfRange` for an index out of range, and `ArgumentNull(name)` for the two null-index throws.
- **Warnings.** The global warning list is returned as a sequence instead of being appended to.
- **Brace walks.** Each brace walk is a recursive fold over a small state record.

What the brace walks are proved to do:
- `MethodLength.Walk` equals `MethodLength.Reference`, a definition that reads each line's warnings off the lines alone (`StepWarnings`). From that, a method that closes at the method level is reported as too long exactly when `TooLongAt` holds of it: its name is read from the line after the last recorded blank line, and its size is measured from the matching `{` (`MatchingOpen`). A method-opening `{` draws a whitespace warning exactly when a `}` comes before it with no blank line between.
- The `startIndex` null throw cannot happen in either method-length analyser. The `lastBlankLineIndex` throw can happen: `MethodLength.MissingBlankLineFails` shows it.
- `IdentifierAnalyzer.AnalyzeStep` dispatches each line as the loop does. `IdentifierAnalyzer.MethodLineChecked` shows that a line the walk reaches inside a method is checked, and every warning of that check ends up in the result. `IdentifierAnalyzer.HeaderParametersChecked` shows the same for the parameters of the first method header the walk reaches at class level.
- `MrsMalaprop.Analyze` reports a type name iff some line draws it. `MrsMalaprop.AnalyzeAppend` shows the lines are examined independently.

Files:
- `results.dfy`: `Option`, `Fault`, `Result`.
- `text.dfy`: the .NET string operations used, on ASCII.
- `line_parser.dfy`, `comment_lines.dfy`, `line_report.dfy`, `file_characteristics.dfy`, `method_header.dfy`, `parameter_parser.dfy`, `identifier_analyzer.dfy`, `method_length.dfy`, `legacy_method_length.dfy`, `malaprop.dfy`: one module per analyser.

## Model

| member | source | states |
|---|---|---|
| LineParser.MultiLineCommentStartsAfter | CodeAnalysis/LineParser.cs:25-35 | a verdict exists iff position `i` holds a `/` outside a literal that is followed by `/` or `*`; the verdict is true iff that next character is `*` |
| LineParser.Advance | CodeAnalysis/LineParser.cs:18-20 | starting from a clear escape flag, the flag is clear again afterwards and the literal state flips exactly on `"` |
| LineParser.FlagsAreQuoteParity | CodeAnalysis/LineParser.cs:13-20 | the escape flag is clear after every iteration, so the flags at position `i` are (quote count before `i` is odd, false) |
| LineParser.ScanFromMatchesReference | CodeAnalysis/LineParser.cs:11-23 | the scanning loop agrees with the reference definition built on quote parity |
| LineParser.HasActiveMultiLineCommentOpener | CodeAnalysis/LineParser.cs:10-23 | a line opens a block comment iff its first `/` after an even number of quotes and followed by `/` or `*` is followed by `*`; later text is ignored |
| LineParser.LeadingMarkers | CodeAnalysis/LineParser.cs:28-33 | a line starting with slash-star opens a block comment; one starting with `//` does not |
| LineParser.NoSlashNoOpener | CodeAnalysis/LineParser.cs:13-22 | a line with no `/` never opens a block comment |
| LineParser.QuotedOpenerIgnored | CodeAnalysis/LineParser.cs:18-28 | a slash-star preceded by an odd number of quotes, as the only `/` of the line, does not open a comment |
| LineParser.TrailingSlashIgnored | CodeAnalysis/LineParser.cs:28 | appending a `/` never changes the verdict, as there is no character after it to look at |
| CommentLineAnalyzer.UpdateCommentLineCount | CodeAnalysis/CommentLineAnalyzer.cs:39-56 | the block-comment status persists: afterwards it is on iff it was on or the line opens a block comment, and the line does not end in `*/`; outside a block comment a line is a line comment iff it starts with `//`; block-comment registration iff the status was or became on |
| CommentLineAnalyzer.CountFrom | CodeAnalysis/CommentLineAnalyzer.cs:29-37 | each line is registered at most once, so the two counts add up to at most the number of lines, and one comment line is recorded per registration |
| CommentLineAnalyzer.CountCommentLines | CodeAnalysis/CommentLineAnalyzer.cs:29-37 | on a fresh analyzer, line comments plus block-comment lines never exceed the number of lines |
| CommentLineAnalyzer.CountSplit | CodeAnalysis/CommentLineAnalyzer.cs:29-37 | counting `a + b` is counting `a`, then counting `b` from the status `a` ended in |
| CommentLineAnalyzer.NoSlashNoComments | CodeAnalysis/CommentLineAnalyzer.cs:39-56 | lines without `/` register no comments of either kind |
| CommentLineAnalyzer.FindFrom | CodeAnalysis/CommentLineAnalyzer.cs:19-26 | the do-while loop stops at the first later line that leaves the status false, with every line before it leaving it true; it runs off the list iff there is no such line |
| CommentLineAnalyzer.FindFirstNonCommentLine | CodeAnalysis/CommentLineAnalyzer.cs:17-27 | the returned index lies strictly after `startIndex`, its line leaves the status false and every line between leaves it true; `OutOfRange` iff every later line leaves the status true, and always for a start index below -1 |
| CommentLineAnalyzer.Lex | CodeAnalysis/CommentLineAnalyzer.cs:120-134 | an unescaped `"` toggles the literal state, and only a `\` can leave the escape flag set |
| CommentLineAnalyzer.BackslashRun | CodeAnalysis/CommentLineAnalyzer.cs:133-134 | inside a literal, a run of `k` backslashes flips the escape flag `k` times |
| CommentLineAnalyzer.EscapedQuote | CodeAnalysis/CommentLineAnalyzer.cs:120-134 | inside a literal, a `"` after `k` backslashes closes the literal iff `k` is even |
| CommentLineAnalyzer.ScanLine | CodeAnalysis/CommentLineAnalyzer.cs:117-136 | the inner loop keeps the recorded literals quote-delimited, ordered, disjoint and before the scan position |
| CommentLineAnalyzer.ScanLines | CodeAnalysis/CommentLineAnalyzer.cs:114-137 | the outer loop keeps the same invariant across lines |
| CommentLineAnalyzer.GetCode | CodeAnalysis/CommentLineAnalyzer.cs:106-139 | every recorded pair starts and ends on a `"`, its start comes before its end, and the pairs are in reading order without overlap |
| LineReport.IsRawStartingLine | CodeAnalysis/LineReport.cs:28-29 | a `using` directive or a namespace declaration; `OpeningLinesStopAtCode` and `PlainLinesAreCode` state how it enters the counts |
| LineReport.NewReport | CodeAnalysis/LineReport.cs:31-44 | total lines equals the number of input lines; braces ≤ non-blank ≤ total; opening ≤ non-blank; comment lines ≤ total; each count is taken over the trimmed lines, and the comment counts are those of `CountCommentLines` |
| LineReport.Report.CodeLines | CodeAnalysis/LineReport.cs:15 | never more than the non-blank lines, as only the comment, brace and opening counts are taken away; it can go below zero (`CodeLinesCanBeNegative`) |
| LineReport.NoSlashNoCommentLines | CodeAnalysis/LineReport.cs:13 | `TotalCommentLines` is 0 and no comment is recorded for a file without `/` |
| LineReport.OpeningWithinNonBlank | CodeAnalysis/LineReport.cs:36-39 | the `using`/`namespace` lines of the opening run are among the non-blank lines |
| LineReport.OpeningLinesStopAtCode | CodeAnalysis/LineReport.cs:36-38 | after the first line that is neither blank nor `using`/`namespace`, no further line adds to the opening count |
| LineReport.PlainLinesAreCode | CodeAnalysis/LineReport.cs:13-44 | `CodeLines` counts every line when no line holds a `/`, a lone brace or a `using`/`namespace` prefix |
| LineReport.CodeLinesCanBeNegative | CodeAnalysis/LineReport.cs:13-15 | `CodeLines` subtracts a brace line inside a block comment twice, so for the lines `/*`, `{`, `*/` it is -1 |
| LineReport.BlockCommentTally | CodeAnalysis/CommentLineAnalyzer.cs:39-56 | an opener line, any line and a closer line are three block-comment lines and no line comments: the status stays on until the closing line |
| FileCharacteristics.AnyLine | CodeAnalysis/FileCharacteristics.cs:10-18 | true iff some line satisfies the predicate |
| FileCharacteristics.MethodLevel | CodeAnalysis/FileCharacteristics.cs:7-21 | the level is 1, 2 or 3: 1 iff no line starts with `namespace`, 2 iff some line is a file-scoped namespace, 3 iff namespace lines exist but none is file-scoped |
| FileCharacteristics.MethodLevelIgnoresOrder | CodeAnalysis/FileCharacteristics.cs:10-18 | any permutation of the lines has the same level |
| MethodHeader.Update | CodeAnalysis/MethodHeaderAnalyzer.cs:27-35 | a space clears the flag; an uppercase letter seen while the flag is clear sets it and records its index; nothing else changes the index |
| MethodHeader.CapitalAfter | CodeAnalysis/MethodHeaderAnalyzer.cs:22-35 | when the flag is set, the recorded index holds an uppercase letter with no space after it, and it is the first uppercase letter after the last space before it; when clear, every uppercase letter read is followed by a space |
| MethodHeader.CapitalRunSetsFlag | CodeAnalysis/MethodHeaderAnalyzer.cs:27-35 | an uppercase letter with no later space sets the flag |
| MethodHeader.ParenFrom | CodeAnalysis/MethodHeaderAnalyzer.cs:7-17 | the first `(` read while the flag is set, with no `=` or `[` before it when those stop the scan; none iff no such `(` exists |
| MethodHeader.IsMethod | CodeAnalysis/MethodHeaderAnalyzer.cs:4-19 | `(true, p)` exactly when `p` is the first `(` read while the flag is set, no `=`/`[` comes before it, and the text before it is the class name or contains a space; otherwise `(false, 0)`. A line without capitals is never a method |
| MethodHeader.GetMethodName | CodeAnalysis/MethodLengthAnalyzer.cs:92-117 | the name is empty iff no `(` is read while the flag is set; otherwise `NameAt` holds of it: it ends right before the first flagged `(`, starts uppercase at the first capital after the last space, and holds no space or `(` |
| MethodHeader.NameAtFirstParen | CodeAnalysis/MethodLengthAnalyzer.cs:96-103 | at the first flagged `(`, the text from the recorded capital is a name read there and holds no `(` |
| MethodHeader.NameAtUnique | CodeAnalysis/MethodLengthAnalyzer.cs:92-107 | at most one string satisfies `NameAt` for a line, so `GetMethodName` returns the only candidate |
| ParameterParser.UpdateDepth | CodeAnalysis/IdentifierAnalyzer.cs:159-164 | `<` and `(` open a level, `>` and `)` close one, other characters leave the depth |
| ParameterParser.Collect | CodeAnalysis/IdentifierAnalyzer.cs:143-157 | the loop's pieces joined with `,` give back the input; the comma after every piece but the last is a splitting comma, and every splitting comma ends a piece |
| ParameterParser.GetParameters | CodeAnalysis/IdentifierAnalyzer.cs:143-157 | at least one segment; joining with `,` gives back the input; the cuts are exactly the commas at depth 0 before the depth first reaches -1, so the last segment runs from the last cut to the end |
| ParameterParser.NestedCommaDoesNotSplit | CodeAnalysis/IdentifierAnalyzer.cs:142-157 | in `A<b, c> d` the comma inside `<…>` does not split: the text is one segment |
| ParameterParser.ClosingParenEndsSplitting | CodeAnalysis/IdentifierAnalyzer.cs:148-156 | in `a, b) c, d` the `)` takes the depth to -1, so the remainder, comma included, is the last segment: `a` and ` b) c, d` |
| IdentifierAnalyzer.IsMethod | CodeAnalysis/IdentifierAnalyzer.cs:54-68 | `(true, p)` only at the first flagged `(`, with `line[p] == '('`, the flag set and no `=`/`[` before `p`; otherwise `(false, 0)`, and then every flagged `(` comes after a `=` or `[` |
| IdentifierAnalyzer.IsEndOfMethodHeader | CodeAnalysis/IdentifierAnalyzer.cs:84-86 | a header line that ends with `)`, `=>` or `;`, or holds `//`; `CheckParameters` states what it decides |
| IdentifierAnalyzer.CheckParameter | CodeAnalysis/IdentifierAnalyzer.cs:94-97 | a single-token parameter never warns; an empty name fails; otherwise it warns iff the name does not start lowercase and is not `=>` |
| IdentifierAnalyzer.ArrowIndex | CodeAnalysis/IdentifierAnalyzer.cs:91-93 | the index of the first segment holding `=>`, or the number of segments: no segment before it holds `=>` |
| IdentifierAnalyzer.CheckPieces | CodeAnalysis/IdentifierAnalyzer.cs:91-98 | over the segments before the first `=>`: fails iff one of them has an empty name; otherwise one warning per misnamed segment, a warning for each of them and for nothing else |
| IdentifierAnalyzer.ArrowEndsChecking | CodeAnalysis/IdentifierAnalyzer.cs:91-93 | segments from the first one holding `=>` on are never looked at |
| IdentifierAnalyzer.ParameterCaseChecked | CodeAnalysis/IdentifierAnalyzer.cs:94-97 | a parameter `type name` warns exactly when `name` does not start lowercase |
| IdentifierAnalyzer.CheckParametersPerLine | CodeAnalysis/IdentifierAnalyzer.cs:88-99 | out of range iff the line or the position after `(` does not exist, or a segment before the first one holding `=>` has a space and an empty name; otherwise the warnings report exactly the misnamed segments of `GetParameters` before the first `=>` |
| IdentifierAnalyzer.CheckLoop | CodeAnalysis/IdentifierAnalyzer.cs:70-82 | the do-while loop: on success the index returned is at or after the one tested, within the file, and the warnings only accumulate |
| IdentifierAnalyzer.UnendedHeaderFails | CodeAnalysis/IdentifierAnalyzer.cs:70-82 | since the header line is never re-read, a header line that does not end the header makes the loop run off the list |
| IdentifierAnalyzer.CheckParameters | CodeAnalysis/IdentifierAnalyzer.cs:70-86 | a header line ending in `)`, `=>` or `;`, or holding `//`, is the only line checked: the walk resumes after it, the check fails iff a segment before the first `=>` has an empty name, and otherwise exactly the misnamed segments are reported; any other header line ends in an exception |
| IdentifierAnalyzer.GetPartUntilStringStartIfAny | CodeAnalysis/IdentifierAnalyzer.cs:121-134 | the line length iff there is no `"`; otherwise one less than the first `"`'s index |
| IdentifierAnalyzer.FindTypingErrors | CodeAnalysis/IdentifierAnalyzer.cs:111-119 | nothing when the examined part is shorter than 1; out of range iff the third token is the first `=` and the second token is empty; `[warning for the second token]` iff it is a declaration whose second token does not start lowercase; otherwise no warning |
| IdentifierAnalyzer.FirstIndexIsTwo | CodeAnalysis/IdentifierAnalyzer.cs:116-117 | `FindIndex` returns 2 iff the third token is `=` and the first two are not |
| IdentifierAnalyzer.TypingErrorsIgnoreLiteral | CodeAnalysis/IdentifierAnalyzer.cs:111-134 | only the text before the character preceding the first `"` matters |
| IdentifierAnalyzer.CapitalisedDeclarationReported | CodeAnalysis/IdentifierAnalyzer.cs:111-119 | `type Name = value` with a name not starting lowercase is reported with that name |
| IdentifierAnalyzer.ProcessNonMethodLine | CodeAnalysis/IdentifierAnalyzer.cs:45-52 | skips block-comment lines from `lineIndex` (out of range when all remaining lines are inside one); a line that is not a method header gives no warnings and the walk resumes after it; a header that ends on its line has exactly its misnamed parameters reported, failing iff one before `=>` has an empty name; any other header fails |
| IdentifierAnalyzer.AnalyzeStep | CodeAnalysis/IdentifierAnalyzer.cs:24-31 | a line starting with a brace, or any line at depth 0 or below, only moves the depth; a line at or past the method level gives `FindTypingErrors`' result; a line between gives `ProcessNonMethodLine`'s, and the walk resumes after the line it returns |
| IdentifierAnalyzer.AnalyzeFrom | CodeAnalysis/IdentifierAnalyzer.cs:22-32 | warnings only accumulate |
| IdentifierAnalyzer.ShallowLinesIgnored | CodeAnalysis/IdentifierAnalyzer.cs:27-31 | lines reached at depth 0 or below are never examined, so from such a point without a later `{` line the walk adds no warnings |
| IdentifierAnalyzer.MethodLineChecked | CodeAnalysis/IdentifierAnalyzer.cs:24-31 | when the walk meets no line between class and method level before line `k`, and line `k` lies inside a method, the local-variable check of line `k` succeeds and all its warnings are in the result |
| IdentifierAnalyzer.HeaderParametersChecked | CodeAnalysis/IdentifierAnalyzer.cs:22-52 | when the walk meets no line between class and method level before line `k`, and from line `k` at that level the first code line is a method header that ends on its line, its parameters are checked: none before `=>` lacks a name, and the warning of every misnamed one is in the result |
| IdentifierAnalyzer.Analyze | CodeAnalysis/IdentifierAnalyzer.cs:22-32 | a file with no line starting with `{` never rises above depth 0 and produces no warnings |
| MethodLength.ScanBack | CodeAnalysis/MethodLengthAnalyzer.cs:61-71 | the backward scan finds a `}` iff the nearest blank-or-`}` line above is `}`, and then names the line just below it |
| MethodLength.WhitespaceWarnings | CodeAnalysis/MethodLengthAnalyzer.cs:58-73 | a "No whitespace" warning iff a `}` comes before any blank line above the `{`; it names the line below that `}`, or `Unknown method` |
| MethodLength.FirstCodeLineAfter | CodeAnalysis/MethodLengthAnalyzer.cs:119-126 | the first line after the index that is not inside a block comment; out of range iff there is none |
| MethodLength.GetMethodNameLine | CodeAnalysis/MethodLengthAnalyzer.cs:119-126 | throws `ArgumentNull("lastBlankLineIndex")` when no blank line has been recorded |
| MethodLength.Body | CodeAnalysis/MethodLengthAnalyzer.cs:132-134 | the inclusive span from the start to the end line |
| MethodLength.MethodSize | CodeAnalysis/MethodLengthAnalyzer.cs:135-136 | code lines plus brace lines never exceed the number of lines in the span |
| MethodLength.BracesCount | CodeAnalysis/MethodLengthAnalyzer.cs:135-136 | without comment or opening lines, every non-blank line of the span counts, braces included |
| MethodLength.AnalyzeCode | CodeAnalysis/MethodLengthAnalyzer.cs:128-143 | throws `ArgumentNull("startIndex")` iff there is no start; otherwise a "TOO LONG METHOD" warning iff the span's size exceeds 15 |
| MethodLength.ShortMethodNeverWarns | CodeAnalysis/MethodLengthAnalyzer.cs:133-141 | a span of at most 15 lines is never too long |
| MethodLength.LastMark | CodeAnalysis/MethodLengthAnalyzer.cs:28-51 | the last line before `n` where the walk records a blank line: a blank line at the method level, a `{` reaching it, or a `}` returning to it |
| MethodLength.LastOpen | CodeAnalysis/MethodLengthAnalyzer.cs:48-73 | the last line before `n` holding a `{` that raises the depth from the method level |
| MethodLength.MatchingOpen | CodeAnalysis/MethodLengthAnalyzer.cs:48-84 | above the method level there is a last method-opening `{`, and the depth stays above the level from just after it, so it is the `{` the closing `}` matches |
| MethodLength.CloseMethod | CodeAnalysis/MethodLengthAnalyzer.cs:75-84 | no recorded blank line throws `ArgumentNull("lastBlankLineIndex")`; no code line after it is out of range; an empty method name is not measured; a non-empty one gives `AnalyzeCode`'s result for the span from `methodStart` |
| MethodLength.ClosedMethodReport | CodeAnalysis/MethodLengthAnalyzer.cs:75-84 | `TooLong(name, n)` is among the warnings iff a name is read after the blank line, a start exists and the span from it has `n` > 15 lines |
| MethodLength.MeasureNamed | CodeAnalysis/MethodLengthAnalyzer.cs:80-81 | a method without a name is not measured; otherwise `AnalyzeCode`'s result: at most one too-long warning, carrying the name, for more than 15 lines and no more than the file |
| MethodLength.StepWarnings | CodeAnalysis/MethodLengthAnalyzer.cs:27-84 | a too-long warning comes only from a line closing a method; a whitespace warning only from a method-opening `{` with the check on, as `WhitespaceWarnings` gives it; above level 0 the `startIndex` throw never happens |
| MethodLength.TooLongAtStep | CodeAnalysis/MethodLengthAnalyzer.cs:75-84 | line `i` reports `TooLong(name, n)` iff `TooLongAt` holds: it closes a method, `name` is read after the last recorded blank line, and the span from the matching `{` has `n` > 15 lines |
| MethodLength.Gather | CodeAnalysis/MethodLengthAnalyzer.cs:25-33 | the first failing line ends the loop with that failure; otherwise the warnings are those of every line, and nothing else |
| MethodLength.Step | CodeAnalysis/MethodLengthAnalyzer.cs:27-84 | depth rises on an exact `{` line and falls on a line starting with `}`, nothing else; warnings only accumulate and stay plausible; a line not starting with `}` never throws |
| MethodLength.StepAgrees | CodeAnalysis/MethodLengthAnalyzer.cs:27-84 | a round keeps depth, last blank line and method start equal to their definitions from the lines, and appends exactly the line's `StepWarnings`, failing exactly when they fail |
| MethodLength.WalkFrom | CodeAnalysis/MethodLengthAnalyzer.cs:23-34 | warnings only accumulate, each one plausible |
| MethodLength.WalkFromMatches | CodeAnalysis/MethodLengthAnalyzer.cs:23-34 | the loop from any line ends as `Reference` does over the whole file |
| MethodLength.Walk | CodeAnalysis/MethodLengthAnalyzer.cs:23-34 | equals `Reference`; a method closing at the level is reported iff `TooLongAt` holds; a method-opening `{` draws a whitespace warning iff the check is on and `WhitespaceWarnings` gives one; never the `startIndex` throw |
| MethodLength.Analyze | CodeAnalysis/MethodLengthAnalyzer.cs:14-34 | at method level `MethodLevel - 1` with the whitespace check on: too-long and whitespace warnings exactly as for `Walk`; no `startIndex` throw; a file of at most 15 lines has no too-long method |
| MethodLength.MissingBlankLineFails | CodeAnalysis/MethodLengthAnalyzer.cs:119-122 | a top-level `{`, `}` file throws `ArgumentNull("lastBlankLineIndex")` |
| LegacyMethodLength.IsFileScoped | LineCounter/MethodLengthAnalyzer.cs:19-23 | true iff some line starts with `namespace` and ends with `;` |
| LegacyMethodLength.MethodIndentationLevel | LineCounter/MethodLengthAnalyzer.cs:26 | 1 iff the file has a file-scoped namespace, otherwise 2 |
| LegacyMethodLength.Analyze | LineCounter/MethodLengthAnalyzer.cs:28-69 | only too-long warnings, each for more than 15 lines and no more than the file; a method closing at `MethodIndentationLevel` is reported iff `TooLongAt` holds of it; never the `startIndex` throw |
| LegacyMethodLength.LevelsAgreeWithNamespace | LineCounter/MethodLengthAnalyzer.cs:19-26 | with a namespace line the two analysers use the same method level; without one they differ (2 against 0) |
| MrsMalaprop.StartBoundary | CodeAnalysis/SmallScanners/MrsMalaprop.cs:38-49 | the character before the name, when there is one, is neither a letter nor `"` |
| MrsMalaprop.EndBoundary | CodeAnalysis/SmallScanners/MrsMalaprop.cs:51-62 | the character after the name, when there is one, is neither a letter nor `"` |
| MrsMalaprop.ProperBoundaries | CodeAnalysis/SmallScanners/MrsMalaprop.cs:31-36 | both boundaries hold; `NameWarnings` states its role |
| MrsMalaprop.NameWarnings | CodeAnalysis/SmallScanners/MrsMalaprop.cs:23-62 | at most one warning per name, and one iff the name's first occurrence exists and has proper boundaries on both sides |
| MrsMalaprop.MessageInjective | CodeAnalysis/SmallScanners/MrsMalaprop.cs:25-26 | different type names give different messages, so a message tells which name drew it |
| MrsMalaprop.WarningsFor | CodeAnalysis/SmallScanners/MrsMalaprop.cs:21-27 | the message for a checked name is there iff that name draws a warning on its own; with distinct names, at most once; every message names a checked name |
| MrsMalaprop.LineWarnings | CodeAnalysis/SmallScanners/MrsMalaprop.cs:18-28 | the message for each of the five names is there iff that name's first occurrence has proper boundaries, and then exactly once |
| MrsMalaprop.Analyze | CodeAnalysis/SmallScanners/MrsMalaprop.cs:16-29 | the message for a type name is among the warnings iff some line draws it; every warning is about one of the five names; at most five per line |
| MrsMalaprop.AnalyzeAppend | CodeAnalysis/SmallScanners/MrsMalaprop.cs:19-28 | lines are examined independently: the warnings of `a + b` are those of `a` followed by those of `b` |
| MrsMalaprop.FirstOccurrenceDecides | CodeAnalysis/SmallScanners/MrsMalaprop.cs:23-24 | a name whose first occurrence runs on into a letter is not reported, whatever follows (`StringBuilder b = String.Empty;`) |
| MrsMalaprop.NoCapitalNoWarning | CodeAnalysis/SmallScanners/MrsMalaprop.cs:18-26 | a line without capitals draws no warning |
| MrsMalaprop.CapitalisedNamesAbsent | CodeAnalysis/SmallScanners/MrsMalaprop.cs:21-27 | names that start with a capital draw no warning on a line without capitals |

## Left out

- **The console program.** Program, FileProcessor, Analyzer and Reporter are left out: directory traversal, file reading and console output. Reporter only sums and prints reports.
- **Console output.** The `Console.WriteLine` of `AnalyzeCode` is left out.
- **The legacy constructor's file handling.** It reads the file, splits it at line feeds and calls `Path.GetFileName`. This is I/O, so `LegacyMethodLength.Analyze` takes the trimmed lines and the file name as parameters.
- **`GetRegularCode`.** Its body is entirely commented out, so it is not modelled.
- **`_commentLineIndices`.** This list only feeds `GetRegularCode`, so it is not modelled either. The comment lines handed to a `LineReport` are modelled, as `Tally.comments`.
- **Warnings already collected when an exception is thrown.** The source keeps them in a global list. The model's `Err` result drops them.
- **Character classes.** `char.IsUpper`, `IsLower`, `IsLetter` and `IsWhiteSpace` are ASCII approximations. No Unicode categories and no culture.
- **String searches.** `string.IndexOf(string)` and `Contains` are ordinal searches. There is no culture-sensitive comparison.
- **Exception types.** `IndexOutOfRangeException` and `ArgumentOutOfRangeException` are both `OutOfRange`.
- **Call sites that do not match the shown signatures.**
  - `new CommentLineAnalyzer(false)` is modelled as a fresh analyzer without a report.
  - `new LineReport(list, false)` is modelled as the one-argument constructor's counts.
  - The older `GetMethodNameLine` uses a tuple as a string. It is modelled as the tuple's line.
  - The overloads these calls need are not part of this model.
- **The unit tests.** Their outcomes depend on `GetRegularCode`.
- **`WarningRepo`.** It is not part of this model: warnings are returned instead.
- IdentifierAnalyzer.AnalyzeFrom: its contract only says that warnings accumulate. What each line adds is stated by `AnalyzeStep`. `MethodLineChecked` and `HeaderParametersChecked` carry it through the loop for lines inside methods and for the first method header.
- IdentifierAnalyzer.Analyze: its contract covers only files that never open a block. For other files, `AnalyzeStep` states what each line adds and `MethodLineChecked` and `HeaderParametersChecked` show that lines inside methods and the first method header are checked. Lines skipped by a header that spans several lines are not characterised.
- IdentifierAnalyzer.MethodLineChecked: it covers lines reached before any line between class and method level. Such a line makes the walk jump past a method header, so the lines after it are not followed.
- IdentifierAnalyzer.HeaderParametersChecked: it covers only the first line between class and method level that the walk reaches, and only headers that end on their first line. A header spread over several lines makes `CheckParameters` fail, as `UnendedHeaderFails` shows.
- LineReport.Report.TotalCommentLines: it has no contract of its own; it is the sum of line comments and block-comment lines. Its meaning is stated by `NoSlashNoCommentLines` and by `NewReport`, which ties both counts to `CountCommentLines`.
