# vs-v8-insights, modelled in Dafny

vs-v8-insights is a VS Code extension. It runs a Node.js script with V8
logging flags, reads the V8 log back and shows the result as code lenses
above each function: compiled or interpreted, how long compilation took,
and whether it was deoptimized. It can also show a function's optimized
machine code, with jump targets rewritten as labels. This project models
the logic behind that and proves properties of it:

- `optional.dfy` (`Optional`): the optional value that stands for `undefined`/`null`.
- `jsstrings.dfy` (`JsStrings`): the JavaScript string operations the
  source relies on, with their JavaScript edge cases:
  - `split` keeps empty pieces and never returns an empty array;
  - `slice` accepts negative indices;
  - `indexOf` returns -1 when the character is absent;
  - `replace` with a string pattern replaces only the first occurrence;
  - `trimStart`, `<` on strings, and unary `+` with its NaN result.
- `util.dfy` (`Util`): `byLine`, `formatTime` and `findLast`.
- `analyze.dfy` (`Analyze`):
  - `parseFullLocation`;
  - the log analysis (`analyze` with `createFunctionInsights`), run on a
    store class whose fields are the file index and the function records;
  - `getInsights`;
  - the scan of `getOptimizedCode`.
- `decompile.dfy` (`Decompile`):
  - the label map shared by every call, as a class;
  - `getLabel` and `getLabelName`;
  - `decompile` with its `destructLine` helper and its two passes.
- `annotate.dfy` (`Annotate`): `getLenses`.
- `instrument.dfy` (`Instrument`): `instrumentCommand` and `INSTRUMENTATION_ARGS`.

Each loop of the source is a method. Its contract either proves it equal
to a specification function or states its result directly, as
`LabelTable.GetLabel` does with the first matching label. The passes over the log lines, the chunks, the dump lines and
the functions are folds written with recursion on the last element. The
`getOptimizedCode` scan is specified by `Collect`, which recurses on the
first line. The `findLast` scan is specified by `FindLast`. The
properties are proved about those functions.

A note on objects. In the source, a function record is a single JavaScript
object. Three structures hold references to it: the file's `functions`
list, the location map and the compiled-address map. The model keeps the
records in one sequence and stores indices into it in all three
structures, so an update through any of them is seen by all of them, as in
the source.

The model follows the code where it behaves in ways a reader might not expect:

- All three call sites pass `unnamed = false`. A `Script` line whose
  source is `" file://…"` therefore gets the name `""`, not `"unknown"`
  (`src/analyze.ts:121`).
- `formatTime` does not round the millisecond part down. A time of 1500
  gives a millisecond value of 1.5 (`src/util.ts:19`).
- The `loop` name is given to a label with one backward jump whether or
  not it is also reached forward (`src/decompile.ts:38`).
- `getOptimizedCode` drops the header line, keeps the empty line that
  closes a block, and does not stop after the first block. Every matching
  block is collected (`src/analyze.ts:189-202`).
- `byLine` never yields the text after the last newline
  (`src/util.ts:2-10`). `ByLine` returns it separately as the carry.

## Model

| member | source | states |
|---|---|---|
| JsStrings.SplitJoin | src/util.ts:5 | no piece of a split holds the separator, and joining the pieces with it gives the text back |
| JsStrings.JoinSplit | src/instrument.ts:63-69 | splitting a join of separator-free pieces gives exactly those pieces back |
| JsStrings.SplitAppend | src/util.ts:5-6 | splitting `a + b` is splitting `a`, keeping all its pieces but the last, then splitting that last piece followed by `b` |
| JsStrings.IndexOf | src/decompile.ts:54-55 | -1 when the character does not occur from `from` on; otherwise the first position at or after `from` that holds it |
| JsStrings.SliceFrom | src/decompile.ts:56 | a non-negative start in range gives the suffix from it; a negative start counts from the end |
| JsStrings.TrimStart | src/decompile.ts:56 | the result is a suffix that does not start with white space, and everything dropped is white space |
| JsStrings.ReplaceFirst | src/analyze.ts:69 | a text starting with the pattern has that occurrence replaced; a text without the pattern is unchanged |
| JsStrings.ReplaceFirstAt | src/analyze.ts:69 | the first occurrence of the pattern is replaced wherever it is and the text around it is kept |
| JsStrings.LexLessIrreflexive | src/decompile.ts:85-86 | no address is below itself, so a jump to its own line sets neither direction flag |
| JsStrings.LexLessAsymmetric | src/decompile.ts:85-86 | an address below another is not above it |
| JsStrings.LexLessTotal | src/decompile.ts:85-86 | of two distinct addresses one is below the other (used by DistinctJump) |
| JsStrings.IntToStringRoundTrip | src/analyze.ts:70 | unary `+` on the decimal text of an integer gives the integer back, never NaN |
| JsStrings.NatToStringInjective | src/decompile.ts:39-44 | distinct ids have distinct decimal texts |
| JsStrings.WordNumberUnique | src/decompile.ts:39-44 | a digit-free word followed by a decimal number splits back into that word and number in only one way |
| Util.ByLine | src/util.ts:2-10 | the lines yielded, followed by the carry left in the accumulator, are exactly the newline-split pieces of all the chunks concatenated |
| Util.ByLineSpec | src/util.ts:2-10 | the lines hold no newline; each line followed by a newline, then the carry, rebuilds the whole input; the yielded lines depend only on the concatenated text, not on how it was chunked |
| Util.TerminatedLines | src/util.ts:2-10 | newline-terminated lines stream back exactly as those lines |
| Util.NoNewlineNoLines | src/util.ts:5-8 | input without a newline yields no line |
| Util.JsRem | src/util.ts:15 | the JavaScript remainder lies strictly between -1000 and 1000 and agrees with the mathematical one on non-negative times |
| Util.FormatTimeTiers | src/util.ts:12-29 | the text always ends with the microsecond remainder; the millisecond part appears exactly above 1000, and the seconds part appears before it exactly above 1000000 |
| Util.MillisValue | src/util.ts:19 | the millisecond part is the time modulo 1000000, divided by 1000, and it is whole exactly when the time is a multiple of 1000 |
| Util.SecondsAndMillis | src/util.ts:19-24 | the seconds part is the whole number of millions, and seconds and milliseconds together give the time back |
| Util.FormatTimeSmall | src/util.ts:13-16 | no time gives "?s"; 500 gives "500μs"; 1000 gives "0μs" because the millisecond tier needs more than 1000 |
| Util.FormatTimeFraction | src/util.ts:18-21 | 1500 gives a millisecond value of 1.5, not 1 |
| Util.FormatTimeSeconds | src/util.ts:12-29 | 2500000 gives "2s 500ms 0μs" |
| Util.FindLast | src/util.ts:31-38 | null exactly when no element satisfies the predicate; otherwise an element that satisfies it with no satisfying element after it |
| Util.FindLastScan | src/util.ts:31-38 | the backward scan that returns at the first match gives exactly `FindLast` |
| Analyze.ParseFullLocationShape | src/analyze.ts:60-71 | the name is the text before the first space and the full location is the next space-free token; the file name is all of the location with its first "file://" removed up to the first colon or the end |
| Analyze.ParseFullLocationRoundTrip | src/analyze.ts:60-71 | for a source "name file://path:L:C", the parse gives back the name, the path, line L-1 and column C, and the full location |
| Analyze.DriveLetterSite | src/analyze.ts:60-95 | a site "name file://D:/path:L:C" with a drive letter parses with file name D, a NaN line and column L, and is accepted as a new site, since NaN is not below zero |
| Analyze.Create | src/analyze.ts:84-115 | a known full location returns its existing record and changes nothing; a new one appends exactly one record with the parsed name and appends its index to its file's list, creating the list when absent |
| Analyze.CreateConsistent | src/analyze.ts:84-115 | creating keeps every record in exactly one file list, exactly once, with exactly one declaration site |
| Analyze.Step | src/analyze.ts:117-173 | a line that matches none of the four prefixes changes nothing, and no line removes a record |
| Analyze.StepAppendsOneEvent | src/analyze.ts:118-156 | a code-creation line appends exactly one event, stamped with its timestamp, to the record of its source (found or newly created); every other record keeps its events, and every record keeps its first-seen name and name range |
| Analyze.StepCompileEnd | src/analyze.ts:137-156 | an optimized-code line marks the function compiled, sets its compile time from the last compile-start when there is one (and leaves it otherwise), and maps the code address to the function |
| Analyze.StepDeopt | src/analyze.ts:157-172 | a deopt line for an unknown address changes nothing; for a known one it clears compiled, sets deoptimized, keeps the compile time and appends one deoptimize event, touching no other record; the event's reason is the ninth field, or absent (`undefined`, which `JSON.stringify` drops) for an eight-field line |
| Analyze.StepConsistent | src/analyze.ts:117-173 | every line keeps the file lists and the location map consistent |
| Analyze.StepSummarized | src/analyze.ts:117-173 | after every line, each record's flags and compile time are what its own event history says |
| Analyze.RunInvariants | src/analyze.ts:78-177 | a run from the empty state ends consistent, with every record's flags and compile time matching its event history |
| Analyze.RunOkPrefix | src/analyze.ts:117-174 | the run over one more line is one more step |
| Analyze.InsightStore.Analyze | src/analyze.ts:78-177 | the records and the file index after the loop are those of the fold over the log lines from an empty state, so nothing from an earlier run leaks into the new one |
| Analyze.InsightStore.CreateFunctionInsights | src/analyze.ts:84-115 | updates the store exactly as `Create` says |
| Analyze.InsightStore.GetInsights | src/analyze.ts:179-182 | something exactly for a file that was seen; then its records, in first-seen order |
| Analyze.GetOptimizedCode | src/analyze.ts:184-205 | the lines collected are those the block scan selects |
| Analyze.CollectSubsequence | src/analyze.ts:184-205 | the collected lines are a subsequence of the log: log lines in log order with none copied twice |
| Analyze.CollectNoMatch | src/analyze.ts:191-192 | with no header line for the address, nothing is collected |
| Analyze.CollectBlock | src/analyze.ts:191-201 | a header line is dropped, and the block after it is copied up to and including the empty line that closes it; scanning then resumes for further blocks |
| Decompile.NameWord | src/decompile.ts:38-44 | the deduced kind is never empty and holds no digit |
| Decompile.LabelName | src/decompile.ts:34-45 | without a user label, the name is the kind followed by text that parses back to the label's id |
| Decompile.LabelNamesDistinct | src/decompile.ts:34-45 | two labels without user labels and with distinct ids get distinct names |
| Decompile.SkipNameIff | src/decompile.ts:38-43 | without a user label, the name starts with "skip" exactly when the label is reached only forward |
| Decompile.LocationOf | src/decompile.ts:54 | the location is the space-free text before the first space, or the line without its last character when there is no space |
| Decompile.InstructionOfRoundTrip | src/decompile.ts:55-62 | a line whose first space from column 30 on is followed by white space and an instruction (with or without a "REX.W " prefix) yields exactly that instruction |
| Decompile.JumpIn | src/decompile.ts:73-74 | an instruction is a jump exactly when it starts with "j"; its kind and target are space-free |
| Decompile.JumpWords | src/decompile.ts:73-74 | the kind and target of a jump are the instruction's first two words: the instruction starts with kind and a space and target and then ends or has a space |
| Decompile.DiscoverTable | src/decompile.ts:70-89 | discovery adds exactly the addresses jumped to, each once, after the existing keys, with ids counting up from 0 along the order and no user label; existing labels keep their placement |
| Decompile.DiscoverOrder | src/decompile.ts:70-89 | the new keys are in first-jump order: before any line that jumps to a new key some line already jumps to every new key listed before it |
| Decompile.DiscoverFlags | src/decompile.ts:84-87 | each label's jump count grows by the number of jumps to it; it is flagged backward exactly when some jump comes from a higher address, and forward exactly when some jump comes from a lower one |
| Decompile.NotYetJumped | src/decompile.ts:78-82 | an address missing from the table after discovery was never jumped to |
| Decompile.SelfJump | src/decompile.ts:81-87 | a new label for a jump to its own line has one jump and neither direction flag |
| Decompile.DistinctJump | src/decompile.ts:81-87 | a new label for a jump from another location has one jump and exactly one direction flag |
| Decompile.DiscoverRegisters | src/decompile.ts:78-82 | after discovery every address jump target is in the table, so the render pass's lookup cannot fail |
| Decompile.RenderKeepsNames | src/decompile.ts:91-119 | rendering changes no label's id, count, flags or user label |
| Decompile.SameIdentityName | src/decompile.ts:34-45 | a label's name depends only on what rendering keeps, so names stay the same through the render pass |
| Decompile.RenderLength | src/decompile.ts:91-119 | the listing has one line per input line plus one per line that carries a label, and what was already rendered is kept |
| Decompile.RenderPlacesLabels | src/decompile.ts:94-101 | every label on a line of the input is placed: its line points at a listing line holding its name and a colon |
| Decompile.RenderJump | src/decompile.ts:103-114 | a jump outside the range is rendered with its raw target and "(outside)" and not recorded; a jump inside it is rendered with the label's name and its listing line is recorded on the label |
| Decompile.LabelTable.GetLabel | src/decompile.ts:24-32 | the first label in insertion order that sits on the line or is jumped to from it; nothing exactly when no label does |
| Decompile.LabelTable.Decompile | src/decompile.ts:48-122 | the table and text after the call are those of discovery followed by render over the parsed lines, and the table stays well formed |
| Decompile.LabelTable.DiscoverPass | src/decompile.ts:70-89 | the first loop updates the table exactly as the discovery fold does, with ids from 0 |
| Decompile.LabelTable.RenderPass | src/decompile.ts:91-119 | the second loop updates the table and builds the listing exactly as the render fold does |
| Annotate.LensCount | src/annotate.ts:11-37 | one lens per function and one more per compiled function |
| Annotate.LensesAt | src/annotate.ts:11-37 | each function's history lens comes after the lenses of the functions before it, followed, when the function is compiled, by its compiled-code lens |
| Annotate.LensesOnlyFrom | src/annotate.ts:11-37 | every lens is the history lens of some function or the compiled-code lens of a compiled one |
| Annotate.LensRanges | src/annotate.ts:17-36 | every lens sits on some function's name range |
| Annotate.SummaryShape | src/annotate.ts:12-15 | the title starts with "compiled in " and the formatted compile time exactly when compiled, and is "interpreted" otherwise; it ends with " - was deoptimized" exactly when deoptimized |
| Annotate.LookupKey | src/annotate.ts:8 | a "file://" URI is looked up by the path after the scheme; otherwise the first "file://" is cut out wherever it is; a URI without "file://" is looked up unchanged |
| Annotate.GetLenses | src/annotate.ts:6-40 | no lenses for a file without insights; otherwise the lenses of its functions in order, as the lens fold builds them |
| Instrument.InstrumentCommand | src/instrument.ts:62-73 | the enriched command is "node ", the tokens between the first and the last followed by the seven flags, all joined by single spaces, then a space and the last token |
| Instrument.EnrichedTokens | src/instrument.ts:62-69 | the tokens of the enriched command are "node", the middle tokens of the input in order, the seven flags in declared order, and the input's last token ("undefined" for a one-token input); empty tokens from doubled spaces are kept |
| Instrument.FirstTokenIgnored | src/instrument.ts:63-64 | the first token of the input is dropped unchecked: replacing it does not change the output |
| Instrument.ScriptKeptLast | src/instrument.ts:65-69 | the input's last token is the output's last token |

## Left out

- File and stream I/O is left out. This covers reading the log and the
  optimized-code file (`readTrace`, `getInsightsFolder`), decoding buffers
  to text, and the async iteration of `byLine`. The analysis and the scan
  take the lines as a sequence, and `byLine` takes the chunks as a
  sequence.
- `console.log`, `analysisDone.fire()` and the async machinery are left
  out. They do not affect the results.
- Unary `+` (`ParseNumber`) reads decimal text with an optional leading
  minus as its value, the empty text as 0, and any other text as NaN.
  JavaScript also reads as numbers text padded with white space, a leading
  `+`, hexadecimal, octal and binary literals, fractions and exponents;
  the model reads all of those as NaN. Event times and code sizes go
  through `ToNumber`, which reads NaN as 0, and a missing field there
  (`undefined`, NaN in JavaScript) is read as the empty text, so as 0. A
  missing line or column of a location is NaN, as in JavaScript.
- `formatTime` is modelled as the segments of its text, with numbers as
  reals. A segment list turns into text only when every number in it is
  whole. Formatting a fractional millisecond value such as 1.5 is
  floating-point formatting and is left out.
- Runtime exceptions become preconditions. This covers a source without a
  space, a new source site whose line or column is a number below zero
  (a VS Code `Position` refuses those; NaN passes), a deopt line too short for its known address,
  a jump instruction without an operand, and `decompile` on fewer than two
  lines.
- Strings are sequences of Unicode code points, where JavaScript counts
  and compares UTF-16 code units. A function name outside the Basic
  Multilingual Plane gets a name range shorter than the source's
  (`name.length`, `src/analyze.ts:95`), and `LexLess` orders such strings
  by code point where JavaScript `<` orders them by code unit
  (`src/decompile.ts:85-86`). Addresses are ASCII, so the decompiler is
  not affected.
- Analyze.InsightStore.Analyze: the location and compiled-address maps
  are locals of the loop, as in the source. The method therefore states
  only the records and the file index it leaves behind.
- Decompile.LabelTable.Decompile: a VS Code `Uri` editor becomes a
  string. A user-set label can exist in the table, but nothing in this
  core sets one.
- Annotate.GetLenses: the VS Code `TextDocument` becomes its URI string,
  and the lens title is kept as segments, as `formatTime` is.
- `getScripts` and `cleanupInstrumentationFolder` are not part of this
  model: they are workspace file-system access and `JSON.parse`.
- The VS Code commands, editors and decorations (`src/extension.ts`,
  `src/commands.ts`, `src/editors.ts`) are not part of this model.
