# SemTeX macro expansion core, in Dafny

SemTeX is a LaTeX preprocessor. It scans a `.stex` file with a forward-only
cursor and records the *replacements* that macro invocations expand to. A
replacement is a span of the file plus the text that replaces it. This
project models two parts of that engine:

- **The parser state** (`file_parser.dfy`, module `FileParser`). This covers
  the `Replacement` span, the `MacroOptions` record and the `Parser` cursor.
  The `Parser` has a fixed `end`, a forward-moving `curr`, the replacement log,
  the line counter and three newline counters. Two helpers are modelled:
  `eatWhitespace` (a loop that skips tabs and spaces) and `getStringTruthValue`
  (it reads `"yes"`, `"0"` and the other listed literals as booleans). Pointers
  into the file become offsets into an immutable `buffer: seq<char>`. The class
  invariant `Valid()` says that `curr <= end <= |buffer|`, and that the log is
  ordered: every span is non-empty and lies before `curr`, and each span ends
  at or before the next one starts.
- **The `\summ` replacer** (`summation_replacer.dfy`, module
  `SummationReplacer`). `Replace` takes the trigger and the parser. It also
  takes what the option and argument parsers returned, together with where they
  left the cursor. It validates the input: no key/value options, only the flags
  `inf` and `lim`, and at most three arguments. It then chooses the LaTeX text
  (`Layout`, `Render`, `Summation`) and appends one replacement from the trigger
  to the cursor. Errors are `Fail(message)` values that carry the source's
  message texts. `ReadLayout` reads an expansion back into its layout. This
  shows that the output is always `\sum`, then an optional `\limits`, then an
  optional `_{…}`, then an optional `^{…}`.

`wrappers.dfy` holds the `Option`, `Result` and `Outcome` datatypes used for
the source's exceptions.

Two behaviours of the code are worth knowing:

- An empty first argument still binds (`src/SummationReplacer.cpp:48`), so
  `\summ{}{1}{}` expands to `\sum_{=1}` (`ExpansionEmptyVariable`). Only an
  empty lower or upper bound counts as absent (lines 49-50).
- `\limits` needs a bound or `inf` (`src/SummationReplacer.cpp:53`). A bare
  variable is not enough, so `\summ[lim]{i}` expands to `\sum_{i}`
  (`ExpansionBareVariable`, `LimitsFollowBounds`).

## Model

| member | source | states |
|---|---|---|
| `FileParser.OrderedLogDisjoint` | src/FileParser.hpp:7-10 | a span covers `start` up to but not including `end`, so two different spans of an ordered replacement log share no offset |
| `FileParser.AppendKeepsOrder` | src/FileParser.hpp:38-42 | appending a span that starts at or after the log's bound keeps the replacement log ordered and non-overlapping |
| `FileParser.OrderedLogStartsIncrease` | src/FileParser.hpp:38-42 | in an ordered log of non-empty spans, the start offsets strictly increase |
| `FileParser.IsBlank` | src/FileParser.hpp:61-64 | `std::isblank` in the C locale is a space or a tab, and never a line break, so whitespace skipping stops at a newline |
| `FileParser.SkipBlanks` | src/FileParser.hpp:61-66 | whitespace skipping stops at the first offset at or after the cursor that is `end` or holds a non-blank character; it never moves backward or past `end`, and everything it passes over is a tab or a space |
| `FileParser.SkipBlanksUnique` | src/FileParser.hpp:61-66 | that stopping offset is the only offset with those properties |
| `FileParser.SkipBlanksStopsAt` | src/FileParser.hpp:61-64 | a newline, or any other non-blank character, is never skipped |
| `FileParser.SkipBlanksIdempotent` | src/FileParser.hpp:61-66 | skipping again where skipping stopped does not move the cursor |
| `FileParser.Parser.LogStartsIncrease` | src/FileParser.hpp:38-42 | in a valid parser, the replacements' start offsets strictly increase, because every span is non-empty and the log is ordered |
| `FileParser.TruthGroupsDisjoint` | src/FileParser.hpp:49-56 | no literal is in both the true group and the false group |
| `FileParser.GetStringTruthValue` | src/FileParser.hpp:49-56 | true exactly for the ten true literals, false exactly for the ten false literals, and an invalid-input error for every other string |
| `FileParser.TruthValueIsCaseExact` | src/FileParser.hpp:49-56 | the match is exact: `"YES"`, `"nO"` and `""` are errors, `"yes"` is true and `"No"` is false |
| `FileParser.Parser.constructor` | src/FileParser.hpp:44-47 | a fresh parser has an empty replacement log, `curr` at the given position, the given `end`, `currLine` equal to the starting line (1 by default) and all three newline counters at 0 |
| `FileParser.Parser.EatWhitespace` | src/FileParser.hpp:61-66 | moves `curr` forward to `SkipBlanks` of its old value, leaving `curr == end` or a non-blank at `curr`; it changes nothing else and keeps the parser invariant |
| `SummationReplacer.Accepts` | src/SummationReplacer.cpp:29-40 | an invocation passes validation exactly when it has no key/value option, every flag is `inf` or `lim`, and there are at most three arguments |
| `SummationReplacer.Rejects` | src/SummationReplacer.cpp:29-40 | the errors are checked in order (options, then flags, then argument count); every message it allows belongs to an input that is not accepted |
| `SummationReplacer.RejectsUnlessAccepted` | src/SummationReplacer.cpp:29-40 | some error is raised exactly when there is an option, an unknown flag or more than three arguments |
| `SummationReplacer.OptionsCheckedFirst` | src/SummationReplacer.cpp:29-35 | any key/value option gives the "does not take options" error, whatever the flags and arguments are |
| `SummationReplacer.FourArgumentsRejected` | src/SummationReplacer.cpp:39-40 | with no options or flags, four arguments give exactly the "Too many arguments" error |
| `SummationReplacer.FirstUnknownFlag` | src/SummationReplacer.cpp:32-35 | the scan over the flags, in any order, finds a flag outside `{inf, lim}` exactly when one exists, and the flag it returns is such a flag |
| `SummationReplacer.Variable` | src/SummationReplacer.cpp:48 | the counting variable is present exactly when there is at least one argument, and it is the first argument, even when empty |
| `SummationReplacer.LowerBound` | src/SummationReplacer.cpp:49 | the lower bound is present exactly when a second argument exists and is non-empty, and it is that argument |
| `SummationReplacer.UpperBound` | src/SummationReplacer.cpp:50 | the upper bound is present exactly when a third argument exists and is non-empty, and it is that argument |
| `SummationReplacer.Layout` | src/SummationReplacer.cpp:42-66 | `\limits` only with `lim`; the subscript is absent exactly when there is no argument and no `inf`; the superscript is absent exactly when there is no non-empty upper bound and no `inf`; a non-empty upper bound is the superscript even with `inf`, otherwise `inf` gives `\infty`; a non-empty lower bound gives `var=lower` even with `inf`, otherwise `inf` gives `var=-\infty` (or `-\infty` with no arguments), otherwise a variable alone is the subscript |
| `SummationReplacer.LimitsFollowBounds` | src/SummationReplacer.cpp:52-54 | `\limits` appears exactly when `lim` is set and there is a superscript or a non-empty lower bound |
| `SummationReplacer.LimOnlyChangesLimits` | src/SummationReplacer.cpp:52-66 | the `lim` flag changes only whether `\limits` is present, never the subscript or the superscript |
| `SummationReplacer.Render` | src/SummationReplacer.cpp:52-66 | the text starts with `\sum`, and is exactly `\sum` only for the layout with no `\limits`, no subscript and no superscript |
| `SummationReplacer.Summation` | src/SummationReplacer.cpp:52-66 | every expansion starts with `\sum` |
| `SummationReplacer.ReadRender` | src/SummationReplacer.cpp:52-66 | the expansion text is unambiguous: a layout whose texts hold no `}` is recovered from its rendering |
| `SummationReplacer.SummationReadsBack` | src/SummationReplacer.cpp:45-66 | for arguments without `}`, the expansion reads back to `\sum`, `\limits` exactly when chosen, and the chosen subscript and superscript |
| `SummationReplacer.EmptyBoundsAreAbsent` | src/SummationReplacer.cpp:48-50 | an empty lower or upper bound expands the same as leaving it out |
| `SummationReplacer.EmptyVariableStillBinds` | src/SummationReplacer.cpp:48-57 | an empty variable still binds: `{}{l}` expands to `\sum_{=l}` |
| `SummationReplacer.ExpansionWithBounds` | src/SummationReplacer.cpp:56-64 | `{i}{1}{n}` expands to `\sum_{i=1}^{n}` |
| `SummationReplacer.ExpansionInfinite` | src/SummationReplacer.cpp:58-66 | `[inf]{i}` expands to `\sum_{i=-\infty}^{\infty}` |
| `SummationReplacer.ExpansionInfiniteWithBounds` | src/SummationReplacer.cpp:56-64 | explicit bounds win over `inf`: `[inf]{i}{0}{n}` expands to `\sum_{i=0}^{n}` |
| `SummationReplacer.ExpansionWithLimits` | src/SummationReplacer.cpp:52-64 | `[lim]{i}{1}{n}` expands to `\sum\limits_{i=1}^{n}` |
| `SummationReplacer.ExpansionInfiniteWithLimits` | src/SummationReplacer.cpp:52-66 | `[inf,lim]{k}` expands to `\sum\limits_{k=-\infty}^{\infty}` |
| `SummationReplacer.ExpansionEmptyVariable` | src/SummationReplacer.cpp:48-57 | `{}{1}{}` expands to `\sum_{=1}` |
| `SummationReplacer.ExpansionBareVariable` | src/SummationReplacer.cpp:52-61 | `[lim]{i}` expands to `\sum_{i}` with no `\limits`, and no arguments give plain `\sum` |
| `SummationReplacer.Replace` | src/SummationReplacer.cpp:14-68 | parse errors are re-raised with " in \summation" appended; otherwise the cursor ends where argument parsing left it, at least one trigger length past the start; it fails exactly when the input is not accepted, with a message from the ordered checks; on success it appends exactly one replacement from the old cursor to the new one holding `Summation` of the flags and arguments; on failure the log is unchanged; the parser invariant is kept |

## Left out

- `src/main.cpp` is not part of this model. It covers command-line parsing, the lazily started worker threads, the shutdown polling loop, the call to `pdflatex`, the removal of generated files and the rewriting of file extensions. These are process, thread and file I/O concerns.
- `processFile` and `processInclude` read and write files and queue included files. Their bodies are not in `src/FileParser.hpp`, so they are not modelled.
- `parseLoop`, `readNewline`, `parseMacroOptions` and `parseBracketArgs` are only declared in `src/FileParser.hpp`. Their grammar is not modelled. `Replace` instead takes their outcome as an input (`Result<Arguments>`). It requires only the documented guarantee: the cursor ends past the trigger and within `end`.
- Because `readNewline` is not modelled, nothing here updates `currLine` or the newline counters after construction.
- `errorOnLine` formats messages with the file name and line, and exceptions are tagged with `__FUNCTION__`. Neither is modelled: an error is a `Fail` value carrying the bare message.
- `Context` (the `ctxt` reference held by `Parser`) is not modelled.
- The order-independence of applying a replacement log to a buffer is not modelled. Applying the log belongs to `processFile`, whose body is not shown.
- `Replace`: when a parse error occurs, the model leaves the cursor just past the trigger. Wherever the failed parser actually stopped is not modelled.
- `GetStringTruthValue`: the source only declares this function. The model follows its documented contract. The text of its error message is not given in the source, so the message here is a placeholder.
- `FirstUnknownFlag`: the iteration order of `std::unordered_set` is not modelled. When several unknown flags are present, the model only promises that the error names one of them.
- `IsBlank` is `std::isblank` in the C locale: a space or a tab. Other locales, and negative `char` values passed to `isblank`, are not modelled.
- `SummationReadsBack` and `ReadRender` are stated only for arguments that contain no `}`. Brace-nested arguments (which the argument parser accepts) would need a depth-aware reader.
