# pygmentize front end: a verified model

This project models `pygmentize`, a command-line front end. It reads source files, hands each one to an external
highlighting engine and writes the result in the requested output formats. Only the orchestration layer is
modelled, in two parts:

- **Option parsing.** Arguments that start with `--` are flags and all others are file names. A flag loses
  its leading dashes and is case-folded, and it then goes into the *option bag*. The `Extensions` helpers
  query the bag:
  - `ContainsAny` tests for a bare flag.
  - `Value` does a single-value lookup, where the last occurrence wins and an empty value falls back to the
    default.
  - `Values` does a multi-value lookup, in encounter order, with a one-element default.
  - `Distinct` is applied to the requested outputs.
- **Dispatch.** `Main` first selects the mode: list styles, print usage, or dispatch. It then runs the
  `switch` over the output kinds, and for each kind the loop over the files. Each file goes to a sibling
  file (`<file>.html`, `<file>.rtf`, `<file>.ans`) or, for the terminal kinds with `--console`, to the
  console after every `\n` becomes `\r\n`.

The files of the model:

- `Text.dfy` (module `Text`): string helpers. These are the ASCII case fold, the dash trim, the CR LF
  conversion and its inverse, `Count` and `Join`.
- `Extensions.dfy` (module `Extensions`): the option-bag accessors and `Distinct`.
- `Arguments.dfy` (module `Arguments`): the split of the command line into option bag and file list.
- `Pygmentize.dfy` (module `Pygmentize`): the model of `Main`.
  - The engine and the file system are a `Host` value whose fields are total functions. A read, a render or
    a write that throws is a `None` result or a `false`.
  - Everything printed, written or requested is appended to a log of `Action`s. A `Trace` is such a log
    together with "an exception escaped".
  - The function `Outcome` says what a run does. Both kinds of loop are `Chain`s: a `foreach` whose
    iterations may throw, which keeps the actions of each iteration up to the first one that throws.
  - The method `Run`, and the methods `Dispatch`, `ProcessFiles` and `HighlightFile` it calls, do it with
    the loops and `switch` of the C# `Main`. Each of them is proved equal to its specification function.
- `Properties.dfy` (module `RunProperties`): lemmas about `Outcome` and its parts.
- `Wrappers.dfy`: `Option`, standing for a nullable string.

Behaviours of the C# `Main` that are easy to miss, all kept by the model:

- `Values` does not remove duplicates. Only `Distinct` in `Main` does.
- The terminal loop has no `try`/`catch`, just like the rtf loop. So a failing terminal output ends the
  whole run, as an rtf failure does. Only html failures are contained.
- `SetAnsiConsoleMode` is called once per file written to the console, not once per run
  (`RunProperties.ConsoleModePerFile`).
- `TrimStart('-')` removes every leading dash, although a flag is recognised by `--` alone. `---x` and
  `--x` therefore give the same entry.

## Model

| member | source | states |
|---|---|---|
| `Extensions.ContainsAny` | test/Pygmentize.cs:15-17 | true exactly when some element of the collection equals some item |
| `Extensions.ContainsAnyMembers` | test/Pygmentize.cs:15-17 | `ContainsAny` holds exactly when some item is a member of the collection |
| `Extensions.Value` | test/Pygmentize.cs:28-31 | the text after `name=` in the last entry starting with `name=`; the empty string when no entry does |
| `Extensions.ValueOrDefault` | test/Pygmentize.cs:19-25 | the default (possibly null) when nothing matches or the last match's value is empty, otherwise that value; so the result is the default or a non-empty value, and never null for a non-null default |
| `Extensions.LastOccurrenceWins` | test/Pygmentize.cs:28-31 | appending `name=v` makes `v` the value, whatever came before |
| `Extensions.EmptyLastOccurrenceDefaults` | test/Pygmentize.cs:19-25 | an empty last occurrence overrides earlier non-empty ones and yields the default |
| `Extensions.Values` | test/Pygmentize.cs:33-37 | empty exactly when no entry selects the name; no longer than the bag |
| `Extensions.ValuesMembers` | test/Pygmentize.cs:33-37 | a string is a value exactly when some selecting entry carries it after `name=` |
| `Extensions.ValuesAppend` | test/Pygmentize.cs:33-37 | values of a concatenated bag are the values of each part, in order |
| `Extensions.ValuesPlacement` | test/Pygmentize.cs:33-37 | each matching entry adds exactly one value, placed after the values of the entries before it; a non-matching entry adds none; so duplicates are kept and the order is the entries' order |
| `Extensions.LastValueIsValue` | test/Pygmentize.cs:28-37 | the last of all values is the single-value lookup's result |
| `Extensions.ValuesOrDefault` | test/Pygmentize.cs:39-45 | `[default]` when nothing matches, otherwise exactly the values; never empty |
| `Extensions.Distinct` | test/Pygmentize.cs:116 | no duplicates and exactly the elements of the input |
| `Extensions.DistinctOrder` | test/Pygmentize.cs:116 | `Distinct` keeps the elements in the order of their first occurrence |
| `Extensions.DistinctSnoc` | test/Pygmentize.cs:116 | a new element is appended to the distinct elements, a repeated one changes nothing |
| `Extensions.FirstIndex` | test/Pygmentize.cs:116 | the position of the first occurrence (the order `Distinct` keeps) |
| `Extensions.CountNoDuplicates` | test/Pygmentize.cs:116 | an element of a duplicate-free sequence occurs once |
| `Text.Lower` | test/Pygmentize.cs:97 | same length, each character case-folded |
| `Text.LowerChar` | test/Pygmentize.cs:97 | folds A-Z to a-z, leaves every other character, never returns an upper-case letter |
| `Text.LowerIdempotent` | test/Pygmentize.cs:97 | folding twice is folding once |
| `Text.TrimDashes` | test/Pygmentize.cs:97 | a suffix of the input; everything removed is a dash; the result does not start with a dash |
| `Arguments.IsFlag` | test/Pygmentize.cs:97-98 | an argument is an option exactly when its first two characters are dashes |
| `Arguments.Normalize` | test/Pygmentize.cs:97 | an option entry is never longer than its argument and is never itself a `--` argument |
| `Arguments.NormalizeShape` | test/Pygmentize.cs:97 | an option entry is its argument with a prefix made only of dashes removed and the rest folded; it has no leading dash and no upper-case letter |
| `Arguments.Opts` | test/Pygmentize.cs:97 | the option bag is no longer than the command line |
| `Arguments.Files` | test/Pygmentize.cs:98 | the file list is no longer than the command line |
| `Arguments.OptsMembers` | test/Pygmentize.cs:97 | an entry is in the bag exactly when it is the normalisation of some `--` argument |
| `Arguments.FilesMembers` | test/Pygmentize.cs:98 | a name is a file exactly when it is some argument not starting with `--` |
| `Arguments.SplitAppend` | test/Pygmentize.cs:97-98 | both lists distribute over concatenation of command lines |
| `Arguments.OptsAppend` | test/Pygmentize.cs:97 | the option bag distributes over concatenation |
| `Arguments.FilesAppend` | test/Pygmentize.cs:98 | the file list distributes over concatenation |
| `Arguments.SplitSizes` | test/Pygmentize.cs:97-98 | option bag and file list together are exactly as long as the command line |
| `Arguments.SplitPlacement` | test/Pygmentize.cs:97-98 | each argument lands in exactly one list, right after the entries from earlier arguments, so both keep the argument order |
| `Arguments.NoFilesIffAllFlags` | test/Pygmentize.cs:98 | the file list is empty exactly when every argument is a flag |
| `Text.CrLf` | test/Pygmentize.cs:159 | the console text grows by the number of `\n`, and every `\n` in it follows a `\r` |
| `Text.CrLfRoundTrip` | test/Pygmentize.cs:159 | the conversion can be undone, also on text already holding CR LF pairs |
| `Text.Count` | test/Pygmentize.cs:159 | bounded by the length, zero exactly when absent |
| `Text.CountAppend` | test/Pygmentize.cs:159 | counting distributes over concatenation |
| `Text.Join` | test/Pygmentize.cs:91 | joining nothing gives the empty string; otherwise the text starts with the first item |
| `Text.JoinLength` | test/Pygmentize.cs:91 | the joined text is as long as the items plus one separator between each two, and ends with the last item |
| `Pygmentize.KindOfLabels` | test/Pygmentize.cs:122-171 | each `case` of the `switch` is taken for exactly its labels, and `default` for every other kind |
| `Pygmentize.Extension` | test/Pygmentize.cs:128-165 | the suffix of a written file is a dot followed by a name without dots |
| `Pygmentize.SiblingsDiffer` | test/Pygmentize.cs:128-165 | two different targets never write the same file |
| `Pygmentize.SettingsOf` | test/Pygmentize.cs:112-115 | console output exactly when the bag holds `console` or `c`; the value of the last `language=` or `style=` entry when it is non-empty; no language and the `scite` style when there is no such entry or its value is empty; never an empty language or style |
| `Pygmentize.Outputs` | test/Pygmentize.cs:116 | never empty and without duplicates; exactly the requested kinds, or `html` when none is requested; in the order each kind was first requested |
| `Pygmentize.Render` | test/Pygmentize.cs:128-165 | the file is read before it is rendered; a failing read gives no output, a successful one gives the engine's output on the text read |
| `Pygmentize.Attempt` | test/Pygmentize.cs:125-166 | one file: it throws exactly when the read or the render fails, or, off the console, when writing `f + suffix` fails; a failure leaves only its first action; a console success is exactly the mode request and the rendered text with CR LF line ends; a file success is exactly the progress line for `f + suffix` and the write of the rendered text to it; console text has no bare line feed |
| `Pygmentize.ChainActions` | test/Pygmentize.cs:121-173 | every action of a `foreach` whose iterations may throw comes from one of its iterations |
| `Pygmentize.ChainStep` | test/Pygmentize.cs:121-173 | one more iteration adds its actions unless an earlier one threw |
| `Pygmentize.ChainSticks` | test/Pygmentize.cs:121-173 | after an iteration throws, later iterations change nothing |
| `Pygmentize.Chain` | test/Pygmentize.cs:121-173 | a `foreach` whose iterations may throw throws exactly when one of its iterations throws |
| `Pygmentize.Attempts` | test/Pygmentize.cs:125 | one attempt per file |
| `Pygmentize.Kinds` | test/Pygmentize.cs:121 | one case per output kind |
| `Pygmentize.AttemptsTake` | test/Pygmentize.cs:125 | the attempts on a prefix of the files are a prefix of the attempts |
| `Pygmentize.KindsTake` | test/Pygmentize.cs:121 | the cases for a prefix of the outputs are a prefix of the cases |
| `Pygmentize.FileLoop` | test/Pygmentize.cs:125-166 | a file loop throws exactly when the attempt on some file throws; it only announces, writes, requests the console mode or echoes; echoed text has no bare line feed |
| `Pygmentize.FileLoopSnoc` | test/Pygmentize.cs:125-166 | a file loop is the loop over all files but the last, then the last unless it already stopped |
| `Pygmentize.RunKind` | test/Pygmentize.cs:122-171 | only rtf and the terminal kinds can end the run; a case only does file actions, reports an html failure, or reports its own kind as unknown |
| `Pygmentize.RunOutputs` | test/Pygmentize.cs:121-173 | the run ends early only at an rtf or terminal kind it was asked for; it only does file actions, reports html failures, and reports requested kinds as unknown |
| `Pygmentize.RunOutputsSnoc` | test/Pygmentize.cs:121-173 | the outputs loop is the loop over all outputs but the last, then the last unless the run already stopped |
| `Pygmentize.Outcome` | test/Pygmentize.cs:95-174 | a run that ends in an exception had files and no help flag, so listing styles and usage never fail |
| `Pygmentize.HighlightFile` | test/Pygmentize.cs:125-166 | the body of a file loop produces exactly the attempt's trace |
| `Pygmentize.ProcessFiles` | test/Pygmentize.cs:124-166 | the loop over the files produces exactly the file loop's trace, stopping at the first exception |
| `Pygmentize.RunCase` | test/Pygmentize.cs:122-171 | the `switch` on one kind produces exactly that kind's trace |
| `Pygmentize.Dispatch` | test/Pygmentize.cs:121-173 | the loop over the outputs produces exactly the outputs' trace, returning at an escaping exception |
| `Pygmentize.Run` | test/Pygmentize.cs:95-174 | the whole of `Main` produces exactly `Outcome` |
| `RunProperties.ListStylesMode` | test/Pygmentize.cs:101-105 | no file and a flag normalising to `liststyles`: only the style list is printed |
| `RunProperties.UsageMode` | test/Pygmentize.cs:107-110 | otherwise no file, or a file and a flag normalising to `help`, `?` or `h`: only usage is printed |
| `RunProperties.DispatchMode` | test/Pygmentize.cs:107-121 | a file and no help flag: the distinct outputs are dispatched over the files with the bag's settings |
| `RunProperties.NoHelpInOpts` | test/Pygmentize.cs:97-107 | when no `--` argument normalises to `help`, `?` or `h`, the bag holds no help flag |
| `RunProperties.FileLoopStopsAtFirstFailure` | test/Pygmentize.cs:124-133 | a loop's trace is the successful files' actions, then the failing file's, then nothing |
| `RunProperties.FailureByKind` | test/Pygmentize.cs:121-172 | an html failure skips that kind's remaining files, is reported and does not stop; an rtf or terminal failure stops the run |
| `RunProperties.KindActions` | test/Pygmentize.cs:122-171 | html runs the html loop and, when it throws, adds one failure report and does not stop; rtf is exactly the rtf loop; the six terminal aliases run the same loop, bbcode and latex do nothing, any other kind gets one diagnostic naming it |
| `RunProperties.WrittenAppend` | test/Pygmentize.cs:128 | written paths distribute over concatenation of logs |
| `RunProperties.AttemptWrites` | test/Pygmentize.cs:128 | a successful file attempt writes exactly its sibling |
| `RunProperties.SiblingWrites` | test/Pygmentize.cs:125-165 | a loop without failure writes `f + suffix` for each file, in file order |
| `RunProperties.DeliveredAppend` | test/Pygmentize.cs:128-165 | the writes and echoes of a log distribute over concatenation |
| `RunProperties.AttemptDelivers` | test/Pygmentize.cs:128-165 | a successful attempt rendered its file and delivers exactly one write or echo of that output |
| `RunProperties.LoopDeliveries` | test/Pygmentize.cs:125-165 | a loop without failure delivers, for each file in file order, the rendered output of that file: echoed with CR LF on the console, otherwise written to `f + suffix` |
| `RunProperties.DeliveriesSnoc` | test/Pygmentize.cs:125-165 | adding a file to a loop without failure adds its delivery after those of the earlier files |
| `RunProperties.ConsoleModePerFile` | test/Pygmentize.cs:153-160 | on the console the terminal mode is requested once per file |
| `RunProperties.ChainCons` | test/Pygmentize.cs:121-173 | a `foreach` that may throw is its first iteration followed, unless that threw, by the rest |
| `RunProperties.OutputsCons` | test/Pygmentize.cs:121-173 | the run is the first kind's trace followed, unless it stopped, by the rest's |
| `RunProperties.ContainedKindsContinue` | test/Pygmentize.cs:121-172 | html, bbcode, latex and unknown kinds never keep later kinds from running |
| `RunProperties.StoppingOutputEndsRun` | test/Pygmentize.cs:121-173 | a kind whose failure escapes is the last to act |
| `RunProperties.KindReports` | test/Pygmentize.cs:169-171 | a kind's actions report an unknown kind only if it is that kind, once |
| `RunProperties.RunOutputsCompleted` | test/Pygmentize.cs:121-173 | a completed run completed every kind before the last |
| `RunProperties.UnknownReports` | test/Pygmentize.cs:169-171 | in a completed dispatch each unknown kind is reported as often as it is dispatched |
| `RunProperties.ReportsStep` | test/Pygmentize.cs:169-171 | one more kind keeps the number of reports of a kind equal to the number of times it was dispatched |
| `RunProperties.UnknownOutputReportedOnce` | test/Pygmentize.cs:116-171 | an unknown requested kind, however often requested, gets exactly one diagnostic in a completed run |
| `RunProperties.OutputsExample` | test/Pygmentize.cs:116 | `output=html`, `output=rtf`, `output=html` dispatch `html` then `rtf` |
| `RunProperties.ValuesExample` | test/Pygmentize.cs:33-37 | the same bag has the values `html`, `rtf`, `html` |
| `RunProperties.DistinctExample` | test/Pygmentize.cs:116 | `Distinct` of `html`, `rtf`, `html` is `html`, `rtf` |
| `RunProperties.DistinctRepeat` | test/Pygmentize.cs:116 | of two different kinds, the first repeated after the second, `Distinct` keeps both once in first-request order |

## Left out

- The highlighting engine (`HighlightToHtml`, `HighlightToRTF`, `HighlightToTerminal256`, `Styles`) is an
  external library. It is the `highlight` and `styles` fields of `Host`. Its font and inline-style options
  are fixed per target and not represented.
- `File.ReadAllText`, `File.WriteAllText` and the console are I/O. They are the `read` and `canWrite` fields
  of `Host` and the actions of the log. The text of the progress line is reduced to its source and target
  names.
- `SetAnsiConsoleMode` and its kernel32 calls are a platform call. Each call is one `EnableAnsi` action,
  and its own failure messages are not modelled. The call is taken never to throw: on a platform without
  kernel32 the P/Invoke (test/Pygmentize.cs:157) would throw out of the terminal loop and end the run,
  which the model does not capture.
- `Host.read` is one function for the whole run, so a file the run writes is not seen by later reads in
  the same run. With the arguments `x x.html` and html output, `Main` writes `x.html` and then reads it back
  to write `x.html.html`; the model reads `x.html` as it was before the run.
- `new Highlighter()` (test/Pygmentize.cs:118) is taken never to throw. An exception there, before any
  output, is not modelled.
- The exception report in the html `catch` (message, type, stack trace) is runtime detail. It is the single
  `ReportFailure` action. An exception escaping the rtf or terminal loop is `stopped` in the trace, and the
  runtime's crash output is not modelled.
- An exception thrown by `Console.WriteLine` itself, or by `ListStyles` and `Help`, is not modelled.
- `ToLower` and `StartsWith` depend on the current culture. The model uses an ASCII case fold and an
  ordinal prefix test.
- The text of the usage line and the catalogue order are the engine's or fixed strings. Listing styles is
  the action `ShowStyles` on the comma-joined catalogue.
