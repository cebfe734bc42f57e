# raml-cop, modelled in Dafny

raml-cop is a command-line validator for RAML API descriptions. It hands each
file argument to the RAML parser, normalises the outcome into a VALID verdict or
a list of located issues, and applies two filters: `--no-includes` drops issues
found in included documents, and `--no-warnings` drops warnings. A file whose
issues are all filtered away counts as VALID. The tool prints one line per
verdict or issue, in argument order, and exits with 1 when any issue was
reported. The repository also ships a reporter object (`src/lib/reporter.js`).
It has a normal mode and a json mode, an error counter and a buffer of
collected payloads, and a `flush` that prints the buffer only when the run was
error-free.

The model is purely functional:

- `lines.dfy` (module `Lines`): the `[label] message` line shape shared by the
  tool and the reporter, and the `[name] VALID` line.
- `text.dfy` (module `Text`): decimal rendering of line and column numbers and
  its parser, last occurrence of a character, ASCII lower-casing.
- `paths.dfy` (module `Paths`): `Dirname`, `Basename`, `Join`, a simplified
  POSIX `path.dirname` / `path.join`.
- `locations.dfy` (module `Locations`): the `path:line:column` source label and
  its inverse.
- `validation.dfy` (module `Validation`): `validate`. The parser outcome is an
  input datatype (`Loaded`, `GenericError`, `ParserErrors`). This module holds
  the include and warning filters and the VALID reclassification, plus the
  `forEach`/`push` loop as a method.
- `driver.dfy` (module `Driver`): the per-file loop, the printed lines,
  `errorCount`, the usage case and the exit code.
- `reporter.dfy` (module `Reporter`): the reporter closure as a state machine
  over `State(mode, errorCount, collectedData)`. Every operation returns the new
  state and what it printed, and `Replay` runs a whole call sequence.

## Model

| member | source | states |
|---|---|---|
| Validation.OptionsFromFlags | src/raml-cop.js:93-100 | `--no-includes` / `--no-warnings` clear exactly their switch; with neither flag the options are the defaults (both true) |
| Validation.FromInclude | src/raml-cop.js:49-51 | for a file named without a directory, a record is an include record exactly when its path differs from the filename |
| Validation.Suppressed | src/raml-cop.js:51-52 | default options suppress nothing; a record located in the file itself that is not a warning is never suppressed; with includes reported only warnings can go, and with warnings reported only include records can go |
| Validation.ToReport | src/raml-cop.js:56-60 | the pushed report keeps the record's message and warning flag, and its `src` starts with the resolved path followed by `:` |
| Validation.Collect | src/raml-cop.js:47-61 | the pass never reports more entries than there are parser records |
| Validation.ToReportLocates | src/raml-cop.js:49-60 | a kept record's `src` reads back as (dirname(filename) joined with the record's path, line, column), and the report carries the record's message and warning flag |
| Locations.SplitLocatedSrcRoundTrip | src/raml-cop.js:57 | the `path:line:column` label is always decodable back into its path, line and column, even when the path contains colons |
| Validation.KeptIndices | src/raml-cop.js:51-54 | lists, in strictly increasing order, only positions of records that no filter suppresses |
| Validation.KeptIndicesComplete | src/raml-cop.js:51-54 | every record that no filter suppresses has its position in the list |
| Validation.CollectIsKeptRecords | src/raml-cop.js:47-61 | the reported list is the kept records converted, in their original relative order; a record is dropped iff it is an include record under `--no-includes` or a warning under `--no-warnings` |
| Validation.CollectReports | src/raml-cop.js:47-61 | the imperative `forEach`/`push` loop builds exactly the filtered, converted list |
| Validation.CollectDefaultKeepsAll | src/raml-cop.js:19-24 | with the default options no record is dropped: same length and order as `parserErrors` |
| Validation.NoIncludesKeepsOwnRecords | src/raml-cop.js:51-52 | `--no-includes` never drops a record whose resolved path equals the filename (unless it is a warning under `--no-warnings`) |
| Validation.OwnBasenameIsNotInclude | src/raml-cop.js:49-51 | for a normalised filename (no `.` or `..` segment, no doubled or trailing slash), a record whose path is the file's own base name is not an include record |
| Paths.JoinDirnameBasename | src/raml-cop.js:49 | joining a normalised path's directory with its base name gives the path back (no `.` or `..` segment, no doubled or trailing slash, so Node's join leaves it unchanged) |
| Paths.DotSlashJoinsToBareName | src/raml-cop.js:49-51 | for a `./`-prefixed filename the join drops the `./`, so the file's own records differ from the filename as typed |
| Validation.NoWarningsWithoutWarnings | src/raml-cop.js:51-54 | `--no-warnings` applied to a record list with no warnings changes nothing |
| Validation.NothingKeptIffAllSuppressed | src/raml-cop.js:63-72 | the filtered list is empty exactly when every record is suppressed |
| Validation.Validate | src/raml-cop.js:17-74 | success gives VALID for the filename; a generic error gives one result with the filename, `err.message` and `err.isWarning`; a record list is VALID iff every record is filtered out; a rejection always carries at least one result |
| Validation.ValidateReportsKeptRecords | src/raml-cop.js:63-72 | a rejected record list carries exactly the kept records, converted, in order; VALID iff none is kept |
| Validation.GenericErrorIgnoresOptions | src/raml-cop.js:41-44 | the filter switches never affect a generic error |
| Validation.ValidateDefaultReportsAll | src/raml-cop.js:47-72 | with default options a non-empty record list is rejected with one result per record, in order |
| Lines.BracketLine | src/raml-cop.js:116-127 | a printed line is `[`, the label, `] `, then the message, each at a fixed position |
| Lines.BracketLineInjective | src/raml-cop.js:116-127 | a label without `]` and the message are read back unambiguously from the line |
| Driver.ReportLine | src/raml-cop.js:123-127 | a result prints as `[src] message`: the label in brackets at the start, the message after `] ` (warnings differ only in colour) |
| Driver.VerdictLines | src/raml-cop.js:113-129 | a valid file prints one line, a rejected one prints one line per result |
| Driver.PrintVerdict | src/raml-cop.js:113-129 | printing one verdict appends its lines and adds its result count to `errorCount` |
| Driver.PrintedLinesAppend | src/raml-cop.js:108-131 | output for a concatenation of files is the first part's output followed by the second's |
| Driver.ErrorTotalAppend | src/raml-cop.js:121-129 | `errorCount` over a concatenation is the sum of the parts' counts |
| Driver.ErrorTotalPositiveIffRejected | src/raml-cop.js:121-129 | the count is positive exactly when some verdict is a rejection, given rejections are non-empty |
| Driver.PrintedLinesCount | src/raml-cop.js:113-129 | the number of printed lines is exactly `errorCount` plus the number of valid files |
| Driver.VerdictsOutnumberLines | src/raml-cop.js:113-129 | since a rejection carries at least one result, the count plus the valid files is at least the number of files |
| Driver.PrintedLinesCoverCount | src/raml-cop.js:113-129 | consequences of the exact count: at least one line per file, and at least as many lines as counted results |
| Driver.ProcessAllSnoc | src/raml-cop.js:113-129 | one more file appends its lines after the earlier output and adds exactly its number of results (zero if valid, warnings included) |
| Driver.ProcessAll | src/raml-cop.js:108-131 | the pass over all arguments prints one line per valid file plus one per counted result, so at least one line per file |
| Driver.ProcessAllInArgumentOrder | src/raml-cop.js:108-131 | file i's lines sit after all earlier files' lines and before all later ones; its results are counted between theirs |
| Driver.ProcessAllCounts | src/raml-cop.js:121-137 | `errorCount` is positive iff some file was rejected; the output has exactly one line per valid file plus one per counted result |
| Driver.ProcessFiles | src/raml-cop.js:108-131 | the sequential loop prints and counts exactly what the fold over the arguments prescribes |
| Driver.Cli | src/raml-cop.js:102-137 | no arguments: usage, nothing printed, exit 0; otherwise exit code 1 iff some file was rejected, else 0 |
| Driver.SingleValidFile | src/raml-cop.js:113-117 | a single valid file prints `[file] VALID` and the run exits 0 |
| Driver.NoIncludesHidesIncludedErrors | test/0.8/0.8-tests.js:186-220 | a file whose records all come from includes prints `[file] VALID` under `--no-includes` and exits 0 |
| Driver.NoWarningsHidesWarnings | test/0.8/0.8-tests.js:373-402 | a file whose records are all warnings prints `[file] VALID` under `--no-warnings` and exits 0 |
| Driver.DefaultReportsEveryRecord | test/0.8/0.8-tests.js:342-371 | with default flags every record is printed and counted, and the run exits 1 |
| Reporter.SetMode | src/lib/reporter.js:18-24 | `normal` / `json` in any letter case select that mode; any other value leaves the state unchanged; counter and buffer are never touched |
| Reporter.SetModeJson | src/lib/reporter.js:18-22 | `setMode('json')` selects json mode and changes nothing else |
| Reporter.SetModeIgnoresCase | src/lib/reporter.js:19 | two values equal up to letter case set the same mode |
| Reporter.SetModeIdempotent | src/lib/reporter.js:18-24 | setting the same value twice equals setting it once |
| Reporter.Success | src/lib/reporter.js:26-37 | json mode appends the payload at the end of the buffer and prints nothing; normal mode prints exactly `[name] VALID` and changes no state |
| Reporter.ErrorLabel | src/lib/reporter.js:44-54 | with a problem mark the label reads back as (name, line, column); without one it is the name |
| Reporter.ErrorLine | src/lib/reporter.js:44-54 | an error prints as `[label] ERROR message`, with the label (located or plain) in brackets and the message after `] ERROR ` |
| Reporter.Error | src/lib/reporter.js:39-55 | the counter grows by exactly one, exactly one line is printed in either mode, mode and buffer are unchanged |
| Reporter.Flush | src/lib/reporter.js:57-69 | prints only in json mode with a non-empty buffer and no errors: the single item if one was collected, otherwise the whole buffer in order; then the buffer is empty; otherwise state and output are unchanged |
| Reporter.FlushTwiceEmitsOnce | src/lib/reporter.js:66-67 | a `flush` right after a `flush` prints nothing and changes nothing |
| Reporter.Apply | src/lib/reporter.js:14-69 | only `error` changes the counter, and by exactly one; once the counter is positive, no operation prints anything but text lines |
| Reporter.ReplayCountsErrors | src/lib/reporter.js:42-66 | along any call sequence the counter grows by exactly the number of `error` calls; the reset at line 66 only writes 0 over 0 |
| Reporter.GetErrorCountIsErrorCalls | src/lib/reporter.js:15-17 | `getErrorCount` on a fresh reporter returns the number of `error` calls made so far |
| Reporter.ErrorCountNeverDecreases | src/lib/reporter.js:42-66 | the counter after any prefix of a call sequence is at most the counter after the whole sequence |
| Reporter.ErrorsSilenceJson | src/lib/reporter.js:57-58 | once an error has been counted, no later call prints JSON |
| Reporter.JsonSuccessesAppend | src/lib/reporter.js:29-30 | in json mode a run of successes buffers their payloads in call order and prints nothing |
| Reporter.ReplayAppend | src/lib/reporter.js:14-69 | running two call sequences one after the other on the same reporter gives the state and output of running their concatenation |
| Reporter.JsonRunCollects | src/lib/reporter.js:18-30 | `setMode('json')` on a fresh reporter, then only successes: nothing is printed, the counter stays 0, and the buffer holds the payloads in call order |
| Reporter.JsonRunFlushesCollected | src/lib/reporter.js:57-64 | `setMode('json')`, n ≥ 1 successes, `flush`: exactly one emission, the single payload when n = 1, the array of all payloads in order when n > 1 |

## Left out

- The RAML parser (`raml.loadRAML`) is a foreign call. Its outcome is the
  input datatype `LoadOutcome`, and RAML grammar is not modelled.
- In `LoadOutcome`, an error object without `parserErrors` is `GenericError`. An
  empty `parserErrors` array is truthy in JavaScript, so it takes the record-list
  path and yields VALID. The model has the same behaviour.
- A missing `err.isWarning` on a generic error is modelled as `false`.
- Path handling: `Join` drops a `.` directory and otherwise concatenates with
  one `/`. It does not normalise `..`, `.` or `//` inside a path, as Node's
  `path.join` does. `Dirname` does not ignore trailing slashes.
  Paths.JoinDirnameBasename therefore assumes a normalised path (`PlainPath`),
  for which Node's join does not change anything either.
- Validation.FromInclude: for a filename or record path with a `.` or `..`
  segment or a doubled slash, Node's `path.join` normalises the joined path
  (`x/../api.raml` becomes `api.raml`), so the source can judge such a record
  differently from the model. The model compares the unnormalised join.
- Validation.Collect: its own contract states only the length bound. The exact
  content is stated by Validation.CollectIsKeptRecords together with
  Validation.KeptIndices and Validation.KeptIndicesComplete.
- Output plumbing: `console.log`, colours (`colors`, `--no-color`), `commander`
  parsing, the usage text and `process.exit`. Output is a sequence of plain
  strings or emissions. Usage is a flag, and the exit code is an int.
- Reporter.Flush does not model the exact `JSON.stringify` text. It
  distinguishes only "one value" from "array of values".
- Reporter.SetMode lower-cases ASCII only. For the two accepted values this is
  exact, because no non-ASCII character lower-cases to a single letter of
  `normal` or `json`. A non-string argument, which would throw in
  `toLowerCase`, is not modelled.
- Bluebird promise chaining is modelled as a sequential fold and loop. No
  concurrency is involved.
- Reading standard input (`readStdin` in `src/lib/utils.js`) is stream I/O.
  The standard-input placeholder (`-`) is exercised by the tests, but
  `src/raml-cop.js` only iterates its file arguments, so no input resolver is
  modelled.
- The build and release tooling (`Gruntfile.js`) and the tests' child-process
  harness are not part of this model.
