# snapshot — a verified model of the test runner's engine

`snapshot` is a regression test runner for executables. It finds every executable file under the
paths it is given, runs each one and compares the combined stdout and stderr against a golden
file `<path>.snapshot`. It reports each case as PASSED, FAILED, SKIPPED or UPDATED, and it exits
with 1 when any case failed. Update mode (`-u`) records the output as the new snapshot instead
of comparing. Quiet mode (`-q`) hides diffs.

This Dafny project models the runner's engine, as written in `snapshot.go`:

- `tally.dfy` (module `Tally`): the four statuses and `SuiteResult`. This is a class whose
  counting map `Add` updates in place, with `ExitCode`. `TallyOf` is the tally reached by adding a
  sequence of statuses, and lemmas relate it to the multiset of statuses.
- `discovery.dfy` (module `Discovery`): `isExecutable` and `parsePaths` over a filesystem given as
  a tree of what `os.Stat` and `os.ReadDir` report.
  - `ParsePaths` and `ParseOne` are the imperative walk, proved equal to the recursive
    specification `Discover`.
  - `Discover` is proved equal to a reference view, `Scan`: the reachable paths listed in
    pre-order and then scanned one by one.
  - From that view, the lemmas state what is returned, in what order, and which error is
    returned.
- `runner.dfy` (module `Runner`): `runTestCase`. Snapshots are a map from path to bytes, held by
  a `Filesystem` object that update mode changes in place. Everything the case learns from
  outside is an input `Env`: the child process, the elapsed time, the temporary file, `os.Rename`
  and the external `diff`.
  - `Classify` and `StoreAfter` specify the method `RunTestCase`.
  - The lemmas state each outcome, byte-equality and update-then-compare.
- `report.dfy` (module `Report`): what `printError` is meant to write (`Emitted`: the diff unchanged) and `getMaxWidth`. It also contains the
  as-written model of `printError`, which hands the diff to `fmt.Fprintf` as a format string (see
  Findings).
- `durations.dfy` (module `Durations`): the rounding `formatDuration` applies before printing.
  This is `Duration.Round` (halves away from zero) and the loop over units from a second down to
  a microsecond.
- `suite.dfy` (module `Suite`): `runTestCases`. It runs every case in order, each against the
  snapshots the earlier cases left, and tallies every status once. Its exit code is 1 exactly
  when some case failed.
- `wrappers.dfy` (module `Wrappers`): `Option` and `Result`.

The code and its doc comment disagree in one place. The comment on `isExecutable`
(snapshot.go:74) says "executable by user, group and other". The code tests `mode & 0111 != 0`,
which accepts a file that any one of the three may execute. The model follows the code, and
`Discovery.ExecutableIffAnyExecuteBit` states the difference.

## Model

| member | source | states |
|---|---|---|
| Tally.SuiteResult.constructor | snapshot.go:51-53 | a new tally is empty |
| Tally.SuiteResult.Add | snapshot.go:55-57 | the count of the added status grows by one (a missing key counts as 0); every other count is unchanged |
| Tally.SuiteResult.ExitCode | snapshot.go:67-72 | the exit code is 0 or 1, and it is 1 exactly when the Failed count is positive |
| Tally.TallyCounts | snapshot.go:55-57 | after adding a sequence of statuses, each count equals the number of times that status occurs |
| Tally.TallyTotal | snapshot.go:55-57 | the counts add up to the number of statuses added |
| Tally.TallyKeys | snapshot.go:59-65 | the tally has a key for exactly the statuses that occurred, each with a positive count, so the summary lists each tallied status once |
| Tally.ExitCodeOfTally | snapshot.go:67-72 | for a tally built from a sequence, the exit code is 1 iff Failed occurs, and 0 iff no element is Failed, whatever the other counts |
| Discovery.ExecutableIffAnyExecuteBit | snapshot.go:74-81 | the mode test accepts exactly the modes with an execute bit for user, group or other; an owner-only rwx------ file counts as executable |
| Discovery.Children | snapshot.go:103-107 | the sub-paths of a directory come one per entry, in listing order, each the entry name joined to the directory path; `os.ReadDir` lists in name order, and the model accepts any order, so its lemmas cover that one |
| Discovery.DiscoverAppend | snapshot.go:85-118 | the result for a list of inputs is the results of its parts in order; an error in an earlier part hides everything after it |
| Discovery.DiscoverDirectory | snapshot.go:98-114 | a directory yields what its joined entries yield, in listing order |
| Discovery.DiscoverIsPreorderScan | snapshot.go:85-118 | the recursive descent equals visiting, in order, the pre-order list of every path reachable from the inputs |
| Discovery.DiscoverOneIsPreorderScan | snapshot.go:88-115 | the same for one input: a directory is visited before its entries |
| Discovery.DiscoverOutputs | snapshot.go:92-97 | on success the result holds one entry per reachable executable non-directory, in pre-order, each its `filepath.Abs` value; no directory is ever returned |
| Discovery.DiscoverErrors | snapshot.go:88-111 | discovery fails iff some reachable path fails stat, ReadDir or Abs; it then returns the first such error in pre-order and no paths |
| Discovery.FailureIsFinal | snapshot.go:89-91 | once the inputs before some point have failed, the inputs after it do not change the result |
| Discovery.JoinEntries | snapshot.go:103-107 | the joining loop builds exactly `Children` |
| Discovery.AppendAll | snapshot.go:112-114 | the append loop extends `out` by exactly the recursive results, in order |
| Discovery.ParseOne | snapshot.go:88-115 | one iteration (stat, keep an executable's absolute path, descend into a directory, or stop at an error) returns what the specification gives for that input |
| Discovery.ParsePaths | snapshot.go:85-118 | the walk returns exactly `Discover` of its inputs, so all the lemmas above hold of it |
| Runner.Classify | snapshot.go:167-212 | Skipped iff not updating and no snapshot; the duration is 0 when skipped and the elapsed time otherwise; the error is nil iff the status is not Failed; Updated only in update mode after a clean run; Passed only in compare mode when diff exited cleanly; a process error fails the case with that error; a `NonemptyDiffError` carries diff's non-empty output |
| Runner.StoreAfter | snapshot.go:193-198 | only an Updated case writes, it writes the captured output under `<path>.snapshot`, and no other snapshot changes |
| Runner.RunFailures | snapshot.go:179-196 | once the case runs, a process error, a temp-file creation or write error, or a rename error fails it with that error (prefixed by the step's message); the first three write nothing |
| Runner.UpdateRecordsOutput | snapshot.go:193-198 | in update mode a clean run whose rename succeeds is Updated, with or without a prior snapshot, and the snapshot then holds exactly the captured output |
| Runner.CompareOutcomes | snapshot.go:199-207 | in compare mode a clean run passes when diff succeeds; diff failure with no output is a plain "diff failed" error; otherwise it is a `NonemptyDiffError` with diff's output; nothing is written |
| Runner.CompareIsByteEquality | snapshot.go:199-207 | given a diff tool that succeeds exactly on identical files, a clean run passes iff its output equals the snapshot byte for byte |
| Runner.SkipWithoutSnapshot | snapshot.go:174 | without a snapshot and outside update mode the case is Skipped with zero duration and no error, and nothing changes |
| Runner.UpdateThenCompare | snapshot.go:193-207 | recording a snapshot in update mode and then comparing the same output against it passes and writes nothing |
| Runner.RunTestCase | snapshot.go:167-212 | the method returns `Classify` of the snapshots it started with and leaves the snapshots `StoreAfter` says |
| Report.Emitted | snapshot.go:155-165 | nothing is written iff there is no error or the error is a diff in quiet mode; a diff is written as it is; any other error is written followed by a newline |
| Report.QuietHidesOnlyDiffs | snapshot.go:155-165 | quiet mode suppresses diffs and changes nothing else |
| Report.QuietHidesDiffTrouble | snapshot.go:200-205 | a `diff` that fails after printing a message, such as its own complaint about an unreadable snapshot, yields a `NonemptyDiffError` with that message, which quiet mode hides like any difference |
| Report.FormatNoArgs | snapshot.go:158 | `Sprintf` with no arguments returns a string without '%' unchanged |
| Report.FormatOrdinary | snapshot.go:158 | `Sprintf` with no arguments copies a character other than '%' as it is |
| Report.FormatMissingVerb | snapshot.go:158 | `Sprintf` with no arguments prints "%!c(MISSING)" for a verb c that has no argument |
| Report.FormatPlainPrefix | snapshot.go:158 | `Sprintf` with no arguments passes text without '%' through unchanged, whatever follows it |
| Report.FormatPlainThenVerb | snapshot.go:158 | plain text followed by '%' and a verb comes out with "%!verb(MISSING)" in place of those two characters |
| Report.EmittedAsWritten | snapshot.go:155-165 | as written, `printError` writes something exactly when `Emitted` does, and the same text when the diff has no '%' |
| Report.PercentInDiffIsMangled | snapshot.go:158 | as written, any diff made of plain text followed by '%' and a verb is printed differently from the text diff produced |
| Report.PercentInDiffExample | snapshot.go:158 | as written, the diff output "1d0\n< 5%\n" (a deleted line "5%") is printed as "1d0\n< 5%!\n(MISSING)" instead of unchanged |
| Report.GetMaxWidth | snapshot.go:214-223 | the result is at least the length of every base name, and it is 0 or the length of one of them |
| Durations.RoundIsNearestMultiple | snapshot.go:132-136 | `Round(d, m)` is a multiple of m within half of m of d, and halfway cases go up |
| Durations.LargestUnitBelow | snapshot.go:134-135 | the unit the loop stops at is the largest of 1s, 100ms, 10ms, 1ms, 100µs, 10µs and 1µs that is strictly below d |
| Durations.DisplayRoundedPrecision | snapshot.go:130-141 | above a minute the displayed duration is whole seconds, within half a second; between 1µs and a minute it is a multiple of the unit/100 step and off by less than 0.5% of d; at or below 1µs it is exact |
| Durations.FormatDurationTestTable | snapshot_test.go:8-22 | the rounded values behind the nine expected strings of the source's test table (0s, 12ns, 123ns, 1.23µs, 12.3µs, 123µs, 12.35s, 1m1s, 1m1s) |
| Durations.FormatDurationRounding | snapshot.go:130-139 | the loop over units returns `DisplayRounded(d)` |
| Suite.RunAll | snapshot.go:225-236 | a run yields exactly one result per path |
| Suite.CompareRunLeavesSnapshots | snapshot.go:225-236 | without update mode no snapshot changes, so every case is classified against the snapshots the run started with |
| Suite.RunTally | snapshot.go:225-236 | the final tally counts every case once, so the counts sum to the number of paths, and the exit code is 1 iff some case failed |
| Suite.RunAndReport | snapshot.go:229-233 | one iteration runs the case, emits what the corrected `printError` (`Report.Emitted`) writes for its error, and adds its status to the tally |
| Suite.RunNext | snapshot.go:228-234 | one iteration keeps the tally, the snapshots and the stderr log (what the corrected `printError`, `Report.Emitted`, writes) equal to those of running the cases so far |
| Suite.RunTestCases | snapshot.go:225-236 | the method returns a fresh tally of every case's status, with counts summing to the number of paths and exit code 1 iff some case failed; the snapshots are those of running the cases in order, and the stderr log holds what the corrected `printError` (`Report.Emitted`) writes for each case |

## Left out

- `main`, flag parsing, the usage text and the "No test cases found" exit (snapshot.go:238-266) are command-line plumbing. `RunTestCases` starts from a list of paths that is already known.
- Colours, `colorString`, `printName` padding and `printStatus` are presentation. They are not modelled. `Report.GetMaxWidth` is modelled on its own, and `Suite.RunTestCases` does not call it, because its result only sets padding.
- `Summary`: the order of its parts follows Go's map iteration, which is not deterministic. The text is not modelled. `Tally.TallyKeys` states that the tally names each occurring status once.
- `getDiff`, `exec.Command`/`CombinedOutput`, `time.Now`/`time.Since`, `os.CreateTemp`, `Write`, `Rename` and the deferred `os.Remove` are not modelled as operations. Only their outcomes are, as the fields of `Runner.Env`. The temporary file's contents and its removal are not represented.
- Runner.RunTestCase: a snapshot counts as present when its path is a key of the store. Any `os.Stat` error on the snapshot path counts as absent, as the source's `err == nil` test does.
- Runner.CompareIsByteEquality and `Runner.UpdateThenCompare` require a `diff` tool that succeeds exactly on identical files and prints something when they differ (`Runner.DiffAgrees`). That is what `diff` promises, not something the model can check.
- Discovery.ParsePaths: the filesystem is a finite tree, and symbolic links are not modelled as links. `os.Stat` follows links, so a link back to an ancestor directory makes the source descend until the operating system rejects the path (on Linux, after about 40 links, with a stat error). That case is expressible as a chain of `Dir` nodes ending in a `StatFailure`, but the model does not derive it from a link. That stat error then aborts discovery (snapshot.go:89-90, 109-110), so nothing after it is visited, and `main` prints 'Error parsing paths' and exits with 1 (snapshot.go:250-254).
- Discovery.ParsePaths: the second `os.Stat` inside `isExecutable` is taken to see the same file as the first. A file that changes between the two stats (a race) is not modelled.
- `filepath.Join`, `filepath.Abs` and `filepath.Base` are uninterpreted function parameters. Only `Abs` may fail.
- Report.GetMaxWidth measures names in characters, not in the UTF-8 bytes Go's `len` counts.
- Report.EmittedAsWritten models Go's `fmt` only for format strings in which no '%' is followed by a flag, a width, a precision or an argument index (`Report.PlainDirectives`). The finding needs no more than that.
- Durations.FormatDurationRounding covers only the rounding. The text `Duration.String` prints is not modelled, and neither are negative durations or int64 saturation in `Round`. Durations are naturals in nanoseconds.
- Suite.RunAndReport, Suite.RunNext and Suite.RunTestCases: the stderr log holds what the corrected `printError` (`Report.Emitted`) writes, the diff unchanged. As written, a diff holding '%' comes out altered (see Findings, `Report.EmittedAsWritten`). Only the decision to write or not is the source's own.
- Suite.RunTestCases requires one `Env` per path, the outcomes of that path's run. The concurrency-free, in-order execution of the source is the model's only schedule.

## Findings

| source | as written | input that shows it | evidently intended | confidence | as-written member | corrected member |
|---|---|---|---|---|---|---|
| snapshot.go:158 | `fmt.Fprintf(os.Stderr, nderr.diff)` passes diff's output to `Fprintf` as the format string, with no arguments | a failing case whose expected output had a line "5%" that is now missing: diff prints "1d0\n< 5%\n" and stderr shows "1d0\n< 5%!\n(MISSING)" | write the diff text unchanged (`fmt.Fprint(os.Stderr, nderr.diff)`) | not executed | Report.PercentInDiffIsMangled | Report.Emitted |
