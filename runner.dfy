/** Running one test case and classifying its outcome (`runTestCase` in snapshot.go).
    The child process, the temporary file, `os.Rename` and the external `diff` tool are oracles:
    their outcomes are inputs, bundled in an `Env`. */
module Runner {
  import opened Wrappers
  import opened Tally

  newtype byte = b: int | 0 <= b < 256

  /** The snapshot files on disk, by path. */
  type Store = map<string, seq<byte>>

  /** Where the golden output of the case at `path` is kept. */
  function SnapshotPath(path: string): string {
    path + ".snapshot"
  }

  /** `exec.Command(path).CombinedOutput()`: stdout and stderr together, and the error, if any. */
  datatype ProcessOutcome = ProcessOutcome(output: seq<byte>, err: Option<string>)

  /** `diff snapPath tmpfile`: what it printed, and its error (a non-zero exit), if any. */
  datatype DiffOutcome = DiffOutcome(text: string, err: Option<string>)

  /** Everything `runTestCase` learns from outside the model. */
  datatype Env = Env(
    process: ProcessOutcome,   // the run of the case
    elapsed: nat,              // time.Since(start), in nanoseconds
    createErr: Option<string>, // os.CreateTemp
    writeErr: Option<string>,  // tmpfile.Write
    renameErr: Option<string>, // os.Rename onto the snapshot (update mode)
    diff: DiffOutcome)         // the external diff (compare mode)

  /** The error `runTestCase` returns: a plain error value or a `NonemptyDiffError`. */
  datatype CaseError = PlainError(text: string) | NonemptyDiffError(diff: string)

  /** The three results of `runTestCase`; `None` is a nil error. */
  datatype CaseResult = CaseResult(status: Status, duration: nat, err: Option<CaseError>)

  /** The status, duration and error `runTestCase(path, update)` returns when the snapshots on
      disk are `store`. */
  function Classify(store: Store, path: string, update: bool, env: Env): (r: CaseResult)
    ensures r.status == Skipped <==> !update && SnapshotPath(path) !in store
    ensures r.duration == if r.status == Skipped then 0 else env.elapsed
    ensures r.err.None? <==> r.status != Failed
    ensures r.status == Updated ==> update && env.process.err.None?
    ensures r.status == Passed ==> !update && env.process.err.None? && env.diff.err.None?
    ensures r.status != Skipped && env.process.err.Some? ==>
      r.status == Failed && r.err == Some(PlainError(env.process.err.value))
    ensures r.err.Some? && r.err.value.NonemptyDiffError? ==>
      !update && env.diff.err.Some? && r.err.value.diff == env.diff.text != ""
  {
    if !update && SnapshotPath(path) !in store then
      CaseResult(Skipped, 0, None)
    else if env.process.err.Some? then
      CaseResult(Failed, env.elapsed, Some(PlainError(env.process.err.value)))
    else if env.createErr.Some? then
      CaseResult(Failed, env.elapsed, Some(PlainError("creating temp file: " + env.createErr.value)))
    else if env.writeErr.Some? then
      CaseResult(Failed, env.elapsed, Some(PlainError("writing to temp file: " + env.writeErr.value)))
    else if update then
      if env.renameErr.Some? then
        CaseResult(Failed, env.elapsed, Some(PlainError("updating snapshot: " + env.renameErr.value)))
      else
        CaseResult(Updated, env.elapsed, None)
    else if env.diff.err.Some? then
      if env.diff.text == "" then
        CaseResult(Failed, env.elapsed, Some(PlainError("diff failed: " + env.diff.err.value)))
      else
        CaseResult(Failed, env.elapsed, Some(NonemptyDiffError(env.diff.text)))
    else
      CaseResult(Passed, env.elapsed, None)
  }

  /** The snapshots after `runTestCase(path, update)`: only a successful update writes, and it
      writes the captured output to the case's own snapshot path. */
  function StoreAfter(store: Store, path: string, update: bool, env: Env): (s: Store)
    ensures s - {SnapshotPath(path)} == store - {SnapshotPath(path)}
    ensures Classify(store, path, update, env).status == Updated ==>
      SnapshotPath(path) in s && s[SnapshotPath(path)] == env.process.output
    ensures Classify(store, path, update, env).status != Updated ==> s == store
  {
    if Classify(store, path, update, env).status == Updated then
      store[SnapshotPath(path) := env.process.output]
    else
      store
  }

  /** What the external `diff` tool promises: a clean exit exactly when the two files hold the
      same bytes, and some output whenever they differ. */
  predicate DiffAgrees(stored: seq<byte>, candidate: seq<byte>, d: DiffOutcome) {
    (d.err.None? <==> stored == candidate) && (stored != candidate ==> d.text != "")
  }

  /** The run itself succeeded and the temporary file was written. */
  predicate RanCleanly(env: Env) {
    env.process.err.None? && env.createErr.None? && env.writeErr.None?
  }

  /** Once the case runs, a process error fails it with that very error, and a failure to create
      or write the temporary file, or to rename it onto the snapshot, fails it with a plain error
      naming the step. */
  lemma RunFailures(store: Store, path: string, update: bool, env: Env)
    requires update || SnapshotPath(path) in store
    ensures env.process.err.Some? ==>
      Classify(store, path, update, env) == CaseResult(Failed, env.elapsed, Some(PlainError(env.process.err.value)))
    ensures env.process.err.None? && env.createErr.Some? ==>
      Classify(store, path, update, env) ==
        CaseResult(Failed, env.elapsed, Some(PlainError("creating temp file: " + env.createErr.value)))
    ensures env.process.err.None? && env.createErr.None? && env.writeErr.Some? ==>
      Classify(store, path, update, env) ==
        CaseResult(Failed, env.elapsed, Some(PlainError("writing to temp file: " + env.writeErr.value)))
    ensures update && RanCleanly(env) && env.renameErr.Some? ==>
      Classify(store, path, update, env) ==
        CaseResult(Failed, env.elapsed, Some(PlainError("updating snapshot: " + env.renameErr.value)))
    ensures env.process.err.Some? || env.createErr.Some? || env.writeErr.Some? ==>
      StoreAfter(store, path, update, env) == store
  {
  }

  /** In update mode a clean run whose rename succeeds is `Updated`, whether or not a snapshot
      existed, and leaves exactly the captured output in the snapshot. */
  lemma UpdateRecordsOutput(store: Store, path: string, env: Env)
    requires RanCleanly(env) && env.renameErr.None?
    ensures Classify(store, path, true, env) == CaseResult(Updated, env.elapsed, None)
    ensures StoreAfter(store, path, true, env) == store[SnapshotPath(path) := env.process.output]
  {
  }

  /** In compare mode a clean run passes when `diff` exits cleanly; when `diff` fails, the case
      fails with a plain error if `diff` printed nothing, and with its output as a
      `NonemptyDiffError` otherwise. */
  lemma CompareOutcomes(store: Store, path: string, env: Env)
    requires SnapshotPath(path) in store && RanCleanly(env)
    ensures env.diff.err.None? ==> Classify(store, path, false, env) == CaseResult(Passed, env.elapsed, None)
    ensures env.diff.err.Some? && env.diff.text == "" ==>
      Classify(store, path, false, env) ==
        CaseResult(Failed, env.elapsed, Some(PlainError("diff failed: " + env.diff.err.value)))
    ensures env.diff.err.Some? && env.diff.text != "" ==>
      Classify(store, path, false, env) == CaseResult(Failed, env.elapsed, Some(NonemptyDiffError(env.diff.text)))
    ensures StoreAfter(store, path, false, env) == store
  {
  }

  /** With a snapshot present and a faithful `diff`, a clean run passes exactly when its output
      is byte-identical to the snapshot, and otherwise fails with the diff text as a
      `NonemptyDiffError`. */
  lemma CompareIsByteEquality(store: Store, path: string, env: Env)
    requires SnapshotPath(path) in store && RanCleanly(env)
    requires DiffAgrees(store[SnapshotPath(path)], env.process.output, env.diff)
    ensures var r := Classify(store, path, false, env);
      && (r.status == Passed <==> store[SnapshotPath(path)] == env.process.output)
      && (store[SnapshotPath(path)] != env.process.output ==>
            r.status == Failed && r.err == Some(NonemptyDiffError(env.diff.text)))
  {
  }

  /** A case with no snapshot, outside update mode, is skipped without running and changes nothing. */
  lemma SkipWithoutSnapshot(store: Store, path: string, env: Env)
    requires SnapshotPath(path) !in store
    ensures Classify(store, path, false, env) == CaseResult(Skipped, 0, None)
    ensures StoreAfter(store, path, false, env) == store
  {
  }

  /** Recording a snapshot in update mode and then comparing the same output against it passes. */
  lemma UpdateThenCompare(store: Store, path: string, first: Env, second: Env)
    requires RanCleanly(first) && first.renameErr.None?
    requires RanCleanly(second) && second.process.output == first.process.output
    requires var s := StoreAfter(store, path, true, first);
      SnapshotPath(path) in s && DiffAgrees(s[SnapshotPath(path)], second.process.output, second.diff)
    ensures Classify(store, path, true, first).status == Updated
    ensures var s := StoreAfter(store, path, true, first);
      Classify(s, path, false, second).status == Passed && StoreAfter(s, path, false, second) == s
  {
  }

  /** The filesystem holding the snapshots, which update mode changes in place. */
  class Filesystem {
    var snapshots: Store

    constructor (snapshots: Store)
      ensures this.snapshots == snapshots
    {
      this.snapshots := snapshots;
    }
  }

  /** `runTestCase(path, update)`. */
  method RunTestCase(fs: Filesystem, path: string, update: bool, env: Env)
    returns (status: Status, dur: nat, err: Option<CaseError>)
    modifies fs
    ensures CaseResult(status, dur, err) == Classify(old(fs.snapshots), path, update, env)
    ensures fs.snapshots == StoreAfter(old(fs.snapshots), path, update, env)
  {
    status, dur, err := Skipped, 0, None;
    var snapPath := SnapshotPath(path);
    if snapPath in fs.snapshots || update {
      var output := env.process.output;
      dur := env.elapsed;
      if env.process.err.Some? {
        return Failed, dur, Some(PlainError(env.process.err.value));
      }
      if env.createErr.Some? {
        return Failed, dur, Some(PlainError("creating temp file: " + env.createErr.value));
      }
      if env.writeErr.Some? {
        return Failed, dur, Some(PlainError("writing to temp file: " + env.writeErr.value));
      }
      if update {
        if env.renameErr.Some? {
          return Failed, dur, Some(PlainError("updating snapshot: " + env.renameErr.value));
        }
        fs.snapshots := fs.snapshots[snapPath := output];
        status := Updated;
      } else {
        var diff := env.diff;
        if diff.err.Some? {
          if diff.text == "" {
            return Failed, dur, Some(PlainError("diff failed: " + diff.err.value));
          }
          return Failed, dur, Some(NonemptyDiffError(diff.text));
        }
        return Passed, dur, None;
      }
    }
    return status, dur, None;
  }
}
