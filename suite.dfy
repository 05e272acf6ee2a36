/** Running every discovered case in order and tallying the statuses (`runTestCases` in
    snapshot.go). */
module Suite {
  import opened Wrappers
  import opened Tally
  import opened Runner
  import opened Report

  /** The per-case results of a run, in path order, and the snapshots left on disk. */
  datatype SuiteRun = SuiteRun(results: seq<CaseResult>, store: Store)

  /** Runs the cases at `paths` in order, the i-th with the outcomes `envs[i]`; each case sees
      the snapshots as the cases before it left them. */
  function RunAll(store: Store, paths: seq<string>, update: bool, envs: seq<Env>): (run: SuiteRun)
    requires |envs| == |paths|
    ensures |run.results| == |paths|
  {
    if paths == [] then SuiteRun([], store)
    else
      var n := |paths| - 1;
      var before := RunAll(store, paths[..n], update, envs[..n]);
      SuiteRun(before.results + [Classify(before.store, paths[n], update, envs[n])],
               StoreAfter(before.store, paths[n], update, envs[n]))
  }

  function Statuses(rs: seq<CaseResult>): (ss: seq<Status>)
    ensures |ss| == |rs| && forall i :: 0 <= i < |rs| ==> ss[i] == rs[i].status
  {
    seq(|rs|, i requires 0 <= i < |rs| => rs[i].status)
  }

  /** The stderr writes of one case: its text, or none. */
  function Writes(emitted: Option<string>): seq<string> {
    match emitted
    case Some(text) => [text]
    case None => []
  }

  /** What the run writes to stderr through the corrected `printError` (`Report.Emitted`), case by case. */
  function StderrLog(rs: seq<CaseResult>, quiet: bool): seq<string> {
    if rs == [] then []
    else
      var n := |rs| - 1;
      StderrLog(rs[..n], quiet) + Writes(Emitted(rs[n].err, quiet))
  }

  /** Without update mode nothing is written, so every case compares against the snapshots the
      run started with. */
  lemma {:induction false} CompareRunLeavesSnapshots(store: Store, paths: seq<string>, envs: seq<Env>)
    requires |envs| == |paths|
    ensures RunAll(store, paths, false, envs).store == store
    ensures forall i :: 0 <= i < |paths| ==>
      RunAll(store, paths, false, envs).results[i] == Classify(store, paths[i], false, envs[i])
  {
    if paths != [] {
      var n := |paths| - 1;
      CompareRunLeavesSnapshots(store, paths[..n], envs[..n]);
    }
  }

  lemma RunAllStep(store: Store, paths: seq<string>, update: bool, envs: seq<Env>, i: nat)
    requires |envs| == |paths| && i < |paths|
    ensures var before := RunAll(store, paths[..i], update, envs[..i]);
      RunAll(store, paths[..i + 1], update, envs[..i + 1]) ==
        SuiteRun(before.results + [Classify(before.store, paths[i], update, envs[i])],
                 StoreAfter(before.store, paths[i], update, envs[i]))
  {
    assert paths[..i + 1][..i] == paths[..i] && envs[..i + 1][..i] == envs[..i];
  }

  lemma AppendOneResult(rs: seq<CaseResult>, r: CaseResult, quiet: bool)
    ensures Statuses(rs + [r]) == Statuses(rs) + [r.status]
    ensures TallyOf(Statuses(rs + [r])) == TallyOf(Statuses(rs))[r.status := Count(TallyOf(Statuses(rs)), r.status) + 1]
    ensures StderrLog(rs + [r], quiet) ==
      StderrLog(rs, quiet) + Writes(Emitted(r.err, quiet))
  {
    assert (rs + [r])[..|rs|] == rs;
    assert Statuses(rs + [r])[..|rs|] == Statuses(rs);
  }

  /** Every case of a run is counted once, and the run fails exactly when some case failed. */
  lemma RunTally(sr: SuiteResult, store: Store, paths: seq<string>, update: bool, envs: seq<Env>)
    requires |envs| == |paths|
    requires sr.results == TallyOf(Statuses(RunAll(store, paths, update, envs).results))
    ensures Total(sr.results) == |paths|
    ensures sr.ExitCode() == 1 <==>
      exists i :: 0 <= i < |paths| && RunAll(store, paths, update, envs).results[i].status == Failed
  {
    var ss := Statuses(RunAll(store, paths, update, envs).results);
    TallyTotal(ss);
    ExitCodeOfTally(sr, ss);
  }

  /** One iteration of `runTestCases`: runs the case, decides what the corrected `printError`
      (`Report.Emitted`) writes, and adds the status to the tally. */
  method RunAndReport(fs: Filesystem, suiteResult: SuiteResult, path: string, update: bool, quiet: bool, env: Env)
    returns (emitted: Option<string>)
    modifies fs, suiteResult
    ensures var r := Classify(old(fs.snapshots), path, update, env);
      && fs.snapshots == StoreAfter(old(fs.snapshots), path, update, env)
      && suiteResult.results == old(suiteResult.results)[r.status := Count(old(suiteResult.results), r.status) + 1]
      && emitted == Emitted(r.err, quiet)
  {
    var status, duration, err := RunTestCase(fs, path, update, env);
    emitted := Emitted(err, quiet);
    suiteResult.Add(status);
  }

  /** Where `runTestCases` stands after its first `i` cases: the tally, the snapshots and what
      went to stderr (through the corrected `printError`) are those of running exactly those cases. */
  ghost predicate ReportedUpTo(initial: Store, paths: seq<string>, update: bool, quiet: bool, envs: seq<Env>, i: nat,
                               tally: map<Status, nat>, store: Store, stderr: seq<string>)
    requires |envs| == |paths| && i <= |paths|
  {
    var run := RunAll(initial, paths[..i], update, envs[..i]);
    tally == TallyOf(Statuses(run.results)) && store == run.store && stderr == StderrLog(run.results, quiet)
  }

  /** Running case `i` on top of the state after the first `i` cases gives the state after the
      first `i + 1`. */
  lemma {:induction false} ReportedStep(initial: Store, paths: seq<string>, update: bool, quiet: bool, envs: seq<Env>,
                                        i: nat, tally: map<Status, nat>, store: Store, stderr: seq<string>)
    requires |envs| == |paths| && i < |paths|
    requires ReportedUpTo(initial, paths, update, quiet, envs, i, tally, store, stderr)
    ensures var r := Classify(store, paths[i], update, envs[i]);
      ReportedUpTo(initial, paths, update, quiet, envs, i + 1,
                   tally[r.status := Count(tally, r.status) + 1],
                   StoreAfter(store, paths[i], update, envs[i]),
                   stderr + Writes(Emitted(r.err, quiet)))
  {
    var before := RunAll(initial, paths[..i], update, envs[..i]);
    var r := Classify(store, paths[i], update, envs[i]);
    RunAllStep(initial, paths, update, envs, i);
    AppendOneResult(before.results, r, quiet);
  }

  /** The body of the loop in `runTestCases`: runs case `i` and keeps `ReportedUpTo`. */
  method RunNext(fs: Filesystem, suiteResult: SuiteResult, ghost initial: Store, paths: seq<string>, update: bool,
                 quiet: bool, envs: seq<Env>, i: nat, stderr: seq<string>)
    returns (stderr': seq<string>)
    requires |envs| == |paths| && i < |paths|
    requires ReportedUpTo(initial, paths, update, quiet, envs, i, suiteResult.results, fs.snapshots, stderr)
    modifies fs, suiteResult
    ensures ReportedUpTo(initial, paths, update, quiet, envs, i + 1, suiteResult.results, fs.snapshots, stderr')
  {
    ghost var tally, store := suiteResult.results, fs.snapshots;
    ghost var r := Classify(store, paths[i], update, envs[i]);
    ReportedStep(initial, paths, update, quiet, envs, i, tally, store, stderr);
    var emitted := RunAndReport(fs, suiteResult, paths[i], update, quiet, envs[i]);
    stderr' := stderr + Writes(emitted);
    assert suiteResult.results == tally[r.status := Count(tally, r.status) + 1];
    assert fs.snapshots == StoreAfter(store, paths[i], update, envs[i]);
    assert stderr' == stderr + Writes(Emitted(r.err, quiet));
  }

  /** `runTestCases(paths, update, quiet)`: runs every case, never stopping early, and adds each
      status to a fresh tally. */
  method RunTestCases(fs: Filesystem, paths: seq<string>, update: bool, quiet: bool, envs: seq<Env>)
    returns (suiteResult: SuiteResult, stderr: seq<string>)
    requires |envs| == |paths|
    modifies fs
    ensures fresh(suiteResult)
    ensures Total(suiteResult.results) == |paths|
    ensures suiteResult.ExitCode() == 1 <==>
      exists i :: 0 <= i < |paths| && RunAll(old(fs.snapshots), paths, update, envs).results[i].status == Failed
    ensures var run := RunAll(old(fs.snapshots), paths, update, envs);
      && suiteResult.results == TallyOf(Statuses(run.results))
      && fs.snapshots == run.store
      && stderr == StderrLog(run.results, quiet)
  {
    ghost var initial := fs.snapshots;
    suiteResult := new SuiteResult();
    stderr := [];
    for i := 0 to |paths|
      invariant ReportedUpTo(initial, paths, update, quiet, envs, i, suiteResult.results, fs.snapshots, stderr)
    {
      stderr := RunNext(fs, suiteResult, initial, paths, update, quiet, envs, i, stderr);
    }
    assert paths[..|paths|] == paths && envs[..|envs|] == envs;
    RunTally(suiteResult, initial, paths, update, envs);
  }
}
