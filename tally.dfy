/** The per-status counting map of a suite run (`SuiteResult` in snapshot.go). */
module Tally {
  /** The four terminal states of a test case. */
  datatype Status = Passed | Failed | Skipped | Updated

  /** The count a tally holds for `s`; a status never added reads as zero, as a missing key of a Go map does. */
  function Count(m: map<Status, nat>, s: Status): nat {
    if s in m then m[s] else 0
  }

  /** The sum of the counts of all four statuses. */
  function Total(m: map<Status, nat>): nat {
    Count(m, Passed) + Count(m, Failed) + Count(m, Skipped) + Count(m, Updated)
  }

  /** The tally reached by adding the statuses of `ss` one at a time, in order, to an empty tally. */
  function TallyOf(ss: seq<Status>): map<Status, nat> {
    if ss == [] then map[]
    else
      var m := TallyOf(ss[..|ss| - 1]);
      var s := ss[|ss| - 1];
      m[s := Count(m, s) + 1]
  }

  /** Each status is counted as often as it occurs. */
  lemma {:induction false} TallyCounts(ss: seq<Status>, s: Status)
    ensures Count(TallyOf(ss), s) == multiset(ss)[s]
  {
    if ss != [] {
      var init := ss[..|ss| - 1];
      TallyCounts(init, s);
      assert ss == init + [ss[|ss| - 1]];
    }
  }

  /** The counts add up to the number of statuses added. */
  lemma {:induction false} TallyTotal(ss: seq<Status>)
    ensures Total(TallyOf(ss)) == |ss|
  {
    if ss != [] {
      var m, s := TallyOf(ss[..|ss| - 1]), ss[|ss| - 1];
      TallyTotal(ss[..|ss| - 1]);
      assert forall t :: t != s ==> Count(TallyOf(ss), t) == Count(m, t);
    }
  }

  /** The tally has a key for exactly the statuses that occurred, each with a positive count,
      so a summary built from its entries names every occurring status once and no other. */
  lemma {:induction false} TallyKeys(ss: seq<Status>)
    ensures TallyOf(ss).Keys == set s | s in ss
    ensures forall s :: s in TallyOf(ss) ==> TallyOf(ss)[s] > 0
  {
    if ss != [] {
      var init := ss[..|ss| - 1];
      TallyKeys(init);
      assert ss == init + [ss[|ss| - 1]];
    }
  }

  /** The aggregate result of a suite run: a count per status, updated in place. */
  class SuiteResult {
    var results: map<Status, nat>

    /** `NewSuiteResult`: an empty tally. */
    constructor ()
      ensures results == map[]
    {
      results := map[];
    }

    /** Counts one more case with status `s`. */
    method Add(s: Status)
      modifies this
      ensures results == old(results)[s := Count(old(results), s) + 1]
      ensures Count(results, s) == Count(old(results), s) + 1
      ensures forall t :: t != s ==> Count(results, t) == Count(old(results), t)
    {
      results := results[s := Count(results, s) + 1];
    }

    /** The process exit code: 1 when some case failed, 0 otherwise. */
    function ExitCode(): (code: int)
      reads this
      ensures code == 0 || code == 1
      ensures code == 1 <==> Count(results, Failed) > 0
    {
      if Count(results, Failed) > 0 then 1 else 0
    }
  }

  /** Whatever the passed, skipped and updated counts, the exit code of a tally built from `ss`
      signals failure exactly when some case failed. */
  lemma ExitCodeOfTally(sr: SuiteResult, ss: seq<Status>)
    requires sr.results == TallyOf(ss)
    ensures sr.ExitCode() == 1 <==> Failed in ss
    ensures sr.ExitCode() == 0 <==> forall i :: 0 <= i < |ss| ==> ss[i] != Failed
  {
    TallyCounts(ss, Failed);
  }
}
