/** Counting consecutive Unauthenticated answers, and recovering once per full run of them. */
module AuthRecovery {

  const FailureThreshold := 5

  /** The outcome of an RPC as recordResult tells them apart. */
  datatype Answer = Fine | Unauthenticated | OtherError

  class Recovery {
    var failures: nat
    var recoveries: nat

    constructor ()
      ensures failures == 0 && recoveries == 0
    {
      failures, recoveries := 0, 0;
    }

    /** recordResult; the mutex makes concurrent calls take effect one after another. */
    method RecordResult(answer: Answer)
      requires failures < FailureThreshold
      modifies this
      ensures failures < FailureThreshold
      ensures (failures, recoveries) == Counted(old(failures), old(recoveries), [answer])
    {
      if answer != Unauthenticated {
        failures := 0;
        return;
      }
      failures := failures + 1;
      var trigger := failures >= FailureThreshold;
      if trigger {
        failures := 0;
      }
      if trigger {
        recoveries := recoveries + 1;
      }
    }

    method RecordAll(history: seq<Answer>)
      requires failures == 0 && recoveries == 0
      modifies this
      ensures failures < FailureThreshold && recoveries == FullRuns(history)
    {
      for i := 0 to |history|
        invariant failures < FailureThreshold
        invariant Counted(failures, recoveries, history[i..]) == Counted(0, 0, history)
      {
        assert history[i..][1..] == history[i + 1..];
        assert [history[i]][1..] == [];
        RecordResult(history[i]);
      }
      RecoveriesCountRuns(history);
    }
  }

  /** Counter and recoveries after a history. */
  function Counted(failures: nat, recoveries: nat, history: seq<Answer>): (nat, nat)
    decreases |history|
  {
    if history == [] then (failures, recoveries)
    else if history[0] != Unauthenticated then Counted(0, recoveries, history[1..])
    else if failures + 1 >= FailureThreshold then Counted(0, recoveries + 1, history[1..])
    else Counted(failures + 1, recoveries, history[1..])
  }

  // ----- maximal runs

  /** The length of the run of Unauthenticated answers at the front. */
  function Run(history: seq<Answer>): (n: nat)
    ensures n <= |history|
    ensures forall i :: 0 <= i < n ==> history[i] == Unauthenticated
    ensures n < |history| ==> history[n] != Unauthenticated
  {
    if history == [] || history[0] != Unauthenticated then 0 else 1 + Run(history[1..])
  }

  /** The number of full fives in each maximal run, summed over the runs. */
  function FullRuns(history: seq<Answer>): nat
    decreases |history|
  {
    if history == [] then 0
    else if history[0] != Unauthenticated then FullRuns(history[1..])
    else Run(history) / 5 + FullRuns(history[Run(history)..])
  }

  lemma RunStep(history: seq<Answer>)
    requires history != [] && history[0] == Unauthenticated
    ensures Run(history) == 1 + Run(history[1..]) && history[1..][Run(history[1..])..] == history[Run(history)..]
  {
  }

  /** With `failures` already counted, the leading run is continued and the rest stands alone. */
  lemma {:induction false} CountedIs(failures: nat, recoveries: nat, history: seq<Answer>)
    requires failures < FailureThreshold
    ensures Counted(failures, recoveries, history).0 < FailureThreshold
    ensures Counted(failures, recoveries, history).1 ==
      recoveries + (failures + Run(history)) / FailureThreshold + FullRuns(history[Run(history)..])
    decreases |history|
  {
    if history == [] {
    } else if history[0] != Unauthenticated {
      CountedIs(0, recoveries, history[1..]);
      assert history[0..] == history;
      RestOfRun(history[1..]);
    } else {
      RunStep(history);
      if failures + 1 >= FailureThreshold {
        CountedIs(0, recoveries + 1, history[1..]);
      } else {
        CountedIs(failures + 1, recoveries, history[1..]);
      }
    }
  }

  lemma RestOfRun(history: seq<Answer>)
    ensures FullRuns(history) == Run(history) / FailureThreshold + FullRuns(history[Run(history)..])
  {
    if history == [] || history[0] != Unauthenticated { assert history[0..] == history; }
  }

  /** Recoveries are the full thresholds of the maximal runs, and the counter stays below the threshold. */
  lemma RecoveriesCountRuns(history: seq<Answer>)
    ensures Counted(0, 0, history).1 == FullRuns(history)
    ensures Counted(0, 0, history).0 < FailureThreshold
  {
    CountedIs(0, 0, history);
    RestOfRun(history);
  }
}
