/** `EarlyStopHook` of `dps/train.py`: it remembers the best value of the
    stopping criteria seen in a stage, the step and validation record it was
    seen with, and a sticky flag that is raised once more than `patience`
    steps have gone by without an improvement. */
module EarlyStop {
  import opened Wrappers

  /** A validation record: named scalar results. */
  type Record = map<string, real>

  /** `patience` is a number of steps, or `np.inf`. */
  datatype Patience = Steps(n: int) | Unlimited

  /** The best value so far, the local step it was seen on, and a copy of its record. */
  datatype Best = Best(value: real, step: int, record: Record)

  /** The hook's state: the best so far (`None` right after `reset`) and the stop flag. */
  datatype StopState = StopState(best: Option<Best>, stopped: bool)

  const Fresh := StopState(None, false)

  /** `sc` is strictly better than `than` in the direction being optimised. */
  predicate Better(maximize: bool, sc: real, than: real)
  {
    if maximize then sc > than else sc < than
  }

  /** `step - best_step > patience`; nothing exceeds an unlimited patience. */
  predicate Late(patience: Patience, waited: int)
  {
    patience.Steps? && waited > patience.n
  }

  /** `check(stopping_criteria, step, record)`: the new state and whether the value is a new best. */
  function CheckStep(patience: Patience, maximize: bool, s: StopState, sc: real, step: int, record: Record): (r: (StopState, bool))
    ensures r.0.best.Some?
    ensures s.best.None? ==> r.1
    ensures s.best.Some? && sc == s.best.value.value ==> !r.1
    ensures r.1 ==> r.0.best == Some(Best(sc, step, record))
    ensures !r.1 ==> r.0.best == s.best
    ensures s.stopped ==> r.0.stopped
  {
    var newBest := s.best.None? || Better(maximize, sc, s.best.value.value);
    var b := if newBest then Best(sc, step, record) else s.best.value;
    (StopState(Some(b), s.stopped || Late(patience, step - b.step)), newBest)
  }

  /** One call of `check` per observation. */
  datatype Observation = Observation(value: real, step: int, record: Record)

  /** The state after checking every observation in order. */
  function Checks(patience: Patience, maximize: bool, s: StopState, obs: seq<Observation>): StopState
  {
    if obs == [] then s
    else
      var o := obs[|obs| - 1];
      CheckStep(patience, maximize, Checks(patience, maximize, s, obs[..|obs| - 1]), o.value, o.step, o.record).0
  }

  /** Reference definition of the best observation: the first one that no
      observation beats. */
  function BestIndex(maximize: bool, obs: seq<Observation>): (i: nat)
    requires obs != []
    ensures i < |obs|
    ensures forall j :: 0 <= j < |obs| ==> !Better(maximize, obs[j].value, obs[i].value)
    ensures forall j :: 0 <= j < i ==> Better(maximize, obs[i].value, obs[j].value)
  {
    if |obs| == 1 then 0
    else
      var i := BestIndex(maximize, obs[..|obs| - 1]);
      assert forall j :: 0 <= j < |obs| - 1 ==> obs[..|obs| - 1][j] == obs[j];
      if Better(maximize, obs[|obs| - 1].value, obs[i].value) then |obs| - 1 else i
  }

  /** After a fresh start the hook holds the first optimal observation: its
      value, its step and its record. Ties do not replace an earlier best. */
  lemma {:induction false} ChecksKeepFirstOptimum(patience: Patience, maximize: bool, obs: seq<Observation>)
    requires obs != []
    ensures var i := BestIndex(maximize, obs);
      Checks(patience, maximize, Fresh, obs).best == Some(Best(obs[i].value, obs[i].step, obs[i].record))
  {
    if |obs| > 1 {
      ChecksKeepFirstOptimum(patience, maximize, obs[..|obs| - 1]);
    }
  }

  /** The stop flag never goes down again. */
  lemma {:induction false} StopIsSticky(patience: Patience, maximize: bool, s: StopState, obs: seq<Observation>)
    requires s.stopped
    ensures Checks(patience, maximize, s, obs).stopped
  {
    if obs != [] {
      StopIsSticky(patience, maximize, s, obs[..|obs| - 1]);
    }
  }

  /** At the `k`-th check the step was more than `patience` past the best step known after it. */
  predicate LateAt(patience: Patience, maximize: bool, s: StopState, obs: seq<Observation>, k: nat)
    requires k < |obs|
  {
    Late(patience, obs[k].step - Checks(patience, maximize, s, obs[..k + 1]).best.value.step)
  }

  /** The flag is up exactly when it was up before, or some check came late. */
  lemma {:induction false} StopsWhenLate(patience: Patience, maximize: bool, s: StopState, obs: seq<Observation>)
    ensures Checks(patience, maximize, s, obs).stopped <==>
      s.stopped || exists k :: 0 <= k < |obs| && LateAt(patience, maximize, s, obs, k)
  {
    if obs != [] {
      var n := |obs| - 1;
      var prefix := obs[..n];
      StopsWhenLate(patience, maximize, s, prefix);
      forall k | 0 <= k < n
        ensures LateAt(patience, maximize, s, prefix, k) == LateAt(patience, maximize, s, obs, k)
      {
        assert prefix[..k + 1] == obs[..k + 1];
      }
      assert obs[..n + 1] == obs;
      assert Checks(patience, maximize, s, obs).stopped ==
        (Checks(patience, maximize, s, prefix).stopped || LateAt(patience, maximize, s, obs, n));
    }
  }

  /** With unlimited patience the hook never asks to stop. */
  lemma {:induction false} UnlimitedNeverStops(maximize: bool, s: StopState, obs: seq<Observation>)
    requires !s.stopped
    ensures !Checks(Unlimited, maximize, s, obs).stopped
  {
    if obs != [] {
      UnlimitedNeverStops(maximize, s, obs[..|obs| - 1]);
    }
  }

  /** `best`: a copy of the best record with `stopping_criteria` and `local_step`
      added; before the first check there is no record to copy. */
  function BestOf(s: StopState): (r: Result<Record>)
    ensures r.Ok? <==> s.best.Some?
    ensures r.Ok? ==> r.value.Keys == s.best.value.record.Keys + {"stopping_criteria", "local_step"}
    ensures r.Ok? ==> r.value["stopping_criteria"] == s.best.value.value && r.value["local_step"] == s.best.value.step as real
    ensures r.Ok? ==> forall k :: k in s.best.value.record && k != "stopping_criteria" && k != "local_step" ==>
      r.value[k] == s.best.value.record[k]
  {
    if s.best.None? then Err("AttributeError")
    else
      var b := s.best.value;
      Ok(b.record["stopping_criteria" := b.value]["local_step" := b.step as real])
  }

  class EarlyStopHook {
    const patience: Patience
    const maximize: bool
    var bestStoppingCriteria: Option<real>
    var bestStep: Option<int>
    var bestRecord: Option<Record>
    var earlyStopped: bool

    /** The three `_best_*` fields are set together. */
    predicate Valid()
      reads this
    {
      bestStoppingCriteria.Some? == bestStep.Some? && bestStep.Some? == bestRecord.Some?
    }

    function State(): (s: StopState)
      requires Valid()
      reads this
    {
      StopState(
        if bestStoppingCriteria.None? then None
        else Some(Best(bestStoppingCriteria.value, bestStep.value, bestRecord.value)),
        earlyStopped)
    }

    constructor(patience: Patience, maximize: bool)
      ensures Valid() && State() == Fresh
      ensures this.patience == patience && this.maximize == maximize
    {
      this.patience := patience;
      this.maximize := maximize;
      bestStoppingCriteria := None;
      bestStep := None;
      bestRecord := None;
      earlyStopped := false;
    }

    method Reset()
      modifies this
      ensures Valid() && State() == Fresh
    {
      bestStoppingCriteria := None;
      bestRecord := None;
      bestStep := None;
      earlyStopped := false;
    }

    method Check(stoppingCriteria: real, step: int, record: Record) returns (newBest: bool, stop: bool)
      requires Valid()
      modifies this
      ensures Valid()
      ensures (State(), newBest) == CheckStep(patience, maximize, old(State()), stoppingCriteria, step, record)
      ensures stop == State().stopped
    {
      newBest := bestStoppingCriteria.None? || Better(maximize, stoppingCriteria, bestStoppingCriteria.value);
      if newBest {
        bestStoppingCriteria := Some(stoppingCriteria);
        bestStep := Some(step);
        bestRecord := Some(record);
      }
      earlyStopped := earlyStopped || Late(patience, step - bestStep.value);
      stop := earlyStopped;
    }

    function BestRecord(): (r: Result<Record>)
      requires Valid()
      reads this
      ensures r == BestOf(State())
    {
      if bestRecord.None? then Err("AttributeError")
      else Ok(bestRecord.value["stopping_criteria" := bestStoppingCriteria.value]["local_step" := bestStep.value as real])
    }
  }
}
