/** The curriculum and stage controller of `dps/train.py`. A run walks through
    the stages of a curriculum; each stage repeatedly updates the model and,
    on evaluation steps, feeds the validation value of the stopping criteria to
    an `EarlyStopHook`. The updater, the clock and the configuration are
    inputs: an `Updater` value says what the updater reports at each local step. */
module Train {
  import opened Wrappers
  import opened Strings
  import opened EarlyStop
  import opened Arith

  // ---------------------------------------------------------------- time

  /** A number of seconds, or `np.inf`. */
  datatype Seconds = Finite(s: real) | Infinite

  /** `time_remaining`: the time to a parseable `deadline` first; else infinity
      when `max_time` is None or not positive; else `max_time - elapsed`.
      `untilDeadline` is None when `cfg.deadline` does not parse. */
  function TimeRemaining(untilDeadline: Option<real>, maxTime: Option<real>, elapsed: real): (r: Seconds)
    ensures untilDeadline.Some? ==> r == Finite(untilDeadline.value)
    ensures untilDeadline.None? ==> (r.Infinite? <==> maxTime.None? || maxTime.value <= 0.0)
    ensures r.Finite? && untilDeadline.None? ==> r.s == maxTime.value - elapsed
  {
    if untilDeadline.Some? then Finite(untilDeadline.value)
    else if maxTime.None? || maxTime.value <= 0.0 then Infinite
    else Finite(maxTime.value - elapsed)
  }

  /** `time_remaining <= 1`: the curriculum stops before starting another stage. */
  predicate OutOfTime(t: Seconds)
  {
    t.Finite? && t.s <= 1.0
  }

  /** Without a deadline and without a positive `max_time`, a run is never out of time. */
  lemma NoLimitNeverOutOfTime(maxTime: Option<real>, elapsed: real)
    requires maxTime.None? || maxTime.value <= 0.0
    ensures !OutOfTime(TimeRemaining(None, maxTime, elapsed))
  {
  }

  // ---------------------------------------------------------------- stopping criteria

  /** `stopping_criteria`, split on ',' when given as a string: its first item
      names the criteria; its second says "max" or "min" (checked for as
      substrings, "max" first). */
  function ParseStoppingCriteria(items: seq<string>): (r: Result<(string, bool)>)
    ensures |items| < 2 ==> r == Err("IndexError")
    ensures r.Ok? ==> r.value.0 == items[0]
    ensures r.Ok? ==> (r.value.1 <==> Contains(items[1], "max"))
    ensures |items| >= 2 ==> (r.Ok? <==> Contains(items[1], "max") || Contains(items[1], "min"))
  {
    if |items| < 2 then Err("IndexError")
    else if Contains(items[1], "max") then Ok((items[0], true))
    else if Contains(items[1], "min") then Ok((items[0], false))
    else Err("Exception")
  }

  /** A string setting `name,direction` reads back as its name and direction. */
  lemma ParseStoppingCriteriaText(name: string, direction: string)
    requires ',' !in name && ',' !in direction
    ensures ParseStoppingCriteria(Split(name + [','] + direction, ','))
      == if Contains(direction, "max") then Ok((name, true))
         else if Contains(direction, "min") then Ok((name, false))
         else Err("Exception")
  {
    SplitAtSep(name, direction, ',');
    SplitNoSep(direction, ',');
  }

  // ---------------------------------------------------------------- hooks

  /** A training hook fires on step 0 when `initial`, and on every positive multiple of `n`. */
  function HookFires(initial: bool, n: nat, step: nat): (b: bool)
    requires n > 0
  {
    (step == 0 && initial) || (step > 0 && step % n == 0)
  }

  /** Past step 0 a hook fires exactly on the steps `j * n` with `j >= 1`. */
  lemma HookFiresOnMultiples(initial: bool, n: nat, step: nat)
    requires n > 0 && step > 0
    ensures HookFires(initial, n, step) <==> exists j :: 1 <= j && step == j * n
  {
    if step % n == 0 {
      assert step == (step / n) * n + step % n;
      assert step == (step / n) * n;
    }
    if exists j :: 1 <= j && step == j * n {
      var j :| 1 <= j && step == j * n;
      DivModUnique(step, n, j, 0);
    }
  }

  // ---------------------------------------------------------------- loading

  /** `cfg.load_path`: absent (None or ""), one path, or a list of paths. */
  datatype LoadPath = NoPath | Single(path: string) | Many(paths: seq<string>)

  /** What the stage's updater is restored from, if anything: a non-empty list is
      indexed by `repeat % len`, a non-empty path is used as is; otherwise from
      stage 1 on and with `preserve_policy`, the previous stage's best. An empty
      list counts as no path. */
  function LoadSource(load: LoadPath, repeat: int, stage: nat, preservePolicy: bool, previousBest: Option<string>): (r: Result<Option<string>>)
    ensures load.Many? && load.paths != [] ==> r == Ok(Some(load.paths[repeat % |load.paths|]))
    ensures load.Single? && load.path != "" ==> r == Ok(Some(load.path))
    ensures load.NoPath? || (load.Single? && load.path == "") || (load.Many? && load.paths == []) ==>
      if stage > 0 && preservePolicy then r == (if previousBest.Some? then Ok(previousBest) else Err("KeyError"))
      else r == Ok(None)
  {
    if load.Many? && load.paths != [] then Ok(Some(load.paths[repeat % |load.paths|]))
    else if load.Single? && load.path != "" then Ok(Some(load.path))
    else if stage > 0 && preservePolicy then
      if previousBest.Some? then Ok(previousBest) else Err("KeyError")
    else Ok(None)
  }

  /** Every repeat of a run gets one of the listed paths, and consecutive repeats cycle through them. */
  lemma LoadPathCycles(paths: seq<string>, repeat: int, stage: nat, preservePolicy: bool, previousBest: Option<string>)
    requires paths != []
    ensures LoadSource(Many(paths), repeat, stage, preservePolicy, previousBest).value.value in paths
    ensures LoadSource(Many(paths), repeat + |paths|, stage, preservePolicy, previousBest)
         == LoadSource(Many(paths), repeat, stage, preservePolicy, previousBest)
  {
    var n := |paths|;
    assert repeat == (repeat / n) * n + repeat % n;
    assert repeat + n == (repeat / n + 1) * n + repeat % n;
    DivModUnique(repeat + n, n, repeat / n + 1, repeat % n);
  }

  // ---------------------------------------------------------------- one stage

  datatype Value = Num(x: real) | Text(s: string)

  /** One entry of `history`: the stage index, the per-step records, the scalar
      fields set by `record`, the fields of the stage's best record (stored
      under `best_` keys in the source) and the test results of the best
      hypothesis (under `test_` keys). */
  datatype StageEntry = StageEntry(
    stage: nat,
    trainData: seq<Record>,
    valData: seq<Record>,
    testData: seq<Record>,
    fields: map<string, Value>,
    best: Record,
    test: Record)

  function NewEntry(stage: nat): StageEntry
  {
    StageEntry(stage, [], [], [], map[], map[], map[])
  }

  /** The stage settings `_run_stage` reads from `cfg`. */
  datatype StageConfig = StageConfig(
    maxSteps: nat,
    maxExperiences: nat,
    checkpointStep: nat,
    evalStep: nat,
    displayStep: nat,
    doTrain: bool,
    threshold: real,
    patience: Patience,
    batchSize: nat)

  predicate ValidConfig(c: StageConfig)
  {
    c.checkpointStep > 0 && c.evalStep > 0 && c.displayStep > 0
  }

  /** What the updater reports at local step `k`: its experience count before the
      update, the training record of the update, the validation and test
      records, the validation value of the stopping criteria and where a save
      lands. */
  datatype Updater = Updater(
    experiences: nat -> nat,
    train: nat -> Record,
    val: nat -> Record,
    test: nat -> Record,
    criterion: nat -> real,
    save: nat -> string)

  datatype Reason = MaxSteps | MaxExperiences | EarlyStopping | ThresholdReached | NoTraining
                  | UserInterrupt | TimeLimit

  /** How the stage's loop is left from outside: not at all, by a keyboard
      interrupt, or by the stage's time limiter, arriving as the loop is about
      to start local step `at`. When the loop ends on its own before that step,
      neither arrives. */
  datatype Cut = Uncut | Interrupt(at: nat) | Timeout(at: nat)

  /** The reason `run_stage` reports for a loop left from outside. */
  function CutReason(cut: Cut): Reason
    requires !cut.Uncut?
  {
    if cut.Interrupt? then UserInterrupt else TimeLimit
  }

  /** What happened on one pass through the loop. */
  datatype Iteration = Iteration(step: nat, checkpoint: bool, evaluated: bool, newBest: bool)

  /** The outcome of one pass: the early-stop state and history entry after it,
      what it did, and the reason when the pass ends the stage. */
  datatype Pass = Pass(stop: StopState, entry: StageEntry, it: Iteration, end: Option<Reason>)

  datatype StageResult = StageResult(reason: Reason, steps: nat, log: seq<Iteration>, stop: StopState, entry: StageEntry)

  /** The stopping criteria passes the threshold, strictly. */
  predicate Reached(maximize: bool, value: real, threshold: real)
  {
    if maximize then value > threshold else value < threshold
  }

  /** The reasons that end a stage in the middle of a pass rather than at its top. */
  predicate EndsInPass(reason: Reason)
  {
    reason == EarlyStopping || reason == ThresholdReached || reason == NoTraining
  }

  /** One pass of `_run_stage` at local step `k` once both limits have been passed:
      record the update; on an evaluation or display step record the validation
      and test results, consult the early-stop hook, save a new best, stop early,
      stop at the threshold, or record the step counts; then stop when `do_train`
      is off. */
  function PassAt(c: StageConfig, maximize: bool, u: Updater, g0: nat, k: nat, s: StopState, e: StageEntry): (p: Pass)
    requires ValidConfig(c)
    ensures p.it.step == k
    ensures p.it.checkpoint <==> k > 0 && k % c.checkpointStep == 0
    ensures p.it.evaluated <==> k % c.evalStep == 0 || k % c.displayStep == 0
    ensures p.end.Some? ==> EndsInPass(p.end.value)
    ensures !c.doTrain ==> p.end.Some?
    ensures !p.it.evaluated ==> p.stop == s && !p.it.newBest && (p.end.Some? <==> !c.doTrain)
    ensures p.it.evaluated ==> (p.stop, p.it.newBest) == CheckStep(c.patience, maximize, s, u.criterion(k), k, u.val(k))
    ensures p.end == Some(EarlyStopping) <==> p.it.evaluated && p.stop.stopped
    ensures p.end == Some(ThresholdReached) <==>
      p.it.evaluated && !p.stop.stopped && Reached(maximize, u.criterion(k), c.threshold)
    ensures |p.entry.trainData| == |e.trainData| + 1
    ensures |p.entry.valData| == |e.valData| + (if p.it.evaluated then 1 else 0)
  {
    var checkpoint := k > 0 && k % c.checkpointStep == 0;
    var evaluate := k % c.evalStep == 0 || k % c.displayStep == 0;
    var e1 := e.(trainData := e.trainData + [if c.doTrain then u.train(k) else map[]]);
    if !evaluate then
      Pass(s, e1, Iteration(k, checkpoint, false, false), if c.doTrain then None else Some(NoTraining))
    else Evaluation(c, maximize, u, g0, k, s, e1)
  }

  /** The evaluation part of a pass, on the entry `e1` that already holds the
      update's record. */
  function Evaluation(c: StageConfig, maximize: bool, u: Updater, g0: nat, k: nat, s: StopState, e1: StageEntry): (p: Pass)
    requires ValidConfig(c)
    ensures p.it.step == k && p.it.evaluated
    ensures p.it.checkpoint <==> k > 0 && k % c.checkpointStep == 0
    ensures p.end.Some? ==> EndsInPass(p.end.value)
    ensures !c.doTrain ==> p.end.Some?
    ensures (p.stop, p.it.newBest) == CheckStep(c.patience, maximize, s, u.criterion(k), k, u.val(k))
    ensures p.end == Some(EarlyStopping) <==> p.stop.stopped
    ensures p.end == Some(ThresholdReached) <==> !p.stop.stopped && Reached(maximize, u.criterion(k), c.threshold)
    ensures |p.entry.trainData| == |e1.trainData| && |p.entry.valData| == |e1.valData| + 1
  {
    var checkpoint := k > 0 && k % c.checkpointStep == 0;
    var checked := CheckStep(c.patience, maximize, s, u.criterion(k), k, u.val(k));
    var s2 := checked.0;
    var e2 := e1.(valData := e1.valData + [u.val(k)], testData := e1.testData + [u.test(k)]);
    var e3 := if checked.1 then
        e2.(fields := e2.fields["best_path" := Text(u.save(k))]["best_global_step" := Num((g0 + k) as real)],
            best := BestOf(s2).value)
      else e2;
    var it := Iteration(k, checkpoint, true, checked.1);
    if s2.stopped then Pass(s2, e3, it, Some(EarlyStopping))
    else if Reached(maximize, u.criterion(k), c.threshold) then Pass(s2, e3, it, Some(ThresholdReached))
    else
      var e4 := e3.(fields := e3.fields["n_steps" := Num(k as real)]["n_experiences" := Num((k * c.batchSize) as real)]);
      Pass(s2, e4, it, if c.doTrain then None else Some(NoTraining))
  }

  /** `_run_stage` from local step `k` on, `g0` being the global step at local step 0,
      as `run_stage` leaves it: the reason the stage ends, the local step it
      ends on, what each pass did, the early-stop state and the stage's history
      entry. An interrupt or a time-out abandons the loop where it arrives; then
      the step limit is checked, then the experience limit, both before any
      update. */
  function StageFrom(c: StageConfig, maximize: bool, u: Updater, g0: nat, cut: Cut, k: nat, s: StopState, e: StageEntry, log: seq<Iteration>): StageResult
    requires ValidConfig(c)
    decreases if k < c.maxSteps then c.maxSteps - k else 0
  {
    if !cut.Uncut? && cut.at == k then StageResult(CutReason(cut), k, log, s, e)
    else if k >= c.maxSteps then StageResult(MaxSteps, k, log, s, e)
    else if u.experiences(k) >= c.maxExperiences then StageResult(MaxExperiences, k, log, s, e)
    else
      var p := PassAt(c, maximize, u, g0, k, s, e);
      if p.end.Some? then StageResult(p.end.value, k, log + [p.it], p.stop, p.entry)
      else StageFrom(c, maximize, u, g0, cut, k + 1, p.stop, p.entry, log + [p.it])
  }

  /** A pass the cut does not stop and that runs past both limit tests either
      ends the stage or leads to the next step. */
  lemma StageFromPass(c: StageConfig, maximize: bool, u: Updater, g0: nat, cut: Cut, k: nat, s: StopState, e: StageEntry, log: seq<Iteration>)
    requires ValidConfig(c) && (cut.Uncut? || cut.at != k) && k < c.maxSteps && u.experiences(k) < c.maxExperiences
    ensures var p := PassAt(c, maximize, u, g0, k, s, e);
      StageFrom(c, maximize, u, g0, cut, k, s, e, log)
        == if p.end.Some? then StageResult(p.end.value, k, log + [p.it], p.stop, p.entry)
           else StageFrom(c, maximize, u, g0, cut, k + 1, p.stop, p.entry, log + [p.it])
  {
  }

  /** The cut, or else the two limit tests, at the top of a pass end the stage
      before the pass runs. */
  lemma StageFromTop(c: StageConfig, maximize: bool, u: Updater, g0: nat, cut: Cut, k: nat, s: StopState, e: StageEntry, log: seq<Iteration>)
    requires ValidConfig(c)
    requires (!cut.Uncut? && cut.at == k) || k >= c.maxSteps || u.experiences(k) >= c.maxExperiences
    ensures StageFrom(c, maximize, u, g0, cut, k, s, e, log)
         == StageResult(if !cut.Uncut? && cut.at == k then CutReason(cut)
                        else if k >= c.maxSteps then MaxSteps else MaxExperiences, k, log, s, e)
  {
  }

  /** `_run_stage` from local step 0 with a fresh early-stop hook: it makes at
      most `max_steps` local steps, never passes the step a cut arrives on,
      and keeps its entry's stage index. */
  function Stage(c: StageConfig, maximize: bool, u: Updater, g0: nat, cut: Cut, e: StageEntry): (r: StageResult)
    requires ValidConfig(c)
    ensures r.steps <= c.maxSteps && (!cut.Uncut? ==> r.steps <= cut.at)
    ensures r.entry.stage == e.stage
  {
    StageFromBound(c, maximize, u, g0, cut, 0, Fresh, e, []);
    StageFromKeepsIndex(c, maximize, u, g0, cut, 0, Fresh, e, []);
    StageFrom(c, maximize, u, g0, cut, 0, Fresh, e, [])
  }

  lemma {:induction false} StageFromBound(c: StageConfig, maximize: bool, u: Updater, g0: nat, cut: Cut, k: nat, s: StopState, e: StageEntry, log: seq<Iteration>)
    requires ValidConfig(c) && k <= c.maxSteps && (cut.Uncut? || k <= cut.at)
    ensures var r := StageFrom(c, maximize, u, g0, cut, k, s, e, log);
      r.steps <= c.maxSteps && (!cut.Uncut? ==> r.steps <= cut.at)
    decreases c.maxSteps - k
  {
    if (cut.Uncut? || cut.at != k) && k < c.maxSteps && u.experiences(k) < c.maxExperiences {
      var p := PassAt(c, maximize, u, g0, k, s, e);
      if p.end.None? {
        StageFromBound(c, maximize, u, g0, cut, k + 1, p.stop, p.entry, log + [p.it]);
      }
    }
  }

  lemma {:induction false} StageFromKeepsIndex(c: StageConfig, maximize: bool, u: Updater, g0: nat, cut: Cut, k: nat, s: StopState, e: StageEntry, log: seq<Iteration>)
    requires ValidConfig(c)
    ensures StageFrom(c, maximize, u, g0, cut, k, s, e, log).entry.stage == e.stage
    decreases if k < c.maxSteps then c.maxSteps - k else 0
  {
    if (cut.Uncut? || cut.at != k) && k < c.maxSteps && u.experiences(k) < c.maxExperiences {
      var p := PassAt(c, maximize, u, g0, k, s, e);
      if p.end.None? {
        StageFromKeepsIndex(c, maximize, u, g0, cut, k + 1, p.stop, p.entry, log + [p.it]);
      }
    }
  }

  /** The passes of a stage are the local steps 0, 1, ... in order; the stage ends
      on the step after its last pass, or on that pass when it breaks out of it;
      a checkpoint is yielded on every positive multiple of `checkpoint_step`,
      evaluation happens on multiples of `eval_step` and `display_step`; only
      the two step limits and the cut end a stage at the top of a pass, the cut
      on its own step. */
  lemma {:induction false} StageLog(c: StageConfig, maximize: bool, u: Updater, g0: nat, cut: Cut, k: nat, s: StopState, e: StageEntry, log: seq<Iteration>)
    requires ValidConfig(c)
    requires forall i :: 0 <= i < |log| ==> log[i].step == i
    requires |log| == k
    ensures var r := StageFrom(c, maximize, u, g0, cut, k, s, e, log);
      && r.steps >= k
      && |r.log| == (if EndsInPass(r.reason) then r.steps + 1 else r.steps)
      && r.log[..k] == log
      && (r.reason == MaxSteps || r.reason == MaxExperiences || EndsInPass(r.reason)
          || (!cut.Uncut? && r.reason == CutReason(cut) && r.steps == cut.at))
      && forall i :: k <= i < |r.log| ==>
           r.log[i].step == i
           && (r.log[i].checkpoint <==> i > 0 && i % c.checkpointStep == 0)
           && (r.log[i].evaluated <==> i % c.evalStep == 0 || i % c.displayStep == 0)
    decreases if k < c.maxSteps then c.maxSteps - k else 0
  {
    if (cut.Uncut? || cut.at != k) && k < c.maxSteps && u.experiences(k) < c.maxExperiences {
      var p := PassAt(c, maximize, u, g0, k, s, e);
      var log' := log + [p.it];
      StageFromPass(c, maximize, u, g0, cut, k, s, e, log);
      assert log'[..k] == log && log'[k] == p.it;
      if p.end.None? {
        StageLog(c, maximize, u, g0, cut, k + 1, p.stop, p.entry, log');
        var r := StageFrom(c, maximize, u, g0, cut, k + 1, p.stop, p.entry, log');
        assert r.log[..k] == r.log[..k + 1][..k];
      }
    }
  }

  /** A stage ends no earlier than the step it is at, and keeps the log of the
      passes already made. */
  lemma {:induction false} StageFromExtends(c: StageConfig, maximize: bool, u: Updater, g0: nat, cut: Cut, k: nat, s: StopState, e: StageEntry, log: seq<Iteration>)
    requires ValidConfig(c)
    ensures var r := StageFrom(c, maximize, u, g0, cut, k, s, e, log);
      r.steps >= k && log <= r.log
    decreases if k < c.maxSteps then c.maxSteps - k else 0
  {
    if (cut.Uncut? || cut.at != k) && k < c.maxSteps && u.experiences(k) < c.maxExperiences {
      var p := PassAt(c, maximize, u, g0, k, s, e);
      if p.end.None? {
        StageFromExtends(c, maximize, u, g0, cut, k + 1, p.stop, p.entry, log + [p.it]);
      }
    }
  }

  /** Without an interrupt or a time-out a stage reports neither. */
  lemma {:induction false} UncutReason(c: StageConfig, maximize: bool, u: Updater, g0: nat, k: nat, s: StopState, e: StageEntry, log: seq<Iteration>)
    requires ValidConfig(c)
    ensures var r := StageFrom(c, maximize, u, g0, Uncut, k, s, e, log);
      r.reason != UserInterrupt && r.reason != TimeLimit
    decreases if k < c.maxSteps then c.maxSteps - k else 0
  {
    if k < c.maxSteps && u.experiences(k) < c.maxExperiences {
      var p := PassAt(c, maximize, u, g0, k, s, e);
      if p.end.None? {
        UncutReason(c, maximize, u, g0, k + 1, p.stop, p.entry, log + [p.it]);
      }
    }
  }

  /** An interrupt or a time-out changes nothing about a stage that ends on its
      own before the cut's step. Otherwise the stage is abandoned on that step,
      for the cut's reason, having made exactly the passes the uninterrupted
      stage makes before it; an uninterrupted stage never reports either reason. */
  lemma {:induction false} CutTruncates(c: StageConfig, maximize: bool, u: Updater, g0: nat, cut: Cut, k: nat, s: StopState, e: StageEntry, log: seq<Iteration>)
    requires ValidConfig(c) && (cut.Uncut? || k <= cut.at)
    ensures var r := StageFrom(c, maximize, u, g0, cut, k, s, e, log);
      var full := StageFrom(c, maximize, u, g0, Uncut, k, s, e, log);
      && full.reason != UserInterrupt && full.reason != TimeLimit
      && (cut.Uncut? || full.steps < cut.at ==> r == full)
      && (!cut.Uncut? && full.steps >= cut.at ==>
            r.reason == CutReason(cut) && r.steps == cut.at && r.log <= full.log && |r.log| == |log| + cut.at - k)
    decreases if k < c.maxSteps then c.maxSteps - k else 0
  {
    var r := StageFrom(c, maximize, u, g0, cut, k, s, e, log);
    var full := StageFrom(c, maximize, u, g0, Uncut, k, s, e, log);
    if !cut.Uncut? && cut.at == k {
      StageFromExtends(c, maximize, u, g0, Uncut, k, s, e, log);
      UncutReason(c, maximize, u, g0, k, s, e, log);
    } else if k < c.maxSteps && u.experiences(k) < c.maxExperiences {
      var p := PassAt(c, maximize, u, g0, k, s, e);
      if p.end.None? {
        CutTruncates(c, maximize, u, g0, cut, k + 1, p.stop, p.entry, log + [p.it]);
      }
    }
  }

  /** When neither early stopping, nor the threshold, nor the experience limit can
      end a stage that trains and that is not cut short, it ends for its step
      limit after exactly `max_steps` passes. */
  lemma RunsToMaxSteps(c: StageConfig, maximize: bool, u: Updater, g0: nat, e: StageEntry)
    requires ValidConfig(c) && c.doTrain && c.patience.Unlimited?
    requires forall k: nat :: k < c.maxSteps ==> u.experiences(k) < c.maxExperiences
    requires forall k: nat :: k < c.maxSteps ==> !Reached(maximize, u.criterion(k), c.threshold)
    ensures Stage(c, maximize, u, g0, Uncut, e).reason == MaxSteps
    ensures Stage(c, maximize, u, g0, Uncut, e).steps == c.maxSteps
    ensures |Stage(c, maximize, u, g0, Uncut, e).log| == c.maxSteps
  {
    StageLog(c, maximize, u, g0, Uncut, 0, Fresh, e, []);
    NoStopWithoutLimits(c, maximize, u, g0, 0, Fresh, e, []);
  }

  lemma {:induction false} NoStopWithoutLimits(c: StageConfig, maximize: bool, u: Updater, g0: nat, k: nat, s: StopState, e: StageEntry, log: seq<Iteration>)
    requires ValidConfig(c) && c.doTrain && c.patience.Unlimited? && !s.stopped && k <= c.maxSteps
    requires forall j: nat :: k <= j < c.maxSteps ==> u.experiences(j) < c.maxExperiences
    requires forall j: nat :: k <= j < c.maxSteps ==> !Reached(maximize, u.criterion(j), c.threshold)
    ensures StageFrom(c, maximize, u, g0, Uncut, k, s, e, log).reason == MaxSteps
    ensures StageFrom(c, maximize, u, g0, Uncut, k, s, e, log).steps == c.maxSteps
    decreases c.maxSteps - k
  {
    if k < c.maxSteps {
      var p := PassAt(c, maximize, u, g0, k, s, e);
      NoStopWithoutLimits(c, maximize, u, g0, k + 1, p.stop, p.entry, log + [p.it]);
    }
  }

  /** With `do_train` off a stage makes at most one pass and never advances the
      local step; when the limits and the cut allow that pass it ends the stage,
      for early stopping (only with a negative patience), the threshold, or
      `do_train`. */
  lemma NoTrainingOnePass(c: StageConfig, maximize: bool, u: Updater, g0: nat, cut: Cut, e: StageEntry)
    requires ValidConfig(c) && !c.doTrain
    ensures Stage(c, maximize, u, g0, cut, e).steps == 0
    ensures |Stage(c, maximize, u, g0, cut, e).log| <= 1
    ensures (cut.Uncut? || cut.at > 0) && c.maxSteps > 0 && u.experiences(0) < c.maxExperiences ==>
      |Stage(c, maximize, u, g0, cut, e).log| == 1 && EndsInPass(Stage(c, maximize, u, g0, cut, e).reason)
    ensures Stage(c, maximize, u, g0, cut, e).reason == EarlyStopping ==> c.patience.Steps? && c.patience.n < 0
  {
  }

  /** Early stopping is checked before the threshold: a stage that ends for its
      threshold was not flagged by the hook, and has a best. */
  lemma {:induction false} ThresholdOnlyWithoutStop(c: StageConfig, maximize: bool, u: Updater, g0: nat, cut: Cut, k: nat, s: StopState, e: StageEntry, log: seq<Iteration>)
    requires ValidConfig(c)
    ensures var r := StageFrom(c, maximize, u, g0, cut, k, s, e, log);
      r.reason == ThresholdReached ==> !r.stop.stopped && r.stop.best.Some?
    decreases if k < c.maxSteps then c.maxSteps - k else 0
  {
    if (cut.Uncut? || cut.at != k) && k < c.maxSteps && u.experiences(k) < c.maxExperiences {
      var p := PassAt(c, maximize, u, g0, k, s, e);
      if p.end.None? {
        ThresholdOnlyWithoutStop(c, maximize, u, g0, cut, k + 1, p.stop, p.entry, log + [p.it]);
      }
    }
  }

  // ---------------------------------------------------------------- the curriculum

  /** Everything one stage of the curriculum depends on: its settings, how the
      updater behaves, the `stopping_criteria` items, the time remaining when the
      stage is about to start, whether an interrupt or the stage's time limiter
      cuts the stage short, and the test record of the best hypothesis. */
  datatype StageInput = StageInput(
    config: StageConfig,
    updater: Updater,
    criteria: seq<string>,
    timeLeft: Seconds,
    cut: Cut,
    finalTest: Record)

  predicate ValidInputs(stages: seq<StageInput>)
  {
    forall i :: 0 <= i < |stages| ==> ValidConfig(stages[i].config)
  }

  /** Yields of `stepped_training_loop`. */
  datatype Yield = Checkpoint(stage: nat, step: nat) | Summary(history: seq<StageEntry>)

  /** The `reason` text recorded for a stage. */
  function ReasonText(r: Reason): string
  {
    match r
    case MaxSteps => "Maximum number of steps reached"
    case MaxExperiences => "Maximum number of experiences reached"
    case EarlyStopping => "Early stopping triggered"
    case ThresholdReached => "Stopping criteria threshold reached"
    case NoTraining => "`do_train` set to False"
    case UserInterrupt => "User interrupt"
    case TimeLimit => "Time limit exceeded"
  }

  /** `run_stage` on a stage whose history entry is `e` and whose first global step
      is `g`: the loop's result, and the reason and threshold flag it reports.
      A time-out raises when `error_on_timeout`. */
  function StageRun(st: StageInput, g: nat, e: StageEntry, errorOnTimeout: bool): (r: Result<(StageResult, Reason, bool)>)
    requires ValidConfig(st.config)
    ensures ParseStoppingCriteria(st.criteria).Err? ==> r == Err(ParseStoppingCriteria(st.criteria).error)
    ensures ParseStoppingCriteria(st.criteria).Ok? ==>
      var full := Stage(st.config, ParseStoppingCriteria(st.criteria).value.1, st.updater, g, Uncut, e);
      && (r.Err? <==> errorOnTimeout && st.cut.Timeout? && full.steps >= st.cut.at)
      && (r.Err? ==> r.error == "Exception")
      && (r.Ok? && (st.cut.Uncut? || full.steps < st.cut.at) ==> r.value.0 == full)
      && (r.Ok? && !st.cut.Uncut? && full.steps >= st.cut.at ==>
            r.value.0.reason == CutReason(st.cut) && r.value.0.steps == st.cut.at)
    ensures r.Ok? ==> r.value.1 == r.value.0.reason && (r.value.2 <==> r.value.1 == ThresholdReached)
    ensures r.Ok? ==> r.value.0.entry.stage == e.stage
  {
    var parsed := ParseStoppingCriteria(st.criteria);
    if parsed.Err? then Err(parsed.error)
    else
      var res := Stage(st.config, parsed.value.1, st.updater, g, st.cut, e);
      CutTruncates(st.config, parsed.value.1, st.updater, g, st.cut, 0, Fresh, e, []);
      if res.reason == TimeLimit && errorOnTimeout then Err("Exception")
      else Ok((res, res.reason, res.reason == ThresholdReached))
  }

  /** How a stage runs, given its inputs, its first global step and its index. */
  type StageRunner = (StageInput, nat, nat) -> Result<(StageResult, Reason, bool)>

  /** `run_stage` on a fresh history entry; a zero step interval would raise
      `ZeroDivisionError` at the first `%`. */
  function Runner(errorOnTimeout: bool): (run: StageRunner)
    ensures forall st: StageInput, g: nat, i: nat :: !ValidConfig(st.config) ==> run(st, g, i) == Err("ZeroDivisionError")
    ensures forall st: StageInput, g: nat, i: nat :: run(st, g, i).Ok? ==> run(st, g, i).value.0.entry.stage == i
  {
    (st: StageInput, g: nat, i: nat) =>
      if ValidConfig(st.config) then StageRun(st, g, NewEntry(i), errorOnTimeout) else Err("ZeroDivisionError")
  }

  /** The history entry a finished stage leaves: its `reason` recorded, and the
      test results of its best hypothesis. */
  function Finished(res: StageResult, reason: Reason, test: Record): StageEntry
  {
    res.entry.(fields := res.entry.fields["reason" := Text(ReasonText(reason))], test := test)
  }

  /** `_run` from stage `i` on, `g` being the global step, with the history and
      threshold flags so far: the final history and flags, or the exception
      raised. Loading the best hypothesis raises `KeyError` when the stage never
      saved one. */
  function CurriculumFrom(stages: seq<StageInput>, run: StageRunner, powerThrough: bool, i: nat, g: nat,
                          history: seq<StageEntry>, reached: seq<bool>): Result<(seq<StageEntry>, seq<bool>)>
    decreases |stages| - i
  {
    if i >= |stages| || OutOfTime(stages[i].timeLeft) then Ok((history, reached))
    else
      var out := run(stages[i], g, i);
      if out.Err? then Err(out.error)
      else if "best_path" !in out.value.0.entry.fields then Err("KeyError")
      else
        var history' := history + [Finished(out.value.0, out.value.1, stages[i].finalTest)];
        var reached' := reached + [out.value.2];
        if !(out.value.2 || powerThrough) then Ok((history', reached'))
        else CurriculumFrom(stages, run, powerThrough, i + 1, g + out.value.0.steps, history', reached')
  }

  /** `training_loop`'s run: one history entry per started stage, in order, and
      the stages started are the ones the time and threshold rules allow. */
  function Curriculum(stages: seq<StageInput>, powerThrough: bool, errorOnTimeout: bool): (r: Result<(seq<StageEntry>, seq<bool>)>)
    ensures r.Ok? ==> StagesStarted(stages, r.value.1, powerThrough, |r.value.0|)
                      && forall j :: 0 <= j < |r.value.0| ==> r.value.0[j].stage == j
  {
    CurriculumStops(stages, Runner(errorOnTimeout), powerThrough, 0, 0, [], []);
    CurriculumHistory(stages, Runner(errorOnTimeout), powerThrough, 0, 0, [], []);
    CurriculumFrom(stages, Runner(errorOnTimeout), powerThrough, 0, 0, [], [])
  }

  /** The number of stages `_run` starts: it stops before a stage when out of
      time, and after a stage that did not reach its threshold unless
      `power_through`. `reached[i]` is stage `i`'s threshold flag. */
  predicate StagesStarted(stages: seq<StageInput>, reached: seq<bool>, powerThrough: bool, n: nat)
  {
    && n <= |stages| && |reached| == n
    && (forall i :: 0 <= i < n ==> !OutOfTime(stages[i].timeLeft))
    && (forall i :: 0 <= i < n - 1 ==> reached[i] || powerThrough)
    && (n < |stages| ==> OutOfTime(stages[n].timeLeft) || (n > 0 && !reached[n - 1] && !powerThrough))
  }

  /** A run that raises nothing starts exactly the stages the time and threshold
      rules allow, and records one threshold flag per started stage. */
  lemma {:induction false} CurriculumStops(stages: seq<StageInput>, run: StageRunner, powerThrough: bool, i: nat, g: nat,
                                           history: seq<StageEntry>, reached: seq<bool>)
    requires i <= |stages| && |history| == i && |reached| == i
    requires forall j :: 0 <= j < i ==> !OutOfTime(stages[j].timeLeft) && (reached[j] || powerThrough)
    ensures var r := CurriculumFrom(stages, run, powerThrough, i, g, history, reached);
      r.Ok? ==> StagesStarted(stages, r.value.1, powerThrough, |r.value.0|)
    decreases |stages| - i
  {
    if i < |stages| && !OutOfTime(stages[i].timeLeft) {
      var out := run(stages[i], g, i);
      if out.Ok? && "best_path" in out.value.0.entry.fields {
        var history' := history + [Finished(out.value.0, out.value.1, stages[i].finalTest)];
        var reached' := reached + [out.value.2];
        assert forall j :: 0 <= j < i ==> reached'[j] == reached[j];
        if out.value.2 || powerThrough {
          CurriculumStops(stages, run, powerThrough, i + 1, g + out.value.0.steps, history', reached');
        } else {
          assert StagesStarted(stages, reached', powerThrough, i + 1);
        }
      }
    }
  }

  /** The history of a run that raises nothing extends the history it started
      from with one entry per stage, in stage order, when every stage keeps its
      entry's index. */
  lemma {:induction false} CurriculumHistory(stages: seq<StageInput>, run: StageRunner, powerThrough: bool, i: nat, g: nat,
                                             history: seq<StageEntry>, reached: seq<bool>)
    requires |history| == i
    requires forall j :: 0 <= j < i ==> history[j].stage == j
    requires forall st, g': nat, j: nat :: run(st, g', j).Ok? ==> run(st, g', j).value.0.entry.stage == j
    ensures var r := CurriculumFrom(stages, run, powerThrough, i, g, history, reached);
      r.Ok? ==> history <= r.value.0 && reached <= r.value.1
                && forall j :: 0 <= j < |r.value.0| ==> r.value.0[j].stage == j
    decreases |stages| - i
  {
    if i < |stages| && !OutOfTime(stages[i].timeLeft) {
      var out := run(stages[i], g, i);
      if out.Ok? && "best_path" in out.value.0.entry.fields {
        var history' := history + [Finished(out.value.0, out.value.1, stages[i].finalTest)];
        assert history'[i].stage == i;
        assert history <= history';
        if out.value.2 || powerThrough {
          CurriculumHistory(stages, run, powerThrough, i + 1, g + out.value.0.steps, history', reached + [out.value.2]);
        }
      }
    }
  }

  /** `CurriculumFrom` at a stage the time check lets start: the stage's
      exception, the end of the run, or the run from the next stage on. */
  lemma CurriculumAt(stages: seq<StageInput>, run: StageRunner, powerThrough: bool, i: nat, g: nat,
                     history: seq<StageEntry>, reached: seq<bool>)
    requires i < |stages| && !OutOfTime(stages[i].timeLeft)
    ensures var out := run(stages[i], g, i);
      var r := CurriculumFrom(stages, run, powerThrough, i, g, history, reached);
      && (out.Err? ==> r == Err(out.error))
      && (out.Ok? && "best_path" !in out.value.0.entry.fields ==> r == Err("KeyError"))
      && (out.Ok? && "best_path" in out.value.0.entry.fields && !(out.value.2 || powerThrough) ==>
            r == Ok((history + [Finished(out.value.0, out.value.1, stages[i].finalTest)], reached + [out.value.2])))
  {
  }

  /** A stage interrupted or timed out before its first pass saved no best
      hypothesis, so a run that reaches it raises: `KeyError` when loading the
      best, unless reading the stopping criteria or the time-out raised first. */
  lemma CutAtStartRaises(stages: seq<StageInput>, powerThrough: bool, errorOnTimeout: bool, i: nat, g: nat,
                         history: seq<StageEntry>, reached: seq<bool>)
    requires ValidInputs(stages) && i < |stages| && !OutOfTime(stages[i].timeLeft)
    requires !stages[i].cut.Uncut? && stages[i].cut.at == 0
    ensures var r := CurriculumFrom(stages, Runner(errorOnTimeout), powerThrough, i, g, history, reached);
      && r.Err?
      && (ParseStoppingCriteria(stages[i].criteria).Ok? && !(stages[i].cut.Timeout? && errorOnTimeout) ==> r.error == "KeyError")
  {
    var st := stages[i];
    var out := Runner(errorOnTimeout)(st, g, i);
    CurriculumAt(stages, Runner(errorOnTimeout), powerThrough, i, g, history, reached);
    var parsed := ParseStoppingCriteria(st.criteria);
    if parsed.Ok? {
      StageFromTop(st.config, parsed.value.1, st.updater, g, st.cut, 0, Fresh, NewEntry(i), []);
    }
  }

  /** `CurriculumFrom` once the stages are used up or out of time: the history
      and flags so far. */
  lemma CurriculumDone(stages: seq<StageInput>, run: StageRunner, powerThrough: bool, i: nat, g: nat,
                       history: seq<StageEntry>, reached: seq<bool>)
    requires i >= |stages| || OutOfTime(stages[i].timeLeft)
    ensures CurriculumFrom(stages, run, powerThrough, i, g, history, reached) == Ok((history, reached))
  {
  }

  /** `CurriculumFrom` past a stage that ends without an exception and lets the run
      go on, `g'`, `history'` and `reached'` being the state after the stage. */
  lemma CurriculumStep(stages: seq<StageInput>, run: StageRunner, powerThrough: bool, i: nat, g: nat,
                       history: seq<StageEntry>, reached: seq<bool>, out: Result<(StageResult, Reason, bool)>,
                       g': nat, history': seq<StageEntry>, reached': seq<bool>)
    requires i < |stages| && !OutOfTime(stages[i].timeLeft) && out == run(stages[i], g, i)
    requires out.Ok? && "best_path" in out.value.0.entry.fields && (out.value.2 || powerThrough)
    requires g' == g + out.value.0.steps && reached' == reached + [out.value.2]
    requires history' == history + [Finished(out.value.0, out.value.1, stages[i].finalTest)]
    ensures CurriculumFrom(stages, run, powerThrough, i, g, history, reached)
         == CurriculumFrom(stages, run, powerThrough, i + 1, g', history', reached')
  {
  }

  class TrainingLoop {
    var history: seq<StageEntry>
    var localStep: nat
    var globalStep: nat

    constructor()
      ensures history == [] && localStep == 0 && globalStep == 0
    {
      history := [];
      localStep := 0;
      globalStep := 0;
    }

    /** `record(**kwargs)`: update the latest history entry's fields. */
    method Record(d: map<string, Value>) returns (r: Result<()>)
      modifies this
      ensures old(history) == [] ==> r == Err("IndexError") && history == []
      ensures old(history) != [] ==> (r.Ok? && |history| == |old(history)|
        && history[..|history| - 1] == old(history)[..|history| - 1]
        && history[|history| - 1] == old(history)[|history| - 1].(fields := old(history)[|history| - 1].fields + d))
      ensures localStep == old(localStep) && globalStep == old(globalStep)
    {
      if history == [] {
        return Err("IndexError");
      }
      var n := |history| - 1;
      history := history[n := history[n].(fields := history[n].fields + d)];
      r := Ok(());
    }

    /** The body of `_run_stage`'s loop at the current local step, past both limit tests. */
    method RunPass(c: StageConfig, maximize: bool, u: Updater, es: EarlyStopHook, g0: nat)
      returns (end: Option<Reason>, it: Iteration)
      requires ValidConfig(c) && history != [] && globalStep == g0 + localStep
      requires es.Valid() && es.patience == c.patience && es.maximize == maximize
      modifies this, es
      ensures es.Valid() && localStep == old(localStep) && globalStep == old(globalStep)
      ensures var p := PassAt(c, maximize, u, g0, old(localStep), old(es.State()), old(history[|history| - 1]));
        && end == p.end && it == p.it && es.State() == p.stop
        && |history| == |old(history)| && history == old(history)[..|history| - 1] + [p.entry]
    {
      var n := |history| - 1;
      var k := localStep;
      var e := history[n];
      var trainRecord: Record := map[];
      if c.doTrain {
        trainRecord := u.train(k);
      }
      e := e.(trainData := e.trainData + [trainRecord]);
      if !(k % c.evalStep == 0 || k % c.displayStep == 0) {
        it := Iteration(k, k > 0 && k % c.checkpointStep == 0, false, false);
        end := if c.doTrain then None else Some(NoTraining);
      } else {
        end, it, e := Evaluate(c, maximize, u, es, g0, k, e);
      }
      history := history[..n] + [e];
    }

    /** The evaluation step of a pass: record the validation and test results,
        consult the early-stop hook, save a new best hypothesis, then stop early,
        stop at the threshold, or record the step counts. */
    method Evaluate(c: StageConfig, maximize: bool, u: Updater, es: EarlyStopHook, g0: nat, k: nat, e1: StageEntry)
      returns (end: Option<Reason>, it: Iteration, e: StageEntry)
      requires ValidConfig(c)
      requires es.Valid() && es.patience == c.patience && es.maximize == maximize
      modifies es
      ensures es.Valid()
      ensures var p := Evaluation(c, maximize, u, g0, k, old(es.State()), e1);
        end == p.end && it == p.it && es.State() == p.stop && e == p.entry
    {
      e := e1;
      var valRecord := u.val(k);
      e := e.(valData := e.valData + [valRecord], testData := e.testData + [u.test(k)]);
      var criterion := u.criterion(k);
      var newBest, stop := es.Check(criterion, k, valRecord);
      if newBest {
        var best := es.BestRecord();
        e := e.(fields := e.fields["best_path" := Text(u.save(k))]["best_global_step" := Num((g0 + k) as real)], best := best.value);
      }
      it := Iteration(k, k > 0 && k % c.checkpointStep == 0, true, newBest);
      if stop {
        end := Some(EarlyStopping);
      } else if Reached(maximize, criterion, c.threshold) {
        end := Some(ThresholdReached);
      } else {
        e := e.(fields := e.fields["n_steps" := Num(k as real)]["n_experiences" := Num((k * c.batchSize) as real)]);
        end := if c.doTrain then None else Some(NoTraining);
      }
    }

    /** One turn of `_run_stage`'s loop: an interrupt or a time-out arriving on
        this step, the two limit tests, the checkpoint yielded on a positive
        multiple of `checkpoint_step`, then the pass. Either the stage ends
        here, or the next turn starts one local step further. */
    method LoopTurn(c: StageConfig, maximize: bool, u: Updater, es: EarlyStopHook, g0: nat, cut: Cut, log: seq<Iteration>)
      returns (end: Option<Reason>, log': seq<Iteration>, checkpoints: seq<Yield>)
      requires ValidConfig(c) && history != [] && globalStep == g0 + localStep && localStep <= c.maxSteps
      requires es.Valid() && es.patience == c.patience && es.maximize == maximize
      modifies this, es
      ensures es.Valid() && |history| == |old(history)| && history[..|history| - 1] == old(history)[..|history| - 1]
      ensures var s := StageFrom(c, maximize, u, g0, cut, old(localStep), old(es.State()), old(history[|history| - 1]), log);
        && (end.Some? ==> s == StageResult(end.value, localStep, log', es.State(), history[|history| - 1])
                          && localStep == old(localStep) && globalStep == old(globalStep))
        && (end.None? ==> s == StageFrom(c, maximize, u, g0, cut, localStep, es.State(), history[|history| - 1], log')
                          && localStep == old(localStep) + 1 && globalStep == g0 + localStep && localStep <= c.maxSteps)
      ensures forall i :: 0 <= i < |checkpoints| ==>
        checkpoints[i].Checkpoint? && checkpoints[i].step > 0 && checkpoints[i].step % c.checkpointStep == 0
    {
      log' := log;
      checkpoints := [];
      ghost var k, s0, e0 := localStep, es.State(), history[|history| - 1];
      if (!cut.Uncut? && cut.at == localStep) || localStep >= c.maxSteps || u.experiences(localStep) >= c.maxExperiences {
        StageFromTop(c, maximize, u, g0, cut, k, s0, e0, log);
        end := if !cut.Uncut? && cut.at == localStep then Some(CutReason(cut))
               else if localStep >= c.maxSteps then Some(MaxSteps) else Some(MaxExperiences);
        return;
      }
      if localStep > 0 && localStep % c.checkpointStep == 0 {
        checkpoints := [Checkpoint(history[|history| - 1].stage, localStep)];
      }
      end, log' := PassTurn(c, maximize, u, es, g0, cut, log);
    }

    /** The pass of a turn that neither a cut nor a limit stops: the stage
        ends with it, or the next turn starts one local step further. */
    method PassTurn(c: StageConfig, maximize: bool, u: Updater, es: EarlyStopHook, g0: nat, cut: Cut, log: seq<Iteration>)
      returns (end: Option<Reason>, log': seq<Iteration>)
      requires ValidConfig(c) && history != [] && globalStep == g0 + localStep && localStep < c.maxSteps
      requires (cut.Uncut? || cut.at != localStep) && u.experiences(localStep) < c.maxExperiences
      requires es.Valid() && es.patience == c.patience && es.maximize == maximize
      modifies this, es
      ensures es.Valid() && |history| == |old(history)| && history[..|history| - 1] == old(history)[..|history| - 1]
      ensures var s := StageFrom(c, maximize, u, g0, cut, old(localStep), old(es.State()), old(history[|history| - 1]), log);
        && (end.Some? ==> s == StageResult(end.value, localStep, log', es.State(), history[|history| - 1])
                          && localStep == old(localStep) && globalStep == old(globalStep))
        && (end.None? ==> s == StageFrom(c, maximize, u, g0, cut, localStep, es.State(), history[|history| - 1], log')
                          && localStep == old(localStep) + 1 && globalStep == g0 + localStep && localStep <= c.maxSteps)
    {
      ghost var k, s0, e0 := localStep, es.State(), history[|history| - 1];
      StageFromPass(c, maximize, u, g0, cut, k, s0, e0, log);
      ghost var p := PassAt(c, maximize, u, g0, k, s0, e0);
      var it;
      end, it := RunPass(c, maximize, u, es, g0);
      assert history[|history| - 1] == p.entry && history[..|history| - 1] == old(history)[..|history| - 1];
      log' := log + [it];
      if end.None? {
        NextStep();
      }
    }

    /** The end of a pass that does not end the stage: one local and one global step further. */
    method NextStep()
      modifies this
      ensures localStep == old(localStep) + 1 && globalStep == old(globalStep) + 1 && history == old(history)
    {
      localStep := localStep + 1;
      globalStep := globalStep + 1;
    }

    /** `_run_stage`, inside `run_stage`'s handler of interrupts and time-outs: the
        loop of one stage, on the latest history entry. Returns the reason, the
        threshold flag, what each pass did and the checkpoints yielded. */
    method RunStageLoop(c: StageConfig, maximize: bool, u: Updater, es: EarlyStopHook, cut: Cut)
      returns (reason: Reason, thresholdReached: bool, log: seq<Iteration>, checkpoints: seq<Yield>)
      requires ValidConfig(c) && history != []
      requires es.Valid() && es.State() == Fresh && es.patience == c.patience && es.maximize == maximize
      modifies this, es
      ensures es.Valid()
      ensures var r := Stage(c, maximize, u, old(globalStep), cut, old(history[|history| - 1]));
        && reason == r.reason && log == r.log && localStep == r.steps && es.State() == r.stop
        && globalStep == old(globalStep) + r.steps
        && |history| == |old(history)|
        && history == old(history)[..|history| - 1] + [r.entry]
      ensures thresholdReached <==> reason == ThresholdReached
      ensures forall i :: 0 <= i < |checkpoints| ==>
        checkpoints[i].Checkpoint? && checkpoints[i].step > 0 && checkpoints[i].step % c.checkpointStep == 0
    {
      var g0 := globalStep;
      var n := |history| - 1;
      ghost var before := history[..n];
      ghost var spec := Stage(c, maximize, u, g0, cut, history[n]);
      localStep := 0;
      log := [];
      checkpoints := [];
      while true
        invariant es.Valid() && es.patience == c.patience && es.maximize == maximize
        invariant |history| == n + 1 && history[..n] == before
        invariant globalStep == g0 + localStep && localStep <= c.maxSteps
        invariant spec == StageFrom(c, maximize, u, g0, cut, localStep, es.State(), history[n], log)
        invariant forall i :: 0 <= i < |checkpoints| ==>
          checkpoints[i].Checkpoint? && checkpoints[i].step > 0 && checkpoints[i].step % c.checkpointStep == 0
        decreases c.maxSteps - localStep
      {
        var end, cps;
        end, log, cps := LoopTurn(c, maximize, u, es, g0, cut, log);
        checkpoints := checkpoints + cps;
        if end.Some? {
          reason := end.value;
          thresholdReached := reason == ThresholdReached;
          break;
        }
      }
      assert history == before + [history[n]];
    }

    /** `run_stage`: read the stopping criteria, run the loop with a fresh
        early-stop hook, then raise on a time-out when `error_on_timeout`. */
    method RunStage(st: StageInput, errorOnTimeout: bool)
      returns (r: Result<(Reason, bool)>, checkpoints: seq<Yield>)
      requires ValidConfig(st.config) && history != []
      modifies this
      ensures |history| == |old(history)|
      ensures var spec := StageRun(st, old(globalStep), old(history[|history| - 1]), errorOnTimeout);
        && (r.Ok? <==> spec.Ok?)
        && (r.Err? ==> r.error == spec.error)
        && (r.Ok? ==> r.value == (spec.value.1, spec.value.2)
                      && history == old(history)[..|history| - 1] + [spec.value.0.entry]
                      && globalStep == old(globalStep) + spec.value.0.steps)
    {
      var parsed := ParseStoppingCriteria(st.criteria);
      if parsed.Err? {
        return Err(parsed.error), [];
      }
      var maximize := parsed.value.1;
      var es := new EarlyStopHook(st.config.patience, maximize);
      var reason, thresholdReached, log;
      reason, thresholdReached, log, checkpoints := RunStageLoop(st.config, maximize, st.updater, es, st.cut);
      if reason == TimeLimit && errorOnTimeout {
        r := Err("Exception");
      } else {
        r := Ok((reason, thresholdReached));
      }
    }

    /** One stage of `_run` once the time check has passed: append the stage's
        entry, run it, record its reason, load its best hypothesis and record the
        test results. Returns the stage's threshold flag and its checkpoints. */
    method StartStage(st: StageInput, i: nat, errorOnTimeout: bool) returns (r: Result<bool>, checkpoints: seq<Yield>)
      requires ValidConfig(st.config) && |history| == i
      modifies this
      ensures var out := Runner(errorOnTimeout)(st, old(globalStep), i);
        && (r.Ok? <==> out.Ok? && "best_path" in out.value.0.entry.fields)
        && (out.Err? ==> r == Err(out.error))
        && (r.Ok? ==> r.value == out.value.2
                      && history == old(history) + [Finished(out.value.0, out.value.1, st.finalTest)]
                      && globalStep == old(globalStep) + out.value.0.steps)
        && (r.Err? && out.Ok? ==> r == Err("KeyError"))
    {
      ghost var g, h0 := globalStep, history;
      ghost var run := StageRun(st, g, NewEntry(i), errorOnTimeout);
      assert Runner(errorOnTimeout)(st, g, i) == run;
      history := history + [NewEntry(i)];
      assert (h0 + [NewEntry(i)])[..i] == h0;
      var out;
      out, checkpoints := RunStage(st, errorOnTimeout);
      if out.Err? {
        return Err(out.error), checkpoints;
      }
      assert history == h0 + [run.value.0.entry];
      var reason, ok := out.value.0, out.value.1;
      var e := history[i].(fields := history[i].fields["reason" := Text(ReasonText(reason))]);
      if "best_path" !in e.fields {
        history := history[i := e];
        return Err("KeyError"), checkpoints;
      }
      history := history[i := e.(test := st.finalTest)];
      r := Ok(ok);
    }

    /** One turn of `_run`'s loop at stage `i`, with the threshold flags so far:
        the time check, then the stage. Either the run raises, or it ends here
        with the flags `reached'`, or it goes on from the next stage. */
    method CurriculumTurn(stages: seq<StageInput>, powerThrough: bool, errorOnTimeout: bool, i: nat, reached: seq<bool>)
      returns (ok: Result<bool>, reached': seq<bool>, checkpoints: seq<Yield>)
      requires ValidInputs(stages) && i < |stages| && |history| == i
      modifies this
      ensures var before := CurriculumFrom(stages, Runner(errorOnTimeout), powerThrough, i, old(globalStep), old(history), reached);
        && (ok.Err? ==> before == Err(ok.error))
        && (ok.Ok? && ok.value ==>
              |history| == i + 1 && before == CurriculumFrom(stages, Runner(errorOnTimeout), powerThrough, i + 1, globalStep, history, reached'))
        && (ok.Ok? && !ok.value ==> before == Ok((history, reached')))
    {
      ghost var run := Runner(errorOnTimeout);
      checkpoints := [];
      reached' := reached;
      if OutOfTime(stages[i].timeLeft) {
        CurriculumDone(stages, run, powerThrough, i, globalStep, history, reached);
        return Ok(false), reached', checkpoints;
      }
      ghost var g, h0 := globalStep, history;
      ghost var out := run(stages[i], g, i);
      CurriculumAt(stages, run, powerThrough, i, g, h0, reached);
      var flag;
      flag, checkpoints := StartStage(stages[i], i, errorOnTimeout);
      if flag.Err? {
        return Err(flag.error), reached', checkpoints;
      }
      reached' := reached + [flag.value];
      if flag.value || powerThrough {
        CurriculumStep(stages, run, powerThrough, i, g, h0, reached, out, globalStep, history, reached');
      }
      ok := Ok(flag.value || powerThrough);
    }

    /** `_run` followed by `training_loop`: run the curriculum and return what
        the generator yields, the final summary last. */
    method Run(stages: seq<StageInput>, powerThrough: bool, errorOnTimeout: bool) returns (r: Result<seq<Yield>>)
      requires ValidInputs(stages)
      modifies this
      ensures var spec := Curriculum(stages, powerThrough, errorOnTimeout);
        && (r.Ok? <==> spec.Ok?)
        && (r.Err? ==> r.error == spec.error)
        && (r.Ok? ==> history == spec.value.0 && r.value != [] && r.value[|r.value| - 1] == Summary(history))
    {
      ghost var run := Runner(errorOnTimeout);
      history := [];
      globalStep := 0;
      var reached: seq<bool> := [];
      var yielded: seq<Yield> := [];
      var i := 0;
      while i < |stages|
        invariant 0 <= i <= |stages| && |history| == i
        invariant Curriculum(stages, powerThrough, errorOnTimeout) == CurriculumFrom(stages, run, powerThrough, i, globalStep, history, reached)
        decreases |stages| - i
      {
        var ok, checkpoints;
        ok, reached, checkpoints := CurriculumTurn(stages, powerThrough, errorOnTimeout, i, reached);
        yielded := yielded + checkpoints;
        if ok.Err? {
          return Err(ok.error);
        }
        if !ok.value {
          return Ok(yielded + [Summary(history)]);
        }
        i := i + 1;
      }
      CurriculumDone(stages, run, powerThrough, i, globalStep, history, reached);
      r := Ok(yielded + [Summary(history)]);
    }
  }
}
