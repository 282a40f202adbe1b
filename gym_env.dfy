/** `GymEnvWrapper` of dps/gym_env.py: a batch of copies of one gym
    environment stepped in lock-step. The environments themselves are
    outside the model: a copy is known by its index in the pool, and what
    `reset` and `step` of a copy return is a parameter. */
module GymEnv {
  import opened Wrappers

  /** An observation of one copy. */
  type Obs = int

  /** The info dict a copy's `step` returns. */
  type Info = map<string, string>

  /** What `env.step(a)` returns: `(o, r, d, i)`. */
  datatype Outcome = Outcome(obs: Obs, reward: real, done: bool, info: Info)

  /** The modes `set_mode` accepts. */
  const Modes: seq<string> := ["train", "train_eval", "val"]

  function Range(n: nat): (r: seq<nat>)
    ensures |r| == n && forall i :: 0 <= i < n ==> r[i] == i
  {
    if n == 0 then [] else Range(n - 1) + [n - 1]
  }

  /** Python's `xs[:n]`, where a negative `n` drops elements from the end. */
  function Prefix<T>(xs: seq<T>, n: int): (r: seq<T>)
    ensures |r| <= |xs| && r == xs[..|r|]
    ensures 0 <= n <= |xs| ==> |r| == n
    ensures n < 0 ==> |r| == if |xs| + n > 0 then |xs| + n else 0
  {
    if n >= |xs| then xs
    else if n >= 0 then xs[..n]
    else if |xs| + n > 0 then xs[..|xs| + n]
    else []
  }

  /** One slot of `step`: a copy already done is not stepped, keeps its
      observation and done flag, and yields reward 0 and an empty info;
      any other copy takes what its own `step` returned. */
  function StepSlot(wasDone: bool, o: Obs, out: Outcome): (r: Outcome)
    ensures wasDone ==> r == Outcome(o, 0.0, true, map[])
    ensures !wasDone ==> r == out
  {
    if wasDone then Outcome(o, 0.0, true, map[]) else out
  }

  /** A done flag only ever goes from false to true. */
  lemma DoneStays(wasDone: bool, o: Obs, out: Outcome)
    ensures wasDone ==> StepSlot(wasDone, o, out).done
    ensures StepSlot(wasDone, o, out).done ==> wasDone || out.done
  {
  }

  predicate AllDone(done: seq<bool>)
  {
    forall k :: 0 <= k < |done| ==> done[k]
  }

  /** `np.array(done)[:, np.newaxis].astype('f')`. */
  function DoneColumn(done: seq<bool>): (c: seq<seq<real>>)
    ensures |c| == |done|
    ensures forall k :: 0 <= k < |c| ==> c[k] == [if done[k] then 1.0 else 0.0]
  {
    seq(|done|, k requires 0 <= k < |done| => [if done[k] then 1.0 else 0.0])
  }

  /** `all(done)` on that column holds exactly when every copy is done. */
  lemma DoneColumnAll(done: seq<bool>)
    ensures AllDone(done) <==> forall k :: 0 <= k < |done| ==> DoneColumn(done)[k][0] != 0.0
  {
    forall k | 0 <= k < |done|
      ensures done[k] <==> DoneColumn(done)[k][0] != 0.0
    {
    }
  }

  /** A done column in which some copy is not done yet. */
  predicate Pending(col: seq<seq<real>>)
  {
    exists j :: 0 <= j < |col| && col[j] == [0.0]
  }

  /** One entry of the rollout batch: the observations the policy saw, its
      actions, the rewards and the done flags after the step. */
  datatype Transition = Transition(obs: seq<Obs>, action: seq<int>, reward: seq<seq<real>>, done: seq<seq<real>>)

  class GymEnvWrapper {
    /** The number of deep copies of the environment made so far
      (`_env_copies`); copy `k` is the `k`-th made. */
    var nCopies: nat
    /** `_active_envs`, as indices of copies. */
    var active: seq<nat>
    var batchSize: Option<int>
    var mode: string
    var done: seq<bool>
    var obs: seq<Obs>

    constructor ()
      ensures nCopies == 0 && active == [] && batchSize == None && done == [] && obs == []
      ensures Valid()
    {
      nCopies, active, batchSize, mode, done, obs := 0, [], None, "", [], [];
    }

    /** Every active env is a copy in the pool: `_active_envs` is always a
      slice of `_env_copies`, so every method keeps this. */
    predicate Valid()
      reads this
    {
      forall k :: 0 <= k < |active| ==> active[k] < nCopies
    }

    /** `set_mode(mode, batch_size)`: an unknown mode is an AssertionError.
      A batch size of `None` is stored with the mode, and then `None - n`
      raises TypeError. Otherwise the pool grows to at least `batch_size`
      copies and never shrinks, and the first `batch_size` copies become the
      active ones. */
    method SetMode(m: string, size: Option<int>) returns (r: Result<()>)
      modifies this
      ensures m !in Modes ==>
        r == Err("AssertionError") && nCopies == old(nCopies) && active == old(active)
        && batchSize == old(batchSize) && mode == old(mode)
      ensures m in Modes && size.None? ==>
        r == Err("TypeError") && nCopies == old(nCopies) && active == old(active)
        && batchSize == None && mode == m
      ensures m in Modes && size.Some? ==>
        var bs := size.value;
        && r == Ok(())
        && mode == m && batchSize == Some(bs)
        && nCopies >= old(nCopies) && (nCopies > old(nCopies) ==> nCopies == bs)
        && active == Prefix(Range(nCopies), bs)
        && (bs >= 0 ==> active == Range(bs))
        && Valid()
      ensures done == old(done) && obs == old(obs)
    {
      if m !in Modes {
        return Err("AssertionError");
      }
      mode := m;
      batchSize := size;
      if size.None? {
        return Err("TypeError");
      }
      var bs := size.value;
      var nNeeded := bs - nCopies;
      if nNeeded > 0 {
        nCopies := nCopies + nNeeded;
      }
      active := Prefix(Range(nCopies), bs);
      if bs >= 0 {
        assert Range(nCopies)[..bs] == Range(bs);
      }
      return Ok(());
    }

    /** `reset()`: one observation per active copy, from that copy's own
      `reset`, and no copy done. */
    method Reset(resetObs: nat -> Obs) returns (o: seq<Obs>)
      requires Valid()
      modifies this
      ensures Valid()
      ensures |obs| == |done| == |active| == |o|
      ensures forall k :: 0 <= k < |o| ==> o[k] == resetObs(active[k])
      ensures forall k :: 0 <= k < |done| ==> !done[k]
      ensures obs == o
      ensures nCopies == old(nCopies) && active == old(active) && batchSize == old(batchSize)
      ensures mode == old(mode)
    {
      o := [];
      for k := 0 to |active|
        invariant |o| == k
        invariant forall j :: 0 <= j < k ==> o[j] == resetObs(active[j])
      {
        o := o + [resetObs(active[k])];
      }
      done := seq(|active|, k => false);
      obs := o;
    }

    /** `step(actions)`: there must be one action per copy of the batch
      (AssertionError otherwise, before anything is stepped). Each slot
      follows `StepSlot`; the observations, the rewards as a column and the
      done flags come back as copies of the new state. */
    method Step(actions: seq<int>, envStep: (nat, int) -> Outcome)
        returns (r: Result<(seq<Obs>, seq<seq<real>>, seq<bool>, seq<Info>)>)
      requires Valid() && |obs| == |done| == |active|
      modifies this
      ensures Valid()
      ensures nCopies == old(nCopies) && active == old(active) && batchSize == old(batchSize)
      ensures mode == old(mode)
      ensures |obs| == |done| == |active|
      ensures batchSize != Some(|actions|) ==> r == Err("AssertionError") && obs == old(obs) && done == old(done)
      ensures batchSize == Some(|actions|) ==> r.Ok?
      ensures r.Ok? ==>
        var n := if |actions| <= |active| then |actions| else |active|;
        && r.value.0 == obs && r.value.2 == done
        && |r.value.1| == |r.value.3| == n
        && (forall k :: 0 <= k < n ==>
              var s := StepSlot(old(done[k]), old(obs[k]), envStep(active[k], actions[k]));
              obs[k] == s.obs && r.value.1[k] == [s.reward] && done[k] == s.done && r.value.3[k] == s.info)
        && (forall k :: n <= k < |active| ==> obs[k] == old(obs[k]) && done[k] == old(done[k]))
    {
      if batchSize != Some(|actions|) {
        return Err("AssertionError");
      }
      var n := if |actions| <= |active| then |actions| else |active|;
      var rewards: seq<seq<real>> := [];
      var infos: seq<Info> := [];
      for idx := 0 to n
        invariant nCopies == old(nCopies) && active == old(active) && batchSize == old(batchSize)
        invariant mode == old(mode)
        invariant |obs| == |done| == |active| == |old(obs)|
        invariant |rewards| == |infos| == idx
        invariant forall k :: 0 <= k < idx ==>
          var s := StepSlot(old(done[k]), old(obs[k]), envStep(active[k], actions[k]));
          obs[k] == s.obs && rewards[k] == [s.reward] && done[k] == s.done && infos[k] == s.info
        invariant forall k :: idx <= k < |active| ==> obs[k] == old(obs[k]) && done[k] == old(done[k])
      {
        if done[idx] {
          rewards := rewards + [[0.0]];
          infos := infos + [map[]];
        } else {
          var out := envStep(active[idx], actions[idx]);
          obs := obs[idx := out.obs];
          rewards := rewards + [[out.reward]];
          done := done[idx := out.done];
          infos := infos + [out.info];
        }
      }
      return Ok((obs, rewards, done, infos));
    }

    /** One turn of the `do_rollouts` loop as far as the loop needs it: the
      step's observations and rewards, and its done flags, which are the new
      state's. */
    method RolloutStep(action: seq<int>, envStep: (nat, int) -> Outcome)
        returns (r: Result<(seq<Obs>, seq<seq<real>>, seq<bool>)>)
      requires Valid() && |obs| == |done| == |active|
      modifies this
      ensures Valid() && |obs| == |done| == |active|
      ensures r.Ok? ==> r.value.2 == done
    {
      var res := Step(action, envStep);
      if res.Err? {
        return Err(res.error);
      }
      return Ok((res.value.0, res.value.1, res.value.2));
    }

    /** `do_rollouts(policy, n_rollouts, T, mode)`: set the mode, reset, then
      let the policy act and step the batch until every copy is done or `T`
      steps were taken, where `T` is `T or cfg.T`. The policy's recurrent
      state starts from `zero(batch_size)`; what the copies return on step
      `t` is `envStep(t, copy, action)`. No step is taken after one that left
      every copy done, and fewer than `T` steps means the last one did.
      `n_rollouts` defaults to `None`, which `set_mode` rejects with TypeError. */
    method DoRollouts(policy: (seq<Obs>, int) -> (seq<int>, int), zero: nat -> int, nRollouts: Option<int>,
                      T: Option<int>, cfgT: int, m: string,
                      resetObs: nat -> Obs, envStep: (nat, nat, int) -> Outcome)
        returns (r: Result<seq<Transition>>)
      requires Valid()
      modifies this
      ensures Valid()
      ensures m !in Modes ==> r == Err("AssertionError")
      ensures m in Modes && nRollouts.None? ==> r == Err("TypeError")
      ensures r.Ok? ==>
        var bound := if T.None? || T.value == 0 then cfgT else T.value;
        && |r.value| <= (if bound > 0 then bound else 0)
        && (forall k :: 0 <= k < |r.value| - 1 ==> Pending(r.value[k].done))
        && (0 < |r.value| < bound ==>
              var last := r.value[|r.value| - 1].done;
              forall j :: 0 <= j < |last| ==> last[j] == [1.0])
        && (|r.value| == 0 ==> bound <= 0)
    {
      var tMax := if T.None? || T.value == 0 then cfgT else T.value;
      var sm := SetMode(m, nRollouts);
      if sm.Err? {
        return Err(sm.error);
      }
      var o := Reset(resetObs);
      var state := zero(|o|);
      var rollouts: seq<Transition> := [];
      var t: nat := 0;
      var allDone := false;
      while !allDone && t < tMax
        invariant Valid() && |obs| == |done| == |active|
        invariant t == |rollouts| && (t == 0 ==> !allDone)
        invariant t > 0 ==> allDone == AllDone(done) && rollouts[t - 1].done == DoneColumn(done)
        invariant forall k :: 0 <= k < t - 1 ==> Pending(rollouts[k].done)
        invariant t <= (if tMax > 0 then tMax else 0)
        decreases tMax - t
      {
        if t > 0 {
          var j :| 0 <= j < |done| && !done[j];
          assert rollouts[t - 1].done[j] == [0.0];
          assert Pending(rollouts[t - 1].done);
        }
        var (action, state') := policy(o, state);
        var tt: nat := t;
        var res := RolloutStep(action, (copy: nat, a: int) => envStep(tt, copy, a));
        if res.Err? {
          return Err(res.error);
        }
        var (newObs, reward, d) := res.value;
        rollouts := rollouts + [Transition(o, action, reward, DoneColumn(d))];
        o, state, t := newObs, state', t + 1;
        allDone := AllDone(d);
      }
      return Ok(rollouts);
    }
  }
}
