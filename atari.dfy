/** The frame gathering and the reinforcement-learning datasets of
    dps/datasets/atari.py: which recorded steps become examples, what each
    example holds, the feature layout and the frame shape of each game.
    Environments, recordings and random draws are parameters; frames are
    opaque values. */
module Atari {
  import opened Wrappers
  import opened Strings

  /** One observation (an image in the source). */
  type Frame = int

  /** One step of the environment as `gather_atari_frames` sees it: the
      observation, whether `np.random.binomial(1, density)` kept it, and
      whether the episode ended with it. */
  datatype EnvStep = EnvStep(ob: Frame, kept: bool, done: bool)

  /** The frames kept among the first `n` steps. */
  function Kept(steps: nat -> EnvStep, n: nat): (fs: seq<Frame>)
    ensures |fs| <= n
  {
    if n == 0 then []
    else Kept(steps, n - 1) + (if steps(n - 1).kept then [steps(n - 1).ob] else [])
  }

  /** Every kept observation is among the kept frames; with `density` 1
      (every step kept) there is exactly one frame per step, and with no
      step kept there are none. */
  lemma {:induction false} KeptFrames(steps: nat -> EnvStep, n: nat)
    ensures forall i :: 0 <= i < n && steps(i).kept ==> steps(i).ob in Kept(steps, n)
    ensures (forall i :: 0 <= i < n ==> steps(i).kept) ==> |Kept(steps, n)| == n
    ensures (forall i :: 0 <= i < n ==> !steps(i).kept) ==> Kept(steps, n) == []
  {
    if n > 0 {
      KeptFrames(steps, n - 1);
    }
  }

  /** After `e` steps an episode has just ended (or none has started). */
  predicate EpisodeEnd(steps: nat -> EnvStep, e: nat)
  {
    e == 0 || steps(e - 1).done
  }

  /** `gather_atari_frames(game, policy, n_frames, density)`: `density` must
      lie in (0, 1]. Whole episodes are played until, at the end of one, at
      least `n_frames` frames were kept; the first `n_frames` of them are
      returned. The environment's steps are the stream `steps`; `None` means
      the stream needed more than `fuel` steps. */
  method GatherAtariFrames(density: real, nFrames: int, steps: nat -> EnvStep, fuel: nat)
      returns (r: Option<Result<seq<Frame>>>)
    ensures !(0.0 < density <= 1.0) ==> r == Some(Err("AssertionError"))
    ensures r.Some? && r.value.Ok? ==>
      0.0 < density <= 1.0 &&
      exists e :: 0 <= e <= fuel && EpisodeEnd(steps, e) && |Kept(steps, e)| >= nFrames
        && (forall d :: 0 <= d < e && EpisodeEnd(steps, d) ==> |Kept(steps, d)| < nFrames)
        && r.value.value == Kept(steps, e)[..if nFrames > 0 then nFrames else 0]
    ensures r.Some? ==> r.value.Ok? || r.value == Err("AssertionError")
  {
    if !(0.0 < density <= 1.0) {
      return Some(Err("AssertionError"));
    }
    var frames: seq<Frame> := [];
    var t: nat := 0;
    while |frames| < nFrames
      invariant t <= fuel && frames == Kept(steps, t) && EpisodeEnd(steps, t)
      invariant forall d :: 0 <= d < t && EpisodeEnd(steps, d) ==> |Kept(steps, d)| < nFrames
      decreases fuel - t
    {
      ghost var t0 := t;
      var episodeOver := false;
      while !episodeOver
        invariant t0 <= t <= fuel && frames == Kept(steps, t)
        invariant episodeOver ==> t > t0 && EpisodeEnd(steps, t)
        invariant !episodeOver ==> t == t0 || !EpisodeEnd(steps, t)
        invariant forall d :: 0 <= d < t && EpisodeEnd(steps, d) ==> |Kept(steps, d)| < nFrames
        decreases fuel - t, if episodeOver then 0 else 1
      {
        if t == fuel {
          return None;
        }
        var s := steps(t);
        if s.kept {
          frames := frames + [s.ob];
        }
        t := t + 1;
        episodeOver := s.done;
      }
    }
    return Some(Ok(frames[..if nFrames > 0 then nFrames else 0]));
  }

  /** `np.arange(lo, hi)`. */
  function Span(lo: int, hi: int): (r: seq<int>)
    ensures |r| == if hi > lo then hi - lo else 0
    ensures forall i :: 0 <= i < |r| ==> r[i] == lo + i
    decreases hi - lo
  {
    if hi <= lo then [] else Span(lo, hi - 1) + [hi - 1]
  }

  predicate Distinct(xs: seq<int>)
  {
    forall i, j :: 0 <= i < j < |xs| ==> xs[i] != xs[j]
  }

  /** `perm` is an ordering of `0 .. n-1`: its first `k` entries are what
      `np.random.choice(n, size=k, replace=False)` draws. */
  predicate IsOrdering(perm: seq<int>, n: int)
  {
    |perm| == n && Distinct(perm) && forall i :: 0 <= i < |perm| ==> 0 <= perm[i] < n
  }

  /** `x + k` for every entry. */
  function Shift(xs: seq<int>, k: int): (r: seq<int>)
    ensures |r| == |xs| && forall i :: 0 <= i < |r| ==> r[i] == xs[i] + k
  {
    seq(|xs|, i requires 0 <= i < |xs| => xs[i] + k)
  }

  /** The indices `_callback` of `ReinforcementLearningDataset` turns into
      examples for an episode of `episodeLength` observations with history
      `h`: all of `h .. len-1` without a maximum; with one, all of them if
      there are at most that many, else that many distinct ones drawn
      without replacement (a negative maximum is a ValueError of
      `np.random.choice`). */
  function SampleIndices(episodeLength: int, h: int, maxSamples: Option<int>, perm: seq<int>): (r: Result<seq<int>>)
    requires maxSamples.Some? && episodeLength - h > maxSamples.value >= 0 ==> IsOrdering(perm, episodeLength - h)
    ensures maxSamples.None? ==> r == Ok(Span(h, episodeLength))
    ensures r.Err? <==> maxSamples.Some? && episodeLength - h > maxSamples.value && maxSamples.value < 0
    ensures r.Err? ==> r.error == "ValueError"
    ensures r.Ok? ==>
      && Distinct(r.value)
      && (forall i :: 0 <= i < |r.value| ==> h <= r.value[i] < episodeLength)
      && |r.value| == (if maxSamples.Some? && episodeLength - h > maxSamples.value then maxSamples.value
                       else if episodeLength > h then episodeLength - h else 0)
  {
    if maxSamples.None? then Ok(Span(h, episodeLength))
    else
      var n := episodeLength - h;
      if n <= maxSamples.value then Ok(Shift(Span(0, n), h))
      else if maxSamples.value < 0 then Err("ValueError")
      else Ok(Shift(perm[..maxSamples.value], h))
  }

  /** Without a maximum, or with one the episode does not exceed, every
      index from `h` on is used, in order. */
  lemma SampleIndicesAll(episodeLength: int, h: int, maxSamples: Option<int>, perm: seq<int>)
    requires maxSamples.None? || episodeLength - h <= maxSamples.value
    ensures SampleIndices(episodeLength, h, maxSamples, perm) == Ok(Span(h, episodeLength))
  {
    var r := SampleIndices(episodeLength, h, maxSamples, perm);
    assert r.value == Span(h, episodeLength);
  }

  /** Python's `xs[lo:hi]` for `0 <= lo`, clipped at the end of `xs`. */
  function Slice<T>(xs: seq<T>, lo: nat, hi: int): (r: seq<T>)
    ensures lo <= hi <= |xs| ==> r == xs[lo..hi]
    ensures |r| <= |xs|
  {
    var e := if hi < |xs| then hi else |xs|;
    if lo >= e then [] else xs[lo..e]
  }

  /** What `_write_example` stores for one index: the observation window (no
      frames when `o` is not stored), the actions and rewards of the window,
      and the next observation (no frame when it is not stored). */
  datatype Example = Example(o: seq<Frame>, a: Option<seq<int>>, r: Option<seq<real>>, nextO: seq<Frame>)

  /** Which parts of a transition a dataset stores, and the history length. */
  datatype Storage = Storage(storeO: bool, storeA: bool, storeR: bool, storeNextO: bool, history: nat)

  /** The example of index `idx`: the `h` observations before it, their
      actions and rewards, and observation `idx` itself. */
  function ExampleAt(st: Storage, o: seq<Frame>, a: seq<int>, r: seq<real>, idx: int): (e: Example)
    requires st.history <= idx < |o|
    ensures st.storeO ==> e.o == o[idx - st.history..idx] && |e.o| == st.history
    ensures !st.storeO ==> e.o == []
    ensures st.storeNextO ==> e.nextO == [o[idx]]
    ensures !st.storeNextO ==> e.nextO == []
    ensures e.a.Some? <==> st.storeA
    ensures e.r.Some? <==> st.storeR
    ensures idx <= |a| && st.storeA ==> e.a == Some(a[idx - st.history..idx])
    ensures idx <= |r| && st.storeR ==> e.r == Some(r[idx - st.history..idx])
  {
    var lo := idx - st.history;
    Example(
      if st.storeO then o[lo..idx] else [],
      if st.storeA then Some(Slice(a, lo, idx)) else None,
      if st.storeR then Some(Slice(r, lo, idx)) else None,
      if st.storeNextO then [o[idx]] else [])
  }

  /** `ReinforcementLearningDataset` with the state `_callback` changes: the
      examples written and the running count `_n_examples`. */
  class RLDataset {
    const storage: Storage
    const maxSamples: Option<int>
    var written: seq<Example>
    var nExamples: int

    constructor (storage: Storage, maxSamples: Option<int>)
      ensures this.storage == storage && this.maxSamples == maxSamples
      ensures written == [] && nExamples == 0
    {
      this.storage, this.maxSamples := storage, maxSamples;
      written, nExamples := [], 0;
    }

    /** `_callback(o, a, r)` for one recorded episode: one example per
      sampled index, written in order, each counted once. A stored window of
      no frames cannot be concatenated (ValueError), an example with neither
      observation stored has no image to split (TypeError); the sampling errors are
      those of `SampleIndices`, raised before anything is written. */
    method Callback(o: seq<Frame>, a: seq<int>, r: seq<real>, perm: seq<int>) returns (res: Result<()>)
      requires maxSamples.Some? && |o| - storage.history > maxSamples.value >= 0 ==>
        IsOrdering(perm, |o| - storage.history)
      modifies this
      ensures var idx := SampleIndices(|o|, storage.history, maxSamples, perm);
        && (idx.Err? ==> res == Err(idx.error) && written == old(written) && nExamples == old(nExamples))
        && (idx.Ok? && idx.value != [] && storage.storeO && storage.history == 0 ==>
              res == Err("ValueError") && written == old(written) && nExamples == old(nExamples))
        && (idx.Ok? && idx.value != [] && !storage.storeO && !storage.storeNextO ==>
              res == Err("TypeError") && written == old(written) && nExamples == old(nExamples))
        && (res.Ok? ==>
              && idx.Ok?
              && |written| == |old(written)| + |idx.value|
              && written[..|old(written)|] == old(written)
              && (forall k :: 0 <= k < |idx.value| ==>
                    written[|old(written)| + k] == ExampleAt(storage, o, a, r, idx.value[k]))
              && nExamples == old(nExamples) + |idx.value|)
      ensures res.Ok? || res.error == "ValueError" || res.error == "TypeError"
    {
      var idx := SampleIndices(|o|, storage.history, maxSamples, perm);
      if idx.Err? {
        return Err(idx.error);
      }
      var indices := idx.value;
      if indices != [] && storage.storeO && storage.history == 0 {
        return Err("ValueError");
      }
      if indices != [] && !storage.storeO && !storage.storeNextO {
        return Err("TypeError");
      }
      for k := 0 to |indices|
        invariant |written| == |old(written)| + k && written[..|old(written)|] == old(written)
        invariant forall j :: 0 <= j < k ==> written[|old(written)| + j] == ExampleAt(storage, o, a, r, indices[j])
        invariant nExamples == old(nExamples) + k
      {
        written := written + [ExampleAt(storage, o, a, r, indices[k])];
        nExamples := nExamples + 1;
      }
      return Ok(());
    }
  }

  /** `int(x)` on a float: truncation toward zero. */
  function TruncInt(x: real): (n: int)
    ensures x >= 0.0 ==> n as real <= x < n as real + 1.0
    ensures x < 0.0 ==> n as real - 1.0 < x <= n as real
  {
    if x >= 0.0 then x.Floor else -((-x).Floor)
  }

  /** The example `RewardClassificationDataset._callback` writes for step
      `idx`: that observation, that action and the reward cut to an
      integer. A reward missing from the recording is an IndexError. */
  function RewardExample(o: seq<Frame>, a: seq<int>, r: seq<real>, idx: nat): (e: Result<Example>)
    requires idx < |o|
    ensures e.Err? <==> idx >= |r|
    ensures e.Ok? ==>
      && e.value.o == [o[idx]] && e.value.nextO == []
      && e.value.a == Some(Slice(a, idx, idx + 1))
      && e.value.r == Some([TruncInt(r[idx]) as real])
  {
    if idx >= |r| then Err("IndexError")
    else Ok(Example([o[idx]], Some(Slice(a, idx, idx + 1)), Some([TruncInt(r[idx]) as real]), []))
  }

  /** The indices of `RewardClassificationDataset._callback`: an episode of
      `n` observations has `n - 1` steps; an episode of one observation
      yields none; more steps than the maximum are sampled down to it. */
  function RewardIndices(nObs: nat, maxSamples: Option<int>, perm: seq<int>): (r: Result<seq<int>>)
    requires maxSamples.Some? && nObs - 1 > maxSamples.value >= 0 ==> IsOrdering(perm, nObs - 1)
    ensures nObs == 1 ==> r == Ok([])
    ensures r.Err? <==> nObs != 1 && maxSamples.Some? && nObs - 1 > maxSamples.value && maxSamples.value < 0
    ensures r.Ok? ==>
      && Distinct(r.value)
      && (forall i :: 0 <= i < |r.value| ==> 0 <= r.value[i] < nObs - 1)
      && |r.value| == (if nObs == 1 then 0
                       else if maxSamples.Some? && nObs - 1 > maxSamples.value then maxSamples.value
                       else if nObs > 1 then nObs - 1 else 0)
  {
    var length := nObs - 1;
    if length == 0 then Ok([])
    else if maxSamples.Some? && length > maxSamples.value then
      if maxSamples.value < 0 then Err("ValueError") else Ok(perm[..maxSamples.value])
    else Ok(Span(0, length))
  }

  /** `RewardClassificationDataset._callback(o, a, r)`: the examples of the
      sampled steps, in order; an index error on a missing reward stops it. */
  method RewardCallback(o: seq<Frame>, a: seq<int>, r: seq<real>, maxSamples: Option<int>, perm: seq<int>)
      returns (res: Result<seq<Example>>)
    requires maxSamples.Some? && |o| - 1 > maxSamples.value >= 0 ==> IsOrdering(perm, |o| - 1)
    ensures |o| == 1 ==> res == Ok([])
    ensures res.Ok? ==>
      var idx := RewardIndices(|o|, maxSamples, perm);
      && idx.Ok? && |res.value| == |idx.value|
      && forall k :: 0 <= k < |idx.value| ==> RewardExample(o, a, r, idx.value[k]) == Ok(res.value[k])
    ensures |r| >= |o| - 1 && RewardIndices(|o|, maxSamples, perm).Ok? ==> res.Ok?
  {
    var idx := RewardIndices(|o|, maxSamples, perm);
    if idx.Err? {
      return Err(idx.error);
    }
    var indices := idx.value;
    var out: seq<Example> := [];
    for k := 0 to |indices|
      invariant |out| == k
      invariant forall j :: 0 <= j < k ==> RewardExample(o, a, r, indices[j]) == Ok(out[j])
    {
      var e := RewardExample(o, a, r, indices[k]);
      if e.Err? {
        return Err(e.error);
      }
      out := out + [e.value];
    }
    return Ok(out);
  }

  /** The games whose frames are 250 pixels high. */
  const TwoFifty: seq<string> := ["Amidar", "WizardOfWor", "DoubleDunk", "Centipede", "Tennis", "BankHeist",
    "Skiing", "Carnival", "Pooyan", "AirRaid", "Assault", "Tutankham", "Gopher", "VideoPinball"]

  /** `StaticAtariDataset.obs_shape`, first matching rule: post-processed
      tiles; warped frames; JourneyEscape; the 250-pixel games; the rest. */
  function ObsShapeRule(postprocessing: string, tileShape: (int, int), afterWarp: bool, game: string): (s: (int, int, int))
    ensures postprocessing != "" ==> s == (tileShape.0, tileShape.1, 3)
    ensures postprocessing == "" && afterWarp ==> s == (84, 84, 1)
    ensures postprocessing == "" && !afterWarp ==>
      s == (if Contains(game, "JourneyEscape") then (230, 160, 3)
            else if exists g :: g in TwoFifty && Contains(game, g) then (250, 160, 3)
            else (210, 160, 3))
  {
    if postprocessing != "" then (tileShape.0, tileShape.1, 3)
    else if afterWarp then (84, 84, 1)
    else if Contains(game, "JourneyEscape") then (230, 160, 3)
    else if exists g :: g in TwoFifty && Contains(game, g) then (250, 160, 3)
    else (210, 160, 3)
  }

  /** Raw Atari frames are 160 wide with three channels. */
  lemma RawFramesWide(game: string)
    ensures ObsShapeRule("", (0, 0), false, game).1 == 160 && ObsShapeRule("", (0, 0), false, game).2 == 3
    ensures ObsShapeRule("", (0, 0), false, game).0 in {210, 230, 250}
  {
  }

  /** A string none of whose characters starts `sub` does not contain it. */
  lemma AbsentFirst(s: string, sub: string)
    requires |sub| > 0 && sub[0] !in s
    ensures !Contains(s, sub)
  {
  }

  /** `Tennis` frames are 250 high; JourneyEscape is checked first. */
  lemma ObsShapeExamples()
    ensures ObsShapeRule("", (0, 0), false, "TennisNoFrameskip-v4") == (250, 160, 3)
    ensures ObsShapeRule("", (0, 0), false, "Pong") == (210, 160, 3)
    ensures ObsShapeRule("tile", (48, 48), true, "Pong") == (48, 48, 3)
  {
    assert OccursAt("TennisNoFrameskip-v4", "Tennis", 0);
    assert "Tennis" in TwoFifty && Contains("TennisNoFrameskip-v4", "Tennis");
    AbsentFirst("TennisNoFrameskip-v4", "JourneyEscape");
    assert !Contains("Pong", "JourneyEscape");
    forall g | g in TwoFifty
      ensures !Contains("Pong", g)
    {
      assert |g| > |"Pong"|;
    }
  }

  /** `StaticAtariDataset` with its memo of `obs_shape`. */
  class StaticAtari {
    const postprocessing: string
    const tileShape: (int, int)
    const afterWarp: bool
    const game: string
    var obsShapeMemo: Option<(int, int, int)>

    constructor (postprocessing: string, tileShape: (int, int), afterWarp: bool, game: string)
      ensures this.postprocessing == postprocessing && this.tileShape == tileShape
      ensures this.afterWarp == afterWarp && this.game == game && obsShapeMemo == None
    {
      this.postprocessing, this.tileShape, this.afterWarp, this.game := postprocessing, tileShape, afterWarp, game;
      obsShapeMemo := None;
    }

    /** `obs_shape`: computed by the rule on first use and remembered; a
      later call returns the remembered shape. */
    method ObsShape() returns (s: (int, int, int))
      modifies this
      ensures old(obsShapeMemo).Some? ==> s == old(obsShapeMemo).value && obsShapeMemo == old(obsShapeMemo)
      ensures old(obsShapeMemo).None? ==> s == ObsShapeRule(postprocessing, tileShape, afterWarp, game)
      ensures obsShapeMemo == Some(s)
    {
      if obsShapeMemo.None? {
        obsShapeMemo := Some(ObsShapeRule(postprocessing, tileShape, afterWarp, game));
      }
      s := obsShapeMemo.value;
    }
  }

  /** A feature of a dataset: its name and its shape. */
  datatype Feature = ImageFeature(name: string, shape: seq<int>) | ArrayFeature(name: string, shape: seq<int>)

  /** The features an optional part contributes: itself when stored. */
  function Stored(flag: bool, f: Feature): (fs: seq<Feature>)
    ensures forall g :: g in fs <==> flag && g == f
  {
    if flag then [f] else []
  }

  /** `ReinforcementLearningDataset.features`: o, a, r and next_o, each
      exactly when stored, in that order; the observation channels and the
      action and reward sizes are multiplied by the history length. */
  function Features(st: Storage, obsShape: (int, int, int), actionDim: int, rewardDim: int): (fs: seq<Feature>)
    ensures |fs| == (if st.storeO then 1 else 0) + (if st.storeA then 1 else 0)
                  + (if st.storeR then 1 else 0) + (if st.storeNextO then 1 else 0)
    ensures forall f :: f in fs <==>
      || (st.storeO && f == ImageFeature("o", [obsShape.0, obsShape.1, obsShape.2 * st.history]))
      || (st.storeA && f == ArrayFeature("a", [actionDim * st.history]))
      || (st.storeR && f == ArrayFeature("r", [rewardDim * st.history]))
      || (st.storeNextO && f == ImageFeature("next_o", [obsShape.0, obsShape.1, obsShape.2]))
    ensures st.storeO ==> fs[0].name == "o"
    ensures st.storeNextO ==> fs[|fs| - 1].name == "next_o"
  {
    Stored(st.storeO, ImageFeature("o", [obsShape.0, obsShape.1, obsShape.2 * st.history]))
    + Stored(st.storeA, ArrayFeature("a", [actionDim * st.history]))
    + Stored(st.storeR, ArrayFeature("r", [rewardDim * st.history]))
    + Stored(st.storeNextO, ImageFeature("next_o", [obsShape.0, obsShape.1, obsShape.2]))
  }

  predicate HasFeature(fs: seq<Feature>, name: string)
  {
    exists f :: f in fs && f.name == name
  }

  /** Each part has a feature exactly when its flag is set. */
  lemma FeaturesPresent(st: Storage, obsShape: (int, int, int), actionDim: int, rewardDim: int)
    ensures var fs := Features(st, obsShape, actionDim, rewardDim);
      && (HasFeature(fs, "o") <==> st.storeO) && (HasFeature(fs, "a") <==> st.storeA)
      && (HasFeature(fs, "r") <==> st.storeR) && (HasFeature(fs, "next_o") <==> st.storeNextO)
  {
    var fs := Features(st, obsShape, actionDim, rewardDim);
    if st.storeO {
      assert ImageFeature("o", [obsShape.0, obsShape.1, obsShape.2 * st.history]) in fs;
    }
    if st.storeA {
      assert ArrayFeature("a", [actionDim * st.history]) in fs;
    }
    if st.storeR {
      assert ArrayFeature("r", [rewardDim * st.history]) in fs;
    }
    if st.storeNextO {
      assert ImageFeature("next_o", [obsShape.0, obsShape.1, obsShape.2]) in fs;
    }
  }

  /** `RewardClassificationDataset.features`: the observation, the action
      and a one-entry reward, whatever the storage flags say. */
  function RewardFeatures(obsShape: (int, int, int), actionDim: int): (fs: seq<Feature>)
    ensures |fs| == 3 && fs[0].name == "o" && fs[1].name == "a" && fs[2] == ArrayFeature("r", [1])
    ensures fs[0].shape == [obsShape.0, obsShape.1, obsShape.2] && fs[1].shape == [actionDim]
  {
    [ImageFeature("o", [obsShape.0, obsShape.1, obsShape.2]), ArrayFeature("a", [actionDim]), ArrayFeature("r", [1])]
  }
}
