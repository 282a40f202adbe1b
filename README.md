# dps: experiment control, job bookkeeping and task arithmetic, in Dafny

This project models the deterministic core of `dps`, a research framework for
training reinforcement-learning and program-induction agents. What it covers:

- **Curriculum driver** (`dps/train.py`): the stage loop of `TrainingLoop`, which
  decides when a stage ends, when it evaluates, checkpoints or fires hooks, and
  whether the curriculum goes on. It also covers the `EarlyStopHook` state machine.
- **Hyper-parameter search** (`dps/parallel/hyper.py`): config enumeration and
  sampling, the fan-out into repeats, `nested_map`, the per-run records of
  `extract_data_from_job`, and the name-retry loop of `build_search`.
- **Job controller** (`dps/parallel/submit_job.py`): time parsing, step planning,
  host recruitment with its idempotent staging, the exit-code contract of
  `execute_command`, and the retry/dead-job loop of `run`.
- **Shape arithmetic** (`dps/utils/pytorch.py`): convolution and transposed
  convolution sizes, receptive-field bookkeeping, `SimpleConvNet` layer specs,
  UNET padding and cropping, the permutations of `reshape_and_apply`,
  `repeat_along_axis` and the `_iter_graph` traversal.
- **Arithmetic tasks** (`hard_addition.py`, `simple_arithmetic.py`,
  `grid_arithmetic.py`, `simple_grid_arithmetic.py`): little-endian digit
  encodings, dataset layout (operator placement, one-hot targets), string
  parsing of reductions and actions, and the register updates taken under
  one-hot actions.
- **Small simulators and indexing** (`xo.py`, `gym_env.py`, `atari.py`,
  `yolo_rl.py`, `yolo_air.py`): rectangle geometry and collision counting, the
  batched environment pool, episode sample windows, the observation-shape
  memo, and the YOLO grid bookkeeping. The YOLO part covers grid sizes, the
  prime-factor backbone layout, the look-back context, the fetch tree, the
  cost accumulation, the batch-weighted evaluation average and the object
  counts.

Randomness, wall-clock time, subprocess exit codes and the results of updaters,
policies and environments are parameters of the model: oracle functions or
recorded values.

`digits_to_numbers`/`numbers_to_digits` are duplicated in `hard_addition.py` and
`simple_arithmetic.py`; they are modelled once, in `Digits`.
`_get_sequential_input` and the `Evaluator` fetch tree of `yolo_air.py` are the
same code as in `yolo_rl.py`; they are modelled once, in `YoloRL`, and used by
`YoloAir`.

The modules are:

| module | what it models |
|---|---|
| `Wrappers` | `Option` and `Result` |
| `Strings` | Python `str` operations |
| `Sorting` | `sorted` by key |
| `Dicts` | `dict(pairs)` and `sorted(d)` |
| `Arith` | integer facts |
| `Activations` | one-hot action vectors |
| `Grids` | writing an example into a blank grid |
| `EarlyStop`, `Train` | `dps/train.py` |
| `Hyper`, `Search` | `dps/parallel/hyper.py` |
| `SubmitJob` | `dps/parallel/submit_job.py` |
| `ConvShapes`, `ConvStacks`, `TensorLayout`, `GradGraph` | `dps/utils/pytorch.py` |
| `Digits`, `HardAddition` | `dps/experiments/hard_addition.py` |
| `SimpleArithmetic` | `dps/experiments/simple_arithmetic.py` |
| `GridArithmetic` | `dps/envs/grid_arithmetic.py` |
| `SimpleGridArithmetic` | `dps/envs/simple_grid_arithmetic.py` |
| `XO` | `dps/datasets/xo.py` |
| `GymEnv` | `dps/gym_env.py` |
| `Atari` | `dps/datasets/atari.py` |
| `YoloRL` | `dps/env/advanced/yolo_rl.py` |
| `YoloAir` | `dps/env/advanced/yolo_air.py` |

Where the code does something its own comments, docstrings or evident purpose
say it should not, the model follows the code. It records the discrepancy under
"## Findings" and proves the intended behaviour for a corrected member beside it.

## Model

| member | source | states |
|---|---|---|
| Train.TimeRemaining | dps/train.py:107-117 | A parseable deadline decides the time left. Without one, the result is infinite exactly when `max_time` is None or not positive, and otherwise `max_time - elapsed`. |
| Train.NoLimitNeverOutOfTime | dps/train.py:107-117 | Without a deadline and without a positive `max_time`, the `time_remaining <= 1` test never stops a run. |
| Train.ParseStoppingCriteria | dps/train.py:337-350 | Fewer than two items is an IndexError. The name is item 0. The direction is "maximize" exactly when item 1 contains "max". The result is accepted exactly when item 1 contains "max" or "min". |
| Train.ParseStoppingCriteriaText | dps/train.py:340-350 | The text `name,direction` reads back as that name and direction. |
| Train.HookFiresOnMultiples | dps/train.py:488-490 | Past step 0, a hook fires exactly on the positive multiples of its `n`. |
| Train.LoadSource | dps/train.py:262-273 | A non-empty list is indexed by `repeat % len`. A non-empty path is used as is. Otherwise, from stage 1 on with `preserve_policy`, the previous stage's `best_path` is used. |
| Train.LoadPathCycles | dps/train.py:263-265 | Every repeat gets one of the listed paths, and repeats `len` apart get the same one. |
| Train.PassAt | dps/train.py:412-513 | One pass of `_run_stage` at local step k. A checkpoint is yielded exactly when k > 0 and `checkpoint_step` divides k. It evaluates exactly on eval or display steps, and only an evaluation consults the early-stop hook. The pass ends the stage for early stopping exactly when the hook says stop, and for the threshold exactly when the hook did not stop and the threshold was passed strictly. Without `do_train` the pass always ends the stage. |
| Train.Evaluation | dps/train.py:434-481 | The evaluation part of a pass: the hook's new state, early stopping checked before the strict threshold test, and one validation record appended. |
| Train.StageFromPass | dps/train.py:399-513 | A pass that no interrupt or time-out stops and that gets past both limit tests either ends the stage with its reason, or the stage continues from the next local step. |
| Train.StageFromTop | dps/train.py:363-407 | An interrupt or a time-out arriving on a step abandons the loop there with "User interrupt" or "Time limit exceeded". Otherwise `max_steps` is checked first, then `max_experiences`; either ends the stage before any update. |
| Train.Stage | dps/train.py:391-516 | A stage makes at most `max_steps` local steps, never passes the step a cut arrives on, and keeps its entry's stage index. |
| Train.StageLog | dps/train.py:399-513 | The passes of a stage are local steps 0, 1, … in order. The stage ends on the step after its last pass, or on that pass when it breaks out of it. Checkpoints fall exactly on the positive multiples of `checkpoint_step`. An interrupt or a time-out ends the stage only on its own step. |
| Train.StageFromExtends | dps/train.py:399-513 | A stage never ends before the step it is at, and keeps the log of the passes already made. |
| Train.UncutReason | dps/train.py:391-516 | Without an interrupt or a time-out, the loop never reports "User interrupt" or "Time limit exceeded". |
| Train.CutTruncates | dps/train.py:363-368 | An interrupt or a time-out changes nothing about a stage that ends on its own before it arrives. Otherwise the stage stops on the step it arrives on, for its reason, after exactly the passes the uninterrupted stage makes before that step. |
| Train.RunsToMaxSteps | dps/train.py:400-402 | With `max_steps = n`, a stage that trains and that no early stop, threshold or experience limit can end stops for its step limit after exactly n passes. |
| Train.NoTrainingOnePass | dps/train.py:504-506 | With `do_train` off, a stage makes at most one pass and never advances the local step. When the limits allow that pass, the pass ends the stage. Early stopping can end it only with a negative patience. |
| Train.ThresholdOnlyWithoutStop | dps/train.py:461-472 | A stage that ends at its threshold was not flagged by the early-stop hook, and has a best record. |
| Train.StageRun | dps/train.py:333-389 | A bad stopping-criteria setting raises. Otherwise the run raises exactly when a time-out arrives before the stage would end on its own and `error_on_timeout` is set. Without an interrupt or time-out in time, it is the uninterrupted stage. With one, the stage stops on that step with "User interrupt" or "Time limit exceeded". The threshold flag is set exactly when the reason is the threshold, so an interrupted or timed-out stage reports none. The stage index is kept. |
| Train.Runner | dps/train.py:399-411 | A zero step interval raises `ZeroDivisionError`. A stage that runs keeps its entry's index. |
| Train.CurriculumStops | dps/train.py:186-190 | A run that raises nothing starts exactly the stages the time check and the threshold/`power_through` rule allow. It records one threshold flag per started stage. |
| Train.CurriculumHistory | dps/train.py:194 | The final history extends the initial one by one entry per started stage, in stage order. |
| Train.CurriculumAt | dps/train.py:186-312 | At a stage the time check lets start, the run either raises that stage's exception, or ends after it, or goes on from the next stage. |
| Train.CurriculumDone | dps/train.py:186-190 | With the stages used up or the time out, the run ends with the history and flags so far. |
| Train.CurriculumStep | dps/train.py:309-312 | Past a stage that lets the run go on, the run continues from the next stage with the state that stage left. |
| Train.Curriculum | dps/train.py:174-331 | `training_loop`'s run has one history entry per started stage, in order, and starts exactly the stages the rules allow. |
| Train.CutAtStartRaises | dps/train.py:280-291 | A stage interrupted or timed out before its first pass saved no best hypothesis. A run that reaches it raises, with `KeyError` when loading the best unless the criteria or the time-out raised first. |
| Train.TrainingLoop.constructor | dps/train.py:45-49 | Empty history, steps at 0. |
| Train.TrainingLoop.Record | dps/train.py:51-54 | With no history it is an IndexError. Otherwise it updates the last entry's fields and leaves the earlier entries and the steps unchanged. |
| Train.TrainingLoop.RunPass | dps/train.py:412-513 | The pass body leaves the hook, the last history entry and the pass record as `PassAt` says. |
| Train.TrainingLoop.Evaluate | dps/train.py:434-481 | The evaluation step leaves the state as `Evaluation` says. |
| Train.TrainingLoop.LoopTurn | dps/train.py:363-513 | One turn of the loop, an interrupt or time-out arriving on it included, either ends the stage as `StageFrom` says, or leaves the state from which `StageFrom` continues at the next step. |
| Train.TrainingLoop.NextStep | dps/train.py:511-512 | Both step counters advance by one. |
| Train.TrainingLoop.RunStageLoop | dps/train.py:363-516 | `_run_stage`, abandoned where an interrupt or time-out arrives, returns the reason, the threshold flag and the passes of `Stage`, and yields checkpoints on the positive multiples of `checkpoint_step`. |
| Train.TrainingLoop.RunStage | dps/train.py:333-389 | `run_stage` leaves the history as `StageRun` says, or raises. |
| Train.TrainingLoop.StartStage | dps/train.py:194-294 | One stage of `_run` appends the stage's entry and runs it, then records its reason and the test results of its best hypothesis. A missing `best_path` is a KeyError. |
| Train.TrainingLoop.CurriculumTurn | dps/train.py:186-312 | One turn of `_run` either raises as `CurriculumFrom` does, or ends the run, or goes on from the next stage. |
| Train.TrainingLoop.Run | dps/train.py:174-331 | The history `_run` builds is the one `Curriculum` specifies. The last value yielded is the summary of that history. |
| EarlyStop.CheckStep | dps/train.py:525-544 | After a check there is always a best. The first check is a new best, and a tie never is. A new best stores the value, step and record, and otherwise the best is unchanged. The stop flag is sticky. |
| EarlyStop.BestIndex | dps/train.py:525-539 | Reference definition of the best observation: no observation beats it, and it beats every earlier one. |
| EarlyStop.ChecksKeepFirstOptimum | dps/train.py:525-539 | After a fresh start, the hook holds the first optimal observation's value, step and record. |
| EarlyStop.StopIsSticky | dps/train.py:541-543 | Once up, the stop flag stays up through any later checks. |
| EarlyStop.StopsWhenLate | dps/train.py:541-543 | The flag is up exactly when it was already up, or some check came more than `patience` steps after the best step. |
| EarlyStop.UnlimitedNeverStops | dps/train.py:541-543 | With infinite patience the hook never asks to stop. |
| EarlyStop.BestOf | dps/train.py:546-550 | `best` is a copy of the best record plus `stopping_criteria` and `local_step`, and there is none before the first check. |
| EarlyStop.EarlyStopHook.constructor | dps/train.py:520-523 | A fresh hook with the given patience and direction. |
| EarlyStop.EarlyStopHook.Reset | dps/train.py:552-556 | The hook is fresh again. |
| EarlyStop.EarlyStopHook.Check | dps/train.py:534-544 | The new state and the new-best flag are `CheckStep`'s, and the stop flag is returned. |
| EarlyStop.EarlyStopHook.BestRecord | dps/train.py:546-550 | Returns `BestOf` of the state. |
| Hyper.SortedProduct | dps/parallel/hyper.py:96 | `sorted(product(*lists))` holds every combination picking one element of each list, in lexicographic order. There are as many as the product of the lengths. |
| Hyper.ProductMembers | dps/parallel/hyper.py:96 | The product holds exactly the tuples picking one element per list. |
| Hyper.BuildConfigs | dps/parallel/hyper.py:98-103 | The loop builds one config per row: the plain values, with the row assigned to the keys. |
| Hyper.AssignValues | dps/parallel/hyper.py:100-101 | After the assignments the keys hold the row, and every other key is as before. |
| Hyper.ClassifyAll | dps/parallel/hyper.py:83-94 | The loop over `sorted(flat.keys())` collects lists of choices for the iterable values and keeps the others aside. It raises at the first continuous distribution. |
| Hyper.GenerateAll | dps/parallel/hyper.py:74-104 | `generate_all` raises exactly when a value is a continuous distribution, and otherwise returns the configs of the sorted product. |
| Hyper.AllConfigsCount | dps/parallel/hyper.py:96 | There are as many configs as the product of the lengths of the enumerable values: one when there is none, none when a list is empty. |
| Hyper.AllConfigsKeys | dps/parallel/hyper.py:98-103 | Every config holds every key. Plain values are unchanged, and each enumerable key holds one of its choices. |
| Hyper.AllConfigsEnumerate | dps/parallel/hyper.py:96-103 | Read as tuples in sorted key order, the configs are sorted, each picks one choice per enumerable key, and every combination appears. |
| Hyper.ConfigsTuples | dps/parallel/hyper.py:98-103 | Read back at the keys, each config is its row. |
| Hyper.Zip | dps/parallel/hyper.py:64 | `zip(*cols)` has as many tuples as the shortest column, and none without columns. |
| Hyper.ClassifySample | dps/parallel/hyper.py:50-62 | The loop of `nested_sample` draws values for the iterable and continuous keys and keeps the other values as they are. |
| Hyper.NestedSample | dps/parallel/hyper.py:41-71 | `nested_sample` returns the configs of the sorted zipped draws. |
| Hyper.SampledConfigsCount | dps/parallel/hyper.py:64-71 | With `n_samples` draws per key there are `n_samples` configs, and none when no key is drawn from. |
| Hyper.SampledConfigsKeys | dps/parallel/hyper.py:66-70 | Each config holds every key: the kept values unchanged, and a drawn value at every other key. |
| Hyper.SampledConfigsTuples | dps/parallel/hyper.py:64 | Read as tuples, the configs are sorted and are exactly the drawn tuples. |
| Hyper.SampledChoicesAreChoices | dps/parallel/hyper.py:53 | A value drawn from a list is one of its elements. |
| Hyper.Chosen | dps/parallel/hyper.py:125-129 | From a list of samples: all of them in order when `n_samples` is falsy, otherwise the first `n_samples` of a permutation. |
| Hyper.ChosenPositionsDistinct | dps/parallel/hyper.py:129 | A permutation's prefix picks no sample twice. |
| Hyper.FanOutIndex | dps/parallel/hyper.py:139-148 | There are `len(samples) * n_repeats` configs. The one at position `i*n_repeats + r` is sample i with `idx == i`, `repeat == r` and the seed drawn there. |
| Hyper.FanOutStep | dps/parallel/hyper.py:140-146 | Appending the copies of sample i leaves the copies of the later samples to follow. |
| Hyper.AppendRepeats | dps/parallel/hyper.py:142-146 | One copy of the sample per repeat, tagged with `repeat` and a fresh seed. |
| Hyper.TagSample | dps/parallel/hyper.py:141 | `s['idx'] = i` changes that key only. |
| Hyper.TagAndCopy | dps/parallel/hyper.py:140-146 | One turn of the loop: tag sample i, then append its copies. |
| Hyper.TagAndRepeat | dps/parallel/hyper.py:139-148 | The loop writes `idx` into each sample object, so the caller sees it, and appends the copies. A sample listed twice keeps the `idx` of its last position. |
| Hyper.SampleConfigs | dps/parallel/hyper.py:107-150 | `sample_configs` uses the chosen list, or `generate_all`, or `nested_sample`, then fans out, with the counts and tags above. |
| Search.NestedMapAt | dps/parallel/hyper.py:32-38 | Every path reaches a dict or a value in the result exactly where it does in `d`. Dicts keep their keys and order, and a leaf v becomes `f(v)`. |
| Search.BuildRecord | dps/parallel/hyper.py:464-505 | The record of one run exists exactly when the history is non-empty, its last entry has a stage, the config has a seed, and, when per-timestep data is kept, each of `train_data`, `update_data`, `val_data` and `test_data` in the last entry is a string. Otherwise it raises `IndexError`, `AttributeError` or `KeyError`. |
| Search.BuildRecordFields | dps/parallel/hyper.py:464-505 | Each record holds the last stage as `latest_stage`, and the summed `n_steps` as `total_steps` when every stage has one. It also holds the run's seed, each data key's config value or None, the host and the op name, and not `best_path`. Per-timestep data is absent when omitted, and otherwise is the last entry's value, parsed into a frame when it strips to something non-empty. |
| Search.StampedFields | dps/parallel/hyper.py:467-486 | Stamping the last entry fails, with `AttributeError`, exactly when per-timestep data is kept and one of its values is not a string. Otherwise the record has the host and op name, no `best_path`, and the per-timestep data removed or parsed. |
| Search.ParseDataFails | dps/parallel/hyper.py:481-486 | Over distinct keys, the parse loop fails exactly when a key holds something other than a string, and then with `AttributeError` (no `strip`). |
| Search.ParseDataValues | dps/parallel/hyper.py:481-486 | After the parse loop the record has the same keys. Each listed value that strips to something non-empty is replaced by the frame read from the stripped text, and every other value is left alone. |
| Search.ParseDataKeys | dps/parallel/hyper.py:452-486 | For the four keys `k + '_data'` of `'train update val test'`, the parse fails exactly when one of them holds a non-string, and otherwise parses exactly those four. |
| Search.ExtractData | dps/parallel/hyper.py:427-514 | `as_frame` without `omit_timestep_data` raises. Otherwise there is one record per completed op, in order. Without `as_frame` those records are the result. With it, the result is the frame of those records with each data key's column filled, as `Framed` says. |
| Search.FramedRows | dps/parallel/hyper.py:508-512 | The frame has one row per record. It raises `KeyError` exactly when some data key is not a column of any record. Otherwise each data key's cell is the record's value, or `-inf` where the record has none or `None`, and every other cell is the record's own. |
| Search.EmptyFrameRaises | dps/parallel/hyper.py:508-511 | A job with no completed op gives a frame with no columns, so any data key raises `KeyError`. |
| Search.JobFrameFills | dps/parallel/hyper.py:487-511 | Every record of a job holds every data key. The frame of a job with at least one record therefore raises nothing, and no `None` is left in a data key's column. |
| Search.FilledFrame | dps/parallel/hyper.py:508-511 | Records that all hold every data key frame without error and leave no `None` in a data key's column. |
| Search.RecordsHoldKeys | dps/parallel/hyper.py:459-505 | One record per op, and each holds every data key. |
| Search.SuffixedNames | dps/parallel/hyper.py:207-216 | The retried names `name_0`, `name_1`, … differ from the first name and from each other. |
| Search.FreshName | dps/parallel/hyper.py:207-216 | The retry loop ends on the first name in that sequence that is not taken. |
| SubmitJob.ParseTimedeltaHMS | dps/parallel/submit_job.py:34-37 | "H:M:S" parses to `H*3600 + M*60 + S` seconds. |
| SubmitJob.ParseTimedeltaShort | dps/parallel/submit_job.py:34-37 | Text with fewer than two ':' never parses. |
| SubmitJob.DirectoryNameStamp | dps/parallel/submit_job.py:21-31 | With the date added, the name ends in the timestamp up to its fraction of a second, with each ':', ' ' and '-' turned into '_' and every other character kept. |
| SubmitJob.ExecuteCommand | dps/parallel/submit_job.py:345-356 | Success gives 0. A failure gives the exit code when `robust`, and `CalledProcessError` otherwise. |
| SubmitJob.TimeBudget | dps/parallel/submit_job.py:133-146 | A deadline in the past raises, and so does a cleanup time larger than the wall time. Otherwise the two times come back in seconds. |
| SubmitJob.PlanFits | dps/parallel/submit_job.py:176-193 | A plan gives every operation a processor in some step with no step to spare. It uses a prefix of the hosts and all of their processors. Its steps, each with its slack, fit in the time left after cleanup. |
| SubmitJob.NoHostsNoPlan | dps/parallel/submit_job.py:179-185 | With no host recruited, planning divides by zero and raises `ZeroDivisionError`. |
| SubmitJob.PrepareHost | dps/parallel/submit_job.py:225-276 | `mkdir` runs only when `stat` of the scratch directory fails. The copy runs only when the archive root and the zip are both missing, and the unzip only when the archive root is missing. The first failing non-robust command ends the preparation. |
| SubmitJob.StopAtOvershoot | dps/parallel/submit_job.py:204-209 | Recruiting stops at most one host past the processors asked for. |
| SubmitJob.RecruitedGreedy | dps/parallel/submit_job.py:202-295 | Recruiting takes the usable hosts of a prefix of the pool, in pool order, never more than `max_hosts`. It passes over a host only when that host is unusable. |
| SubmitJob.UsableHostsFromPool | dps/parallel/submit_job.py:202-280 | Every recruited host is usable and comes from the pool. |
| SubmitJob.Account | dps/parallel/submit_job.py:477-483 | Every index of the step that is still incomplete counts one more failure, and goes dead once its count exceeds `n_retries`. |
| SubmitJob.NoProcessorsNoProgress | dps/parallel/submit_job.py:466-488 | As written, a step with no processor runs nothing and leaves the remaining indices, the failure counts and the dead set as they were. |
| SubmitJob.Advance | dps/parallel/submit_job.py:469-486 | One step runs the first `n_procs` remaining indices and counts failures. The remaining indices become the incomplete ones that are not dead, kept sorted. The retry ledger is preserved: each remaining index ran once per failure counted against it. The attempts left strictly decrease, which is why `run` terminates. |
| SubmitJob.CarriedAfter | dps/parallel/submit_job.py:477-486 | After a step, the remaining indices are exactly those the results list as incomplete that have run at most `n_retries` times, in order. |
| SubmitJob.Session.constructor | dps/parallel/submit_job.py:165-168 | The session keeps the pool, `ppn`, `min_hosts`, `max_hosts`, `n_retries` and `dry_run`, and starts with no hosts and no processors. |
| SubmitJob.Session.RecruitHosts | dps/parallel/submit_job.py:202-295 | Walks the pool until it ends, `max_hosts` hosts are in, or the hosts hold `max_procs` processors. Fails below `min_hosts`, and otherwise sets `n_procs = ppn * len(hosts)`. |
| SubmitJob.Session.ScheduleStep | dps/parallel/submit_job.py:466-488 | The record of a run grows by one step that ran the first `n_procs` indices of those carried from the previous step. |
| SubmitJob.Session.Run | dps/parallel/submit_job.py:443-491 | An input with no ready op raises `AttributeError`: the constructor returned before storing `dry_run`. Otherwise `dry_run` returns before any step. A run that succeeds made at least one step, and ran, at each step, the first `n_procs` remaining indices, with `n_procs` positive and equal to what `recruit_hosts` found for that many. The indices remaining before the first step are the input's. Before each later step they are those the previous results list as incomplete that have not yet run `n_retries + 1` times, in order. Once none remain, every index the last results list as incomplete is dead, and every other one completed. The input zip was then backed up and overwritten, both successfully. Every batch was non-empty and sorted. No index ran more than `n_retries + 1` times, and a dead index ran exactly that often. |
| ConvShapes.FloorDiv | dps/utils/pytorch.py:729-730 | Python's `//` rounds toward negative infinity: the quotient times the divisor lies within one divisor of the dividend, on the side the divisor's sign gives. |
| ConvShapes.CeilQuot | dps/utils/pytorch.py:1155 | `ceil(a / b)` for a positive b is the least q with `a <= q * b`. |
| ConvShapes.ConvOut | dps/utils/pytorch.py:729-730 | A stride of 0 raises `ZeroDivisionError`. With a positive stride the result n is the number of windows that fit: `(n - 1) * s + k <= h < n * s + k`. |
| ConvShapes.AxesWindows | dps/utils/pytorch.py:729-730 | When every axis has a kernel, a positive stride and a size, each axis's output counts the windows that fit along it. |
| ConvShapes.AxesMissing | dps/utils/pytorch.py:893-895 | An axis without a kernel or stride entry makes the whole shape an `IndexError`. |
| ConvShapes.AxesOk | dps/utils/pytorch.py:729-730 | A successful shape has one size per axis, each the window count of that axis with its own kernel and stride entries, and every axis had both entries. |
| ConvShapes.ConvOutputShape | dps/utils/pytorch.py:712-732 | A size tuple of the wrong length is a `TypeError` (it is paired with itself and the arithmetic fails). A success gives, per axis, the window count. Every valid size with positive kernels and strides, and enough entries, succeeds. |
| ConvShapes.ConvNetOutputShape | dps/utils/pytorch.py:711-732 | `ConvNet.conv_output_shape` gives a pair, each entry the window count of its axis. It succeeds for every valid size, kernel and stride, and a size tuple of the wrong length is a `TypeError`. |
| ConvShapes.ConvNetWindows | dps/utils/pytorch.py:711-732 | `ConvNet.conv_output_shape` broadcasts a scalar size, kernel or stride to both axes and gives two sizes, each counting the windows that fit. |
| ConvShapes.ConvNet3DScalarFails | dps/utils/pytorch.py:883-893 | As written, `ConvNet3D.conv_output_shape` broadcasts a scalar kernel or stride to a pair only, so the third axis raises `IndexError`. |
| ConvShapes.ConvNet3DOutputShapeAsWritten | dps/utils/pytorch.py:875-893 | As written, a size tuple of the wrong length is a `TypeError`, and only a kernel tuple and a stride tuple of at least three entries can succeed, with each axis's window count. |
| ConvShapes.ConvNet3DDefaultsFail | dps/utils/pytorch.py:874-893 | As written, the defaults `kernel_size=1, stride=1` already raise `IndexError`. |
| ConvShapes.ConvNet3DWindows | dps/utils/pytorch.py:874-896 | Broadcasting scalars to all three axes, as intended, gives three sizes, each counting the windows that fit. |
| ConvShapes.TransposeInputFits | dps/utils/pytorch.py:1127-1142 | For the input size `conv_transpose_input_shape` gives, the transposed convolution reaches the requested size to within one stride below it. |
| ConvShapes.ConvTransposeInputShape | dps/utils/pytorch.py:1127-1142 | An output shape that is not a pair raises `ValueError` at `h, w = output_shape`. A success is a pair, each entry `(h - k) // s + 1` for its own axis. Positive kernels and strides always succeed. |
| ConvShapes.TargetAxisCovers | dps/utils/pytorch.py:1144-1157 | With a positive stride, the target size t of one axis lies in `[x, x + s)`, `t - k` is a multiple of s, and a transposed convolution with the matching input size gives exactly t. |
| ConvShapes.TargetAxisBounds | dps/utils/pytorch.py:1154-1155 | With a positive stride, one axis's target size exists and lies in `[x, x + s)`. |
| ConvShapes.GetTargetShape | dps/utils/pytorch.py:1144-1157 | With `W` from `w` as the docstring intends: a shape that is not a pair raises `ValueError`. With positive strides, both target sizes exist, each at least its own axis and less than one stride above it. |
| ConvShapes.GetTargetShapeRoundTrip | dps/utils/pytorch.py:1127-1157 | `conv_transpose_input_shape` of the corrected target gives an input that the transposed convolution maps to exactly the target, on both axes: the target is "a shape that can be mapped to via a ConvTranspose". |
| ConvShapes.GetTargetShapeIgnoresWidth | dps/utils/pytorch.py:1155 | As written, W is computed from h: the shape `(3, 9)` with kernel 3 and stride 1 gives `(3, 3)`, while the corrected version gives `(3, 9)`. |
| ConvShapes.GetTargetShapeAsWritten | dps/utils/pytorch.py:1145-1160 | As written, a shape that is not a pair raises `ValueError`, and the function fails exactly where the corrected one does and agrees with it on the height. With a positive stride the width lies in `[h, h + s)`, one stride above the height and not the width. |
| ConvShapes.PreservePaddingAsWrittenFloors | dps/utils/pytorch.py:1510-1512 | As written, the cast to int happens before the ceiling, so the padded volume convolves to `floor(n / s)` cells. |
| ConvShapes.PreservePaddingAsWritten | dps/utils/pytorch.py:1507-1515 | As written, the padding of an axis is the intended one when the stride divides the size, and one stride less otherwise. |
| ConvShapes.PadToPreserveShapeAsWritten | dps/utils/pytorch.py:1507-1515 | As written, both padded axes convolve to `floor(size / stride)` cells, not the ceiling the docstring promises. Balanced padding puts the floor half before and the ceiling half after; unbalanced puts none before. |
| ConvShapes.PreservePaddingCeils | dps/utils/pytorch.py:1507 | With the ceiling taken before the cast, the padded volume convolves to `ceil(n / s)` cells, as the docstring promises. |
| ConvShapes.PreservePaddingExample | dps/utils/pytorch.py:1506-1522 | Size 5, kernel 3, stride 2: as written the padding is 0 and gives 2 cells, while corrected it is 2 and gives 3. |
| ConvShapes.Split | dps/utils/pytorch.py:1514-1520 | The two sides add up to the padding. Balanced, the floor half goes before and the ceiling half after; unbalanced, all of it goes after. |
| ConvShapes.PadToPreserveShape | dps/utils/pytorch.py:1506-1522 | With the corrected required shape, both spatial axes, padded, convolve to `ceil(size / stride)` cells, as the docstring promises. Balanced padding puts the floor half before and the ceiling half after; unbalanced puts none before. |
| ConvShapes.MinPad | dps/utils/pytorch.py:1496-1504 | Fewer than four axes is an `IndexError`. Otherwise both volumes are cropped to the smaller of their sizes on axes 2 and 3, and the other axes are unchanged. |
| ConvStacks.RequiredSplit | dps/utils/pytorch.py:946-969 | For any split of the stack, the input the whole stack needs for n cells is what the first part needs to produce the cells the second part needs. |
| ConvStacks.RequiredIsCells | dps/utils/pytorch.py:968-969 | `rf_size + (n - 1) * grid_cell_size` is exactly the input that the stack maps to n cells. |
| ConvStacks.FirstPassInfo | dps/utils/pytorch.py:939-966 | The first loop fails with `AssertionError` exactly when some layer is not a convolution. Otherwise it gives one record per layer, holding the layer's kernel and stride and the field size and grid cell size of the stack up to it. |
| ConvStacks.SecondPassInfo | dps/utils/pytorch.py:975-984 | Starting from the required image, each layer's record gets the number of cells the rest of the stack needs from it, its doubled grid offset and its virtual image size. Every division is exact. |
| ConvStacks.CellsChain | dps/utils/pytorch.py:978 | Layer i's windows exactly tile the cells layer i - 1 produces. |
| ConvStacks.CellCountsChain | dps/utils/pytorch.py:975-986 | Each record's cell count is exactly what the next layer's windows tile. |
| ConvStacks.FirstCells | dps/utils/pytorch.py:968-978 | The first layer's windows exactly tile the required image. |
| ConvStacks.LastOffset | dps/utils/pytorch.py:970-986 | The last layer's grid offset is 0 or one half, so the second assertion never fails. |
| ConvStacks.ReceptiveFieldHolds | dps/utils/pytorch.py:968-986 | The records of both passes tile the required image exactly. The last layer has `ceil(image / grid_cell_size)` cells, so the first assertion never fails. The paddings add up with the image to the required size, and the pre-padding is half the overhang rounded down. |
| ConvStacks.ComputeReceptiveFieldInfo | dps/utils/pytorch.py:932-988 | A layer that is not a convolution raises `AssertionError`, and an empty stack raises `IndexError` at `info[-1]`. Otherwise the result has all the receptive-field properties above, so neither final assertion can fail. |
| ConvStacks.BlockPosition | dps/utils/pytorch.py:1024-1030 | Offset t of block b holds `stride^b * base_n_filters` filters, capped, with the block's stride at t = 0 and stride 1 after it. |
| ConvStacks.BuildSimpleConvSpecs | dps/utils/pytorch.py:1011-1035 | The constructor's loops append `n_layers_in_between + n_conv_blocks * (1 + n_layers_in_between)` conv specs and then `n_fc_layers` fc specs, each spec the one its position determines. |
| ConvStacks.BlockMonotone | dps/utils/pytorch.py:1024-1030 | A later position never lies in an earlier block. |
| ConvStacks.SimpleConvFilters | dps/utils/pytorch.py:1011-1035 | With a stride of at least 1, the filter counts never decrease along the conv layers and never exceed `max_n_filters`, and the first spec after them is fully connected. |
| ConvStacks.SpecFilters | dps/utils/pytorch.py:1013-1030 | Every conv position has `min(stride^block * base_n_filters, max_n_filters)` filters. |
| TensorLayout.Tiled | dps/utils/pytorch.py:71-73 | `expand_dims` then `tile` along the new axis gives one row per element, holding that element n times. |
| TensorLayout.RepeatAlongAxis0 | dps/utils/pytorch.py:53-74 | Along axis 0 each element is repeated n times in place: the result has `len * n` entries, and entry i is input entry `i // n`. |
| TensorLayout.RepeatAlongAxis0Collapse | dps/utils/pytorch.py:53-74 | Taking every n-th entry of the result gives the input back. |
| TensorLayout.RepeatIsNotTile | dps/utils/pytorch.py:54-61 | The docstring's example: `(0, 1, 2)` repeated twice gives `(0, 0, 1, 1, 2, 2)`, whereas `repeat` gives `(0, 1, 2, 0, 1, 2)`. |
| TensorLayout.RepeatAlongAxis | dps/utils/pytorch.py:63-64 | On a 2-D array, an axis of 2 or more is past the end of `repeats` and raises `IndexError`. |
| TensorLayout.RepeatAlongAxis1Index | dps/utils/pytorch.py:53-74 | Along axis 1, row i of the result holds each entry of row i of the input n times in place. |
| TensorLayout.BatchPerm | dps/utils/pytorch.py:95-111 | A signal with `0 < n_batch_dims < ndim` gets a permutation of its axes: the leading batch axes, then the trailing ones, then the others, in order. Any other signal fails the assertion. |
| TensorLayout.BatchOrderIsPermutation | dps/utils/pytorch.py:103-111 | The leading batch axes, then the trailing ones, then the others, form a permutation of the axes, with each axis at its place in that order. |
| TensorLayout.RestorePerm | dps/utils/pytorch.py:138-145 | The restoring permutation has one entry per axis. It orders the reshaped output's axes as the leading batch axes, then the output's own axes (which the reshape put after all batch axes), then the trailing batch axes. |
| TensorLayout.RestoreInvertsBatchPerm | dps/utils/pytorch.py:103-145 | The restoring permutation is a permutation, and it undoes the batch permutation. |
| TensorLayout.RestoreWithoutTrailing | dps/utils/pytorch.py:138 | Without trailing batch axes no permutation is needed: the restoring one is the identity. |
| TensorLayout.PermutedShape | dps/utils/pytorch.py:111-120 | The permuted signal's shape is the batch shape followed by the other axes. |
| TensorLayout.RestoredShape | dps/utils/pytorch.py:133-147 | An output that keeps the signal's other axes is restored to the signal's own shape. |
| TensorLayout.Restore | dps/utils/pytorch.py:134-145 | A restored output has the batch axes plus the output's own axes after its first. |
| TensorLayout.FlattenSignals | dps/utils/pytorch.py:100-124 | The loop fails with `AssertionError` exactly when some signal does not have `0 < n_batch_dims < ndim`. Otherwise every signal becomes one batch axis of `prod(leading) * prod(trailing)` cells followed by its other axes, and the batch shape kept is the last signal's. |
| TensorLayout.RestoreOutputs | dps/utils/pytorch.py:133-149 | No outputs give none. Outputs with no signal leave `batch_shape` unbound and raise `UnboundLocalError`. A reshape whose cell count disagrees raises `RuntimeError`. Otherwise each output is restored to the batch shape followed by its own trailing axes. |
| TensorLayout.ReshapeAndApply | dps/utils/pytorch.py:77-156 | The function is given the flattened signals. Without `restore_shape` its outputs come back untouched. With it, each output is restored to the last signal's batch shape, and a failed assertion is reported as `AssertionError` exactly when some signal has too few axes or no batch axis. |
| GradGraph.PathInClosedSet | dps/utils/pytorch.py:2217-2228 | A set that holds the root and is closed under `next_functions` holds every node reachable from the root. |
| GradGraph.IterGraph | dps/utils/pytorch.py:2217-2228 | The callback is called on the root first, and then exactly once on each node reachable from it through `next_functions`. |
| Digits.DigitsToNumberHorner | dps/experiments/hard_addition.py:15-21 | The little-endian sum `sum(d[i] * base^i)` is the first digit plus base times the number the other digits make. |
| Digits.DigitsToNumberBounds | dps/experiments/hard_addition.py:15-21 | k digits, each in `[0, base)`, make a number in `[0, base^k)`. |
| Digits.ToDigits | dps/experiments/hard_addition.py:24-30 | `numbers_to_digits` gives exactly `n_digits` digits when it returns. It returns only for `n_digits` at least 1: at 0 `np.stack` raises, as `Digits.NumbersToDigits` states. |
| Digits.NumbersToDigits | dps/experiments/hard_addition.py:24-30 | The loop appends `n % base` and floor-divides n by base, `n_digits` times, which gives the little-endian digits of n. With `n_digits` 0 there is nothing to stack, and `np.stack` raises `ValueError`. |
| Digits.NumberRoundTrip | dps/experiments/hard_addition.py:15-30 | Encoding n in k digits and decoding gives `n mod base^k`, the low k digits. For a negative n this is the floored remainder that numpy's `%` and `//` give. |
| Digits.DigitsRoundTrip | dps/experiments/hard_addition.py:15-30 | Decoding valid digits and encoding them again in as many digits gives the same digits back. |
| HardAddition.ZeroRowEnds | dps/experiments/hard_addition.py:41-42 | The last digit of every row is set to 0, and every other cell is unchanged. |
| HardAddition.SumRows | dps/experiments/hard_addition.py:43-47 | The loop adds up the numbers that all rows encode. |
| HardAddition.AddRows | dps/experiments/hard_addition.py:43-47 | Starting from the first row's number, the loop over the other rows ends with the sum of all rows. |
| HardAddition.MakeTarget | dps/experiments/hard_addition.py:40-50 | Width 0 makes `x[:, -1]` an `IndexError` when there is a row. With no row either, `numbers_to_digits(y, 0)` raises `ValueError`. Otherwise every row's last digit is zeroed and the rest left alone. The target is the row sum in `width` digits, but the sum is computed first, so more than two rows raise `NotImplementedError` after it. |
| HardAddition.RowBelowTopDigit | dps/experiments/hard_addition.py:41-43 | A row whose last digit is 0 encodes a number below `10^(width - 1)`. |
| HardAddition.TargetIsExactSum | dps/experiments/hard_addition.py:41-50 | With at most two rows, each ending in a 0 digit, the sum fits in `width` digits, so the target decodes to exactly the sum. This is why the source refuses more than two rows. |
| HardAddition.RoundHalfEven | dps/experiments/hard_addition.py:117 | `tf.round` goes to the nearest integer, and a tie goes to the even one. |
| HardAddition.Step | dps/experiments/hard_addition.py:106-122 | The blended register update: the fovea moves by the net activation of its two moves, a register whose action is off keeps its value and one whose action is fully on takes that action's value, with `add` splitting the rounded sum of the working memories and the carry into a carry and a digit in `[0, 10)`. Time counts up by one. |
| HardAddition.StepOneHot | dps/experiments/hard_addition.py:106-122 | Under a one-hot action, the blended register update is exactly the selected action's own update. |
| HardAddition.AddSplitsSum | dps/experiments/hard_addition.py:116-122 | `add` splits the rounded sum of the two working memories and the carry into a carry and a digit in `[0, 10)` with `10 * carry + digit` equal to that sum. Any other action leaves carry and digit alone. |
| SimpleArithmetic.CheckSettings | dps/experiments/simple_arithmetic.py:48-60 | The dataset accepts exactly `1 <= base <= 10` and a grid of at least `n_digits + 1` cells, and raises `AssertionError` otherwise. |
| SimpleArithmetic.SymbolTable | dps/experiments/simple_arithmetic.py:80-81 | The symbols are sorted by letter, as a permutation of the input. The i-th sorted symbol's reduction is keyed `-(i+1)`, and the keys are exactly -n … -1. |
| SimpleArithmetic.CodeTable | dps/experiments/simple_arithmetic.py:81 | The dict comprehension keys the i-th reduction at `-(i+1)` and has no other keys. |
| SimpleArithmetic.SymbolValues | dps/experiments/simple_arithmetic.py:82 | `sorted(functions.keys())` is -n, …, -1. |
| SimpleArithmetic.SymbolValuesAreTableKeys | dps/experiments/simple_arithmetic.py:80-84 | `symbol_values` lists exactly the keys of the table, in increasing order, so every symbol drawn has a reduction. |
| SimpleArithmetic.RemapOpLoc | dps/experiments/simple_arithmetic.py:122 | `indices[indices == _op_loc] = size-1` moves exactly the entries equal to `_op_loc` to the last cell and leaves the others. |
| SimpleArithmetic.PlaceCells | dps/experiments/simple_arithmetic.py:118-124 | With `op_loc`, the cells are `_op_loc` followed by the drawn cells, remapped. |
| SimpleArithmetic.PlacedCellsDistinct | dps/experiments/simple_arithmetic.py:118-124 | Drawing n distinct cells below `size - 1` and remapping gives n + 1 distinct cells in the grid, `_op_loc` first. |
| SimpleArithmetic.MakeExample | dps/experiments/simple_arithmetic.py:113-141 | One example is blank except at its cells. The symbol is at the first cell, the digits are in order at the others, and the target is the symbol's reduction of the digits. |
| SimpleArithmetic.MakeDataset | dps/experiments/simple_arithmetic.py:96-147 | One example per draw, each as above, and none when `n_examples == 0`. |
| SimpleArithmetic.Step | dps/experiments/simple_arithmetic.py:305-326 | The blended update: the fovea moves by the net activation of its two moves, `op` keeps its value when `store_op` is off and takes `op_vision` when it is fully on, and `acc` moves by each of `add`, `inc`, `multiply` and `store`'s own change weighted by its activation, staying put when all four are off. Time counts up by one. |
| SimpleArithmetic.StepOneHot | dps/experiments/simple_arithmetic.py:305-318 | Under a one-hot action the blended update is the selected action's own. `acc` becomes itself, `vision + acc`, `vision * acc`, `acc + 1` or `vision`, and `op` changes only on `store_op`. |
| SimpleArithmetic.Run | dps/experiments/simple_arithmetic.py:305-345 | Repeating one action once per value seen: time counts the steps, the last value seen stays in `vision`, `op` changes only under `store_op`, and the fovea moves one cell per step only under its own moves. |
| SimpleArithmetic.RunAdd | dps/experiments/simple_arithmetic.py:305-307 | Taking `add` once per digit seen adds up the digits into `acc`. |
| SimpleArithmetic.RunMultiply | dps/experiments/simple_arithmetic.py:305-308 | Taking `multiply` once per digit seen multiplies `acc` by their product. |
| SimpleArithmetic.RunInc | dps/experiments/simple_arithmetic.py:305-309 | Taking `inc` once per digit seen counts them into `acc`. |
| SimpleArithmetic.RealTotalIsTotal | dps/experiments/simple_arithmetic.py:305-308 | The sum and product the registers reach on the digits are the dataset's integer target sum and product. |
| SimpleArithmetic.ArgMax | dps/experiments/simple_arithmetic.py:341 | `argmax` gives the first position of a largest entry. |
| SimpleArithmetic.Glimpse | dps/experiments/simple_arithmetic.py:326-332 | The glimpse is the one value in the cell under the fovea. |
| SimpleArithmetic.VisionAsWritten | dps/experiments/simple_arithmetic.py:247-249 | As written, without MNIST both classifiers are the identity on a one-entry glimpse, so `vision` and `op_vision` are always 0. |
| SimpleArithmetic.Vision | dps/experiments/simple_arithmetic.py:326-341 | As intended, `vision` and `op_vision` are the value in the cell under the fovea. |
| SimpleArithmetic.VisionAsWrittenBlind | dps/experiments/simple_arithmetic.py:340-341 | As written, without MNIST the classifier is the identity on a one-entry glimpse, so `argmax` always gives 0: the digit 3 under the fovea reads as 0. |
| SimpleArithmetic.StoreSeesDigit | dps/experiments/simple_arithmetic.py:305-341 | With `vision` read as the glimpse itself, fixating the cell where an example holds its j-th digit and taking `store` puts that digit in `acc`. |
| SimpleArithmetic.StoreOpSeesSymbol | dps/experiments/simple_arithmetic.py:318-343 | With `op_vision` read as the glimpse itself, fixating the example's operator cell and taking `store_op` puts the operator's code in `op`, and that code is a key of the symbol table. |
| GridArithmetic.Apply | dps/envs/grid_arithmetic.py:54-61 | The reductions A, M, X, N and C: sum, product, max, min and count. `max` and `min` of no digits raise `ValueError`, and only they fail. |
| GridArithmetic.CheckSettings | dps/envs/grid_arithmetic.py:128-130 | The dataset accepts exactly `1 <= base <= 10`, `min_digits <= max_digits` and a grid of at least `max_digits + 1` cells. |
| GridArithmetic.SetupReductions | dps/envs/grid_arithmetic.py:134-138 | A callable becomes the single reduction 'A' and hides the operator. Pairs are kept as given, with `show_op` as given. |
| GridArithmetic.IndexTable | dps/envs/grid_arithmetic.py:162 | Without MNIST the reductions are keyed 0, 1, … in sorted letter order, and by nothing else. |
| GridArithmetic.SymbolReps | dps/envs/grid_arithmetic.py:163-165 | Operator i is drawn as `i + 10` and labelled i. |
| GridArithmetic.DigitReps | dps/envs/grid_arithmetic.py:166 | Each digit is drawn as itself. |
| GridArithmetic.SwapOpLoc | dps/envs/grid_arithmetic.py:204-206 | The array becomes the swapped cells: the entries equal to `_op_loc` take the first cell, and `_op_loc` goes first. |
| GridArithmetic.Swapped | dps/envs/grid_arithmetic.py:204-206 | The swap keeps the number of cells. |
| GridArithmetic.SwappedCells | dps/envs/grid_arithmetic.py:202-206 | The swapped cells are distinct and inside the grid, with the operator cell first. When the operator cell was drawn they are a permutation of the draw; otherwise the first drawn cell is replaced. |
| GridArithmetic.OneHotTarget | dps/envs/grid_arithmetic.py:229-235 | The target has `largest_digit + 2` slots. A digit up to `largest_digit` sets its own slot, a larger value the last one, and a value below `-(largest_digit + 2)` raises `IndexError`. |
| GridArithmetic.HotSlot | dps/envs/grid_arithmetic.py:229-235 | Reading back a one-hot target gives a slot that holds 1. |
| GridArithmetic.OneHotTargetDecodes | dps/envs/grid_arithmetic.py:229-235 | A natural target encodes and decodes to itself when at most `largest_digit`, and to the overflow slot `largest_digit + 1` otherwise. |
| GridArithmetic.MakeTarget | dps/envs/grid_arithmetic.py:226-237 | Without `one_hot_output` the target is the value itself; with it, the one-hot encoding, failing exactly when that does. |
| GridArithmetic.MakeExample | dps/envs/grid_arithmetic.py:200-237 | One example succeeds exactly when its target can be computed: the symbol's label keys a reduction and the reduction accepts the digits. Its grid is blank except at the chosen cells, with the symbol first when shown and the digits after it. |
| GridArithmetic.MakeDataset | dps/envs/grid_arithmetic.py:179-247 | With the operator location kept in its own variable, the dataset has one such example per draw, and fails exactly when some example's target fails. |
| GridArithmetic.MakeDatasetAsWritten | dps/envs/grid_arithmetic.py:196-211 | As written, the loop rebinds `op_loc` to the first cell's slices. With no `op_loc` and the operator shown, a second example then reads `_op_loc`, which was never set, and fails with `UnboundLocalError`. Otherwise it builds the same examples. |
| GridArithmetic.ClassifiersSeparate | dps/envs/grid_arithmetic.py:354-358 | The non-MNIST classifiers read an operator drawing as its own code and as no digit. They read a digit as itself and as no operator, and the blank as neither. |
| GridArithmetic.UpdateStorage | dps/envs/grid_arithmetic.py:420-428 | A zero `classify_digit` keeps the digit and a one reads the glimpse as a digit, and likewise for `classify_op` and the operator. |
| GridArithmetic.Clip | dps/envs/grid_arithmetic.py:437-438 | `clip_by_value` stays within its bounds and leaves a value within them alone. |
| GridArithmetic.UpdateFovea | dps/envs/grid_arithmetic.py:430-439 | The fovea always stays on the grid. |
| GridArithmetic.FoveaMove | dps/envs/grid_arithmetic.py:430-439 | One chosen move shifts the fovea by one cell along its axis, stopping at the edge. |
| GridArithmetic.Eval | dps/envs/simple_grid_arithmetic.py:134-143 | An arithmetic action of `arithmetic_actions_dict` on `(acc, digit)` has a value except when `/` divides by a zero digit. There the source's float division gives an infinity (NaN for `0 / 0`); when `/` is fully chosen, `clip_by_value` then turns an infinity into ±1000. The model has no value there. |
| GridArithmetic.UpdateAcc | dps/envs/grid_arithmetic.py:493-500 | The new accumulator, blended from the arithmetic actions and the old value, lies in `[-1000, 1000]`. |
| GridArithmetic.AccOneHot | dps/envs/grid_arithmetic.py:493-500 | Under a one-hot choice of the k-th arithmetic action, `acc` becomes that action's value, clipped. With no arithmetic action chosen, it keeps its old value, clipped. |
| GridArithmetic.ActionNames | dps/envs/grid_arithmetic.py:273-283 | The fixed names, then `update_salience` when salience is an action, then the sorted arithmetic keys. |
| GridArithmetic.SortedOps | dps/envs/grid_arithmetic.py:495-497 | `zip(sorted(keys), …)` pairs the k-th activation with the function of the k-th sorted key. |
| GridArithmetic.ActionLayout | dps/envs/grid_arithmetic.py:476-500 | Choosing the action named by the k-th sorted key applies exactly the k-th arithmetic function, with or without the salience action. |
| SimpleGridArithmetic.LookupReduction | dps/envs/simple_grid_arithmetic.py:74-80 | `reductions_dict` knows exactly "sum", "prod", "max", "min" and "len"; any other key raises `KeyError`. |
| SimpleGridArithmetic.LookupName | dps/envs/simple_grid_arithmetic.py:74-80 | Every reduction has a name that looks it up. |
| SimpleGridArithmetic.ParsePairs | dps/envs/simple_grid_arithmetic.py:92-94 | Parsed words give one pair each. |
| SimpleGridArithmetic.ParseReductions | dps/envs/simple_grid_arithmetic.py:87-95 | Without ':', the stripped string names the single reduction 'A' and the operator is hidden. Otherwise every word must split into exactly two pieces around ':' (`ValueError`) and name a known reduction (`KeyError`). |
| SimpleGridArithmetic.PairRoundTrip | dps/envs/simple_grid_arithmetic.py:93-94 | `letter:name` parses back to the letter and the reduction. |
| SimpleGridArithmetic.ParsePairsOfTexts | dps/envs/simple_grid_arithmetic.py:92-94 | The texts of a list of pairs parse back to the same list. |
| SimpleGridArithmetic.ReductionsRoundTrip | dps/envs/simple_grid_arithmetic.py:87-95 | Pairs written out as space-separated `letter:name` words parse back to the same pairs, with `show_op` as given. |
| SimpleGridArithmetic.LookupAction | dps/envs/simple_grid_arithmetic.py:131-140 | `arithmetic_actions_dict` knows exactly `+ - * / max min +1 -1`. |
| SimpleGridArithmetic.ActionPairs | dps/envs/simple_grid_arithmetic.py:143-145 | Parsed keys keep their order, one pair each. |
| SimpleGridArithmetic.ActionPairsOk | dps/envs/simple_grid_arithmetic.py:143-145 | Parsing succeeds exactly when every key is known. |
| SimpleGridArithmetic.ParseActions | dps/envs/simple_grid_arithmetic.py:142-146 | The constructor's loop looks up each word of `arithmetic_actions` in order, and fails on the first unknown one. |
| SimpleGridArithmetic.LookupActions | dps/envs/simple_grid_arithmetic.py:143-145 | The loop over the words gives the pairs or the first `KeyError`. |
| SimpleGridArithmetic.ActionKeys | dps/envs/simple_grid_arithmetic.py:142-146 | The action dict has exactly the words as keys. |
| SimpleGridArithmetic.SwappedRepsUnreadable | dps/envs/simple_grid_arithmetic.py:109-113 | As written, `digit_reps` and `symbol_reps` are passed in each other's place. The operator cell then holds a digit, which the operator classifier reads as nothing, and every digit cell holds an operator, which the digit classifier reads as nothing. |
| SimpleGridArithmetic.SwappedRepsKeyError | dps/envs/simple_grid_arithmetic.py:97-113 | As written, a drawn "symbol" whose label is a digit at or beyond the number of reductions keys no reduction, and the example raises `KeyError`. |
| SimpleGridArithmetic.RepsReadable | dps/envs/simple_grid_arithmetic.py:97-113 | With the containers in their places, the classifiers read the operator cell as the drawn operator's code, which keys a reduction, and each digit cell as its digit. |
| SimpleGridArithmetic.ShiftedActionsAsWritten | dps/envs/simple_grid_arithmetic.py:303-316 | As written, `build_step` always unpacks the seventh activation as `update_salience`, even when salience is not an action. Each arithmetic action is then driven by the next one's activation: with keys "+" and "+1", choosing "+1" adds the digit. |
| SimpleGridArithmetic.ArithActsAsWritten | dps/envs/simple_grid_arithmetic.py:303-316 | As written, fewer than seven activations fail to unpack with `ValueError`. Otherwise the arithmetic actions are driven by the activations after the seventh, one each, whether or not salience is an action. |
| SimpleGridArithmetic.PaddedSize | dps/envs/simple_grid_arithmetic.py:261-266 | The padded input adds `floor(salience / 2)` cells on each side. |
| SimpleGridArithmetic.WindowFits | dps/envs/simple_grid_arithmetic.py:261-266 | For a fovea on the grid, the salience window lies inside the padded input and covers the fovea's own cell. |
| XO.NewEntity | dps/datasets/xo.py:20-31 | A new entity is alive, with the given size, kind and depth. Without `center`, its corner is at `(y, x)`. |
| XO.CentredEntity | dps/datasets/xo.py:20-24 | An entity made with `center=True` has its centre at `(y, x)`. |
| XO.OverlapSymmetric | dps/datasets/xo.py:42-53 | The overlap area and `intersects` do not depend on the order of the two entities. |
| XO.IntersectsIff | dps/datasets/xo.py:42-53 | The overlap is never negative, and two entities intersect exactly when their vertical and horizontal spans both overlap strictly. |
| XO.OverlapBounded | dps/datasets/xo.py:45-53 | The overlap never exceeds the entity's own area, and an entity overlaps itself by exactly its area. |
| XO.Direction | dps/datasets/xo.py:344-349 | `ACTION_LOOKUP` knows exactly the actions 0 to 3. |
| XO.XOEnv.constructor | dps/datasets/xo.py:184-240 | The environment holds the image size, entity size, overlap factor, step size, agent and entities it is given. |
| XO.XOEnv.Sweep | dps/datasets/xo.py:306-310 | One pass over one kind marks every live entity the agent overlaps by more than `overlap_factor * entity_size**2` as dead. The count is the number it killed. |
| XO.XOEnv.SweepAll | dps/datasets/xo.py:306-310 | Both kinds are swept with the agent in place. No live entity is left under the agent, and the counts are the entities killed. |
| XO.XOEnv.MoveAgent | dps/datasets/xo.py:303-341 | A zero move only sweeps. Otherwise the agent moves in up to ten equal segments, stopping before the first that would leave the image. The crosses and circles become exactly those left by a sweep where the agent stood and one after each segment taken. Each entity is counted at most once, the counts are the entities killed, no live entity is left under the agent, and an agent inside the image stays inside. |
| XO.XOEnv.MoveSegments | dps/datasets/xo.py:315-339 | The segment loop, from a cleared start: every segment taken stays inside the image, and the loop stops early only before a segment that would leave it. The entities become those left by a sweep after each segment taken. |
| XO.XOEnv.SweptAlongKills | dps/datasets/xo.py:303-341 | The sweeps of a move kill exactly the live entities the agent overlaps by more than the threshold at one of the places it stands on, the start included. Every other entity is left as it was. |
| XO.XOEnv.SweptAlongResweep | dps/datasets/xo.py:306-315 | Sweeping again where the agent already swept changes nothing about the rest of the move. |
| XO.XOEnv.SweptTwice | dps/datasets/xo.py:306-310 | A second sweep in the same place finds nothing. |
| XO.XOEnv.SweptClear | dps/datasets/xo.py:306-310 | A sweep that hits nothing leaves the entities as they are. |
| XO.XOEnv.Place | dps/datasets/xo.py:249-285 | A placed rectangle has the patch's size and lies inside the image. With `max_overlap_factor`, it is within the limit of every earlier rectangle. Without it, the first draw is accepted. |
| XO.XOEnv.SampleEntities | dps/datasets/xo.py:242-287 | No patches give no rectangles. Otherwise one rectangle per patch, each of its size and inside the image, each within the overlap limit of the earlier ones. A patch that does not fit raises `ValueError` from `randint`. More than 10000 rejected tries raise `Exception`, which can happen only with an overlap limit. |
| XO.XOEnv.Step | dps/datasets/xo.py:159-175 | An unknown action raises `KeyError` and changes nothing. A known one never raises: the agent moves in the action's direction by the segments `_move_agent` takes, which are all inside the image and stop only before one that would leave it. The crosses and circles become those the sweeps along that path leave, and the reward is the crosses killed minus the circles killed. The episode never ends. |
| XO.XOEnv.ClearUnderAgent | dps/datasets/xo.py:240 | `setup_field` ends by killing every entity under the agent's starting place, without moving it. |
| XO.RoundSqrt | dps/datasets/xo.py:202 | `int(round(np.sqrt(n)))` is a k with `k*k - k < n <= k*k + k`, that is, `sqrt(n)` lies within one half of k. |
| XO.RoundSqrtUnique | dps/datasets/xo.py:202 | `round(sqrt(n))` is the one k with `k*k - k < n <= k*k + k`. |
| XO.GridCount | dps/datasets/xo.py:201-202 | Grid mode places `round(sqrt(n))**2` entities, which is within `round(sqrt(n))` of n. |
| XO.GridCentreInside | dps/datasets/xo.py:203-209 | Every grid centre lies strictly inside the image. |
| GymEnv.Prefix | dps/gym_env.py:36 | `copies[:batch_size]` keeps the first `batch_size` copies; a negative bound drops that many from the end. |
| GymEnv.StepSlot | dps/gym_env.py:52-61 | A copy that is already done gets reward 0 and empty info and keeps its observation. Any other copy takes the environment's step. |
| GymEnv.DoneStays | dps/gym_env.py:52-61 | Once a copy is done it stays done, and a copy becomes done only when its environment says so. |
| GymEnv.DoneColumn | dps/gym_env.py:109 | The done flags become a column of 1.0 and 0.0 entries, one per copy. |
| GymEnv.DoneColumnAll | dps/gym_env.py:105-109 | The column is all non-zero exactly when every copy is done, which is the test that ends the rollout loop. |
| GymEnv.GymEnvWrapper.constructor | dps/gym_env.py:14-24 | The wrapper starts with no copies, no active environments and no batch size. Every active environment is then a copy in the pool, and every method keeps that. |
| GymEnv.GymEnvWrapper.SetMode | dps/gym_env.py:26-36 | An unknown mode raises `AssertionError` and changes nothing. Otherwise the mode and batch size are set. A `None` batch size then raises `TypeError` at `range(batch_size - len(self.envs))`, with the copies and active environments unchanged. The copies grow to the batch size when short and never shrink, and the active environments are the first `batch_size` copies, all in the pool. |
| GymEnv.GymEnvWrapper.Reset | dps/gym_env.py:38-44 | Every active copy is reset, and none is done. The returned observations are the reset ones, in order. |
| GymEnv.GymEnvWrapper.Step | dps/gym_env.py:46-66 | A batch of the wrong size raises `AssertionError` and changes nothing. Otherwise each copy `zip` reaches takes its step slot, so a done copy is not stepped. Copies past the shorter of actions and copies are untouched. The observations and done flags returned are the new ones. |
| GymEnv.GymEnvWrapper.RolloutStep | dps/gym_env.py:108-109 | One rollout step returns the new done flags. |
| GymEnv.GymEnvWrapper.DoRollouts | dps/gym_env.py:87-117 | An unknown mode raises `AssertionError`. A `None` `n_rollouts`, the default, raises `TypeError` through `set_mode`. The rollout has at most T transitions, where T is `cfg.T` when the argument is None or 0. Every transition but the last has a copy still running. A rollout that stops before T stops because every copy is done. |
| Atari.GatherAtariFrames | dps/datasets/atari.py:24-54 | A density outside `(0, 1]` raises `AssertionError`. Otherwise the frames are the first `n_frames` kept frames, at the end of the first episode by which at least that many were kept. |
| Atari.Kept | dps/datasets/atari.py:41-51 | Each step of an episode adds at most one frame, so no more frames are kept than steps taken. |
| Atari.KeptFrames | dps/datasets/atari.py:44-47 | Every observation the draw keeps is among the frames. With density 1 there is one frame per step, and with no step kept there are none. |
| Atari.SampleIndices | dps/datasets/atari.py:212-224 | Without `max_samples_per_ep`, the indices run from the history length to the episode's end. With it, they are that many distinct indices in the same range, or all of them when there are no more. A negative sample count raises `ValueError`. |
| Atari.SampleIndicesAll | dps/datasets/atari.py:215-220 | When the episode has no more indices than the limit, every index is used, in order. |
| Atari.ExampleAt | dps/datasets/atari.py:226-242 | An example holds the `history_length` observations, actions and rewards before its index, and the observation at it as `next_o`, each exactly when stored. |
| Atari.RLDataset.constructor | dps/datasets/atari.py:212-245 | The dataset keeps its storage flags and sample limit, and starts with no examples written. |
| Atari.RLDataset.Callback | dps/datasets/atari.py:149-245 | Index sampling errors are passed on. A stored observation with history 0 makes `np.concatenate` of nothing raise `ValueError`. With neither `o` nor `next_o` stored, `_write_example` has no image for `np.split` and raises `TypeError`. Otherwise one example per sampled index is appended in order, and the example count grows by as many. |
| Atari.TruncInt | dps/datasets/atari.py:364 | `int(r)` truncates toward zero. |
| Atari.RewardExample | dps/datasets/atari.py:361-365 | A reward example holds one observation, its action and the truncated reward. An index past the rewards raises `IndexError`. |
| Atari.RewardIndices | dps/datasets/atari.py:351-362 | A one-observation episode gives no indices. Otherwise every transition is used, or the sampled number of distinct transitions when there are more than the limit. |
| Atari.RewardCallback | dps/datasets/atari.py:351-367 | One example per index, each as above. The callback succeeds whenever there are enough rewards and the indices can be drawn. |
| Atari.ObsShapeRule | dps/datasets/atari.py:395-412 | Postprocessed frames are `tile_shape` by 3 channels. Warped frames are 84 x 84 x 1. Raw frames are 230 rows for JourneyEscape, 250 for the listed games and 210 otherwise, by 160 x 3. |
| Atari.RawFramesWide | dps/datasets/atari.py:401-410 | Raw frames are always 160 wide with 3 channels, and 210, 230 or 250 high. |
| Atari.ObsShapeExamples | dps/datasets/atari.py:395-412 | Tennis gives `(250, 160, 3)`, Pong `(210, 160, 3)`, and a 48 x 48 tile gives `(48, 48, 3)`. |
| Atari.StaticAtari.constructor | dps/datasets/atari.py:384-393 | The dataset starts with no memoised shape. |
| Atari.StaticAtari.ObsShape | dps/datasets/atari.py:395-412 | The first call computes the shape by the rule and memoises it. Later calls return the memo unchanged. |
| Atari.Features | dps/datasets/atari.py:183-207 | The features are o, a, r and next_o, each exactly when stored and in that order. The observation channels and the action and reward sizes are multiplied by the history length. |
| Atari.FeaturesPresent | dps/datasets/atari.py:188-202 | Each part has a feature exactly when its flag is set. |
| Atari.RewardFeatures | dps/datasets/atari.py:333-345 | The reward dataset always has the observation, the action and a one-entry reward. |
| YoloRL.SmallestDivisorPrime | dps/env/advanced/yolo_rl.py:44-45 | The least divisor of `n` above 1 is prime. |
| YoloRL.PrimeFactors | dps/env/advanced/yolo_rl.py:44-45 | A side above 1 has at least one factor and 1 has none. Every factor lies between 2 and the side. |
| YoloRL.PrimeFactorsPrime | dps/env/advanced/yolo_rl.py:44-45 | Every prime factor of a side is prime and divides it. |
| YoloRL.PrimeFactorsSorted | dps/env/advanced/yolo_rl.py:44-45 | The factors come in increasing order, so `sorted` leaves them as they are. |
| YoloRL.PrimeFactorsProduct | dps/env/advanced/yolo_rl.py:44-45 | The factors multiply back to the side. |
| YoloRL.PadOnes | dps/env/advanced/yolo_rl.py:49-52 | The shorter factor list is padded with 1s to the length of the longer one. The original entries come first and are kept. |
| YoloRL.BackboneLayout | dps/env/advanced/yolo_rl.py:43-60 | A cell side with a prime factor above 4 raises `AssertionError`. A side of one pixel has no factors, so `max` raises `ValueError`. Otherwise the result is the layout of the padded factor lists. |
| YoloRL.Layout | dps/env/advanced/yolo_rl.py:44-60 | Empty factor lists or a factor above 4 fail. Otherwise there is one strided `RIGHT_ONLY` layer of kernel 4 per factor pair, then `n_final_layers` `SAME` layers of stride 1. |
| YoloRL.BackboneDownsamples | dps/env/advanced/yolo_rl.py:43-60 | An accepted backbone uses strides of 1, 2 or 3 only. Along each axis their product is exactly `pixels_per_cell`, so one backbone output is one grid cell. |
| YoloRL.LayoutDownsamples | dps/env/advanced/yolo_rl.py:49-55 | Padding with 1s keeps the product of each axis's strides. |
| YoloRL.LayoutStrides | dps/env/advanced/yolo_rl.py:52-53 | The strides of the layout are the padded factor lists, taken pair by pair. |
| YoloRL.BackboneExample | dps/env/advanced/yolo_rl.py:43-60 | Cells of 4 by 6 pixels give two strided layers with strides (2, 2) and (2, 3), then the final layers. |
| YoloRL.BackboneRejects | dps/env/advanced/yolo_rl.py:44-47 | A side of 5 pixels raises `AssertionError`. A side of 1 pixel raises `ValueError`. |
| YoloRL.GridSizes | dps/env/advanced/yolo_rl.py:291-293 | A zero cell side raises `ZeroDivisionError`. Otherwise `H` and `W` are the ceilings of image size over cell size, so `(H - 1) * ppc < image <= H * ppc`, and `B` is the number of anchor boxes. |
| YoloRL.GridCovers | dps/env/advanced/yolo_rl.py:291-292 | A positive image gives a positive grid that covers it with at most one partial cell per axis. |
| YoloRL.CheckOrder | dps/env/advanced/yolo_rl.py:312-315 | A string order is split into words. The order is accepted exactly when its set of kinds equals the network's kinds, else `AssertionError`. |
| YoloRL.CheckOrderExamples | dps/env/advanced/yolo_rl.py:312-315 | Every kind once, in any order, is accepted. An order with a kind missing is not. |
| YoloRL.SequentialInput | dps/env/advanced/yolo_rl.py:597-615 | The context is the pieces of every look-back offset except the origin, concatenated in loop order. A piece is the edge element when a coordinate is negative, else that program cell. A look-back of one cell leaves nothing to concatenate and raises `ValueError`. |
| YoloRL.LookbackRow | dps/env/advanced/yolo_rl.py:600-613 | The middle loop collects the pieces of the offsets of one `i`, in order. |
| YoloRL.LookbackCells | dps/env/advanced/yolo_rl.py:601-613 | The innermost loop skips the origin and collects one piece per `k`. |
| YoloRL.OffsetsInBox | dps/env/advanced/yolo_rl.py:599-604 | Every offset visited lies in the look-back box and is not the origin. |
| YoloRL.OffsetsCount | dps/env/advanced/yolo_rl.py:599-604 | A look-back box with positive sides has `prod(lookback_shape) - 1` offsets. |
| YoloRL.ContextReadsEarlierCells | dps/env/advanced/yolo_rl.py:606-613 | Every program cell the context reads comes before `(h, w, b)` in row-major order, so it was already built. |
| YoloRL.ContextWidth | dps/env/advanced/yolo_rl.py:597-615 | When the edge element and every cell have the same width, the context is `prod(lookback_shape) - 1` times that width. |
| YoloRL.Insert | dps/env/advanced/yolo_rl.py:945-954 | Inserting one key path into the fetch tree yields a dictionary when it succeeds. |
| YoloRL.SubGet | dps/env/advanced/yolo_rl.py:945-954 | What a sub-tree holds at a path, the larger tree holds too. |
| YoloRL.InsertSpec | dps/env/advanced/yolo_rl.py:945-954 | Insertion into a sub-tree of `tensors` succeeds exactly when `tensors` has the path. It copies what `tensors` holds there, keeps everything already fetched, and adds nothing `tensors` lacks. |
| YoloRL.BuildFetches | dps/env/advanced/yolo_rl.py:932-956 | The fetch tree is built exactly when every accessed key path exists in `tensors`. It is then a sub-tree of `tensors` with the same value at every key. Otherwise the error is `KeyError` or `TypeError`. |
| YoloRL.InsertErrors | dps/env/advanced/yolo_rl.py:945-954 | A failed insertion is a `KeyError` (missing key) or a `TypeError` (a tensor subscripted). |
| YoloRL.Evaluate | dps/env/advanced/yolo_rl.py:1016-1048 | A mode other than "val" raises `AssertionError`. A batch without `batch_size` raises `KeyError`. A zero sum of batch sizes gives NaN, here `None`. Otherwise every recorded key maps to its batch-size-weighted sum over `n_points`, and no batches give an empty record. |
| YoloRL.SumBatches | dps/env/advanced/yolo_rl.py:1026-1043 | The loop yields the weighted sum of each recorded key and the sum of the batch sizes, or `None` when a batch lacks `batch_size`. |
| YoloRL.AddBatch | dps/env/advanced/yolo_rl.py:1040-1041 | `record[k] += batch_size * v` for every item, with missing keys starting at 0. |
| YoloRL.SumsStep | dps/env/advanced/yolo_rl.py:1026-1043 | Adding one batch to the sums of the earlier batches gives the sums of all of them. |
| YoloRL.WeightedAbove | dps/env/advanced/yolo_rl.py:1040-1046 | With non-negative batch sizes, a key recorded at least `lo` on every batch has a weighted sum of at least `lo * n_points`. |
| YoloRL.WeightedBelow | dps/env/advanced/yolo_rl.py:1040-1046 | Likewise, at most `hi` on every batch gives at most `hi * n_points`. |
| YoloRL.MeanBetween | dps/env/advanced/yolo_rl.py:1016-1048 | The evaluated mean lies between the smallest and largest per-batch values. A metric equal on every batch evaluates to that value. |
| YoloRL.PointsNonNegative | dps/env/advanced/yolo_rl.py:1043 | Non-negative batch sizes give a non-negative `n_points`. |
| YoloRL.AccumulateCosts | dps/env/advanced/yolo_rl.py:872-887 | The loop succeeds exactly when every cost kind is "both", "obj" or "z", else `Exception`. The three accumulators are then the weighted totals of each kind. |
| YoloRL.TotalCost | dps/env/advanced/yolo_rl.py:889-893 | With known kinds, the three accumulators together hold every weighted cost exactly once. |
| YoloRL.DefaultCosts | dps/env/advanced/yolo_rl.py:297-306 | Reconstruction (weight 1) feeds `COST`, nonzero and area feed `COST_obj`, and nothing feeds `COST_z`. |
| YoloRL.KindTotalsSnoc | dps/env/advanced/yolo_rl.py:878-887 | One more cost function adds its weighted cost to its own kind's total only. |
| YoloRL.GroundTruth | dps/env/advanced/yolo_rl.py:197 | The ground truth is the first `min(n_annotations, len(annotations))` annotations, each with its class replaced by 0. |
| YoloRL.PredictedBoxes | dps/env/advanced/yolo_rl.py:201-216 | The predicted boxes are the boxes of the grid cells with positive objectness, in loop order. |
| YoloRL.RowBoxes | dps/env/advanced/yolo_rl.py:202-216 | The middle loop gives the positive boxes of one row. |
| YoloRL.AnchorBoxes | dps/env/advanced/yolo_rl.py:203-216 | The innermost loop gives the positive boxes of one cell's anchors. |
| YoloRL.Positive | dps/env/advanced/yolo_rl.py:206-214 | There are no more boxes than visited cells. Each box has six entries, and its confidence entry is positive. |
| YoloRL.PositiveSpec | dps/env/advanced/yolo_rl.py:203-214 | A box is listed exactly when a visited cell has positive objectness. Each box has six entries, and there are never more boxes than cells. |
| YoloRL.PositiveSound | dps/env/advanced/yolo_rl.py:206-214 | Every listed box belongs to a visited cell with positive objectness. |
| YoloRL.PositiveComplete | dps/env/advanced/yolo_rl.py:206-214 | The box of every visited cell with positive objectness is listed. |
| YoloRL.CellsCount | dps/env/advanced/yolo_rl.py:202-204 | The loops visit `H * W * B` cells. |
| YoloRL.CellsInGrid | dps/env/advanced/yolo_rl.py:202-204 | Every cell visited is inside the grid. |
| YoloAir.HWBIsCellCount | dps/env/advanced/yolo_air.py:123-126 | `HWB` counts the cells the program loop visits, the value `n_objects` is filled with. It is positive when there are anchors. |
| YoloAir.CheckAirOrderExamples | dps/env/advanced/yolo_air.py:150-153 | "box obj" is accepted, and so is a kind listed twice, since only the set of kinds is compared. An order without "obj" raises `AssertionError`. |
| YoloAir.EdgeWidth | dps/env/advanced/yolo_air.py:405 | `total_sample_size` exists exactly when every kind of the order has parameters, else `KeyError`. |
| YoloAir.EdgeWidthCounts | dps/env/advanced/yolo_air.py:156-175 | The edge element is 4 wide per "box" and 1 wide per "obj" in the order. |
| YoloAir.AcceptedOrderWidth | dps/env/advanced/yolo_air.py:150-153 | Every accepted order contains both kinds, so the edge element is at least 5 wide. |
| YoloAir.DefaultOrderWidth | dps/env/advanced/yolo_air.py:405 | The default order gives width 5. |
| YoloAir.CellProgramWidth | dps/env/advanced/yolo_air.py:473-478 | Every built cell program is exactly `total_sample_size` wide, so the assert at line 478 never fails. |
| YoloAir.BuildCellProgram | dps/env/advanced/yolo_air.py:405-478 | A kind without parameters raises `KeyError` when `total_sample_size` is computed. An empty order fails before any cell is built, when the edge weights are split into no pieces and none are concatenated. Otherwise the result is the concatenated builder programs, `total_sample_size` wide. |
| YoloAir.SequentialContextWidth | dps/env/advanced/yolo_air.py:366-384 | With every cell and the edge element `total_sample_size` wide, the context is `prod(lookback_shape) - 1` times that width. |
| YoloAir.HardCountBounds | dps/env/advanced/yolo_air.py:651 | `hard_n_objects` is at most the number of cells. It equals that number exactly when every `obj` exceeds one half, and is 0 exactly when none does. |
| YoloAir.SoftHardBounds | dps/env/advanced/yolo_air.py:650-651 | With `obj` in [0, 1], the soft count lies between half the hard count and the hard count plus half the other cells. It exceeds half the hard count when that count is positive. |
| YoloAir.CountErrorIsMismatch | dps/env/advanced/yolo_air.py:714-716 | On integer counts `count_error` is 1 exactly when the counts differ, and never exceeds `count_1norm`. `count_1norm` is 0 exactly when they agree. |
| YoloAir.MeanCountErrorRange | dps/env/advanced/yolo_air.py:716 | The recorded `count_error` is 1 exactly when every count is wrong. |
| YoloAir.SumErrorsBounds | dps/env/advanced/yolo_air.py:714-716 | The summed errors lie between 0 and the batch size. They are 0 exactly when every count matches, and equal the batch size exactly when none does. |
| YoloAir.HardCount | dps/env/advanced/yolo_air.py:651 | `hard_n_objects` of one image is never more than its number of cells. |
| YoloAir.SoftCount | dps/env/advanced/yolo_air.py:650 | With every `obj` in [0, 1], `soft_n_objects` of one image lies between 0 and its number of cells. |
| YoloAir.MeanCountError | dps/env/advanced/yolo_air.py:714-716 | The batch mean of `count_error` exists exactly for a non-empty batch. It lies in [0, 1] and is 0 exactly when every hard count equals its annotation count. |
| Hyper.Enumerable | dps/parallel/hyper.py:83-94 | The keys collected for enumeration are exactly the visited keys whose value is a list of choices. |
| Hyper.Plain | dps/parallel/hyper.py:83-94 | `other` holds exactly the visited keys whose value is neither a list nor a distribution, with their values unchanged. |
| Hyper.ClassifyStep | dps/parallel/hyper.py:84-94 | Each visited key is added to the enumerable keys or to `other`, according to its value, and to nothing else. |
| Hyper.TuplesEnumerate | dps/parallel/hyper.py:96-103 | For any distinct keys, the configs of the sorted product, read back at the keys, are sorted, each picks one choice per key, and every combination appears. |
| Hyper.AllConfigKeysAt | dps/parallel/hyper.py:98-103 | Config i of `generate_all` has exactly the distribution's keys, with the plain values unchanged and one of its choices at each enumerable key. |
| Hyper.DrawnKeys | dps/parallel/hyper.py:50-61 | The keys drawn from are exactly those holding a non-empty list of choices or a continuous distribution. |
| Hyper.Kept | dps/parallel/hyper.py:50-59 | `other` holds exactly the keys not drawn from, with their values unchanged. |
| Hyper.SortedZip | dps/parallel/hyper.py:63 | `sorted(zip(*samples))` is sorted and a permutation of the zipped rows, each row with one entry per column. |
| Hyper.SampledConfigKeysAt | dps/parallel/hyper.py:65-70 | Config i of `nested_sample` has exactly the distribution's keys, with the kept values unchanged and a drawn value at each drawn key. |
| Hyper.SampledChoiceAt | dps/parallel/hyper.py:53-70 | At a key with a non-empty list of choices, config i holds one of the values drawn for that key. |
| Sorting.SortBy | dps/parallel/hyper.py:50 | `sorted` by a key gives a sorted permutation of its input. |
| Strings.SortStringsCanonical | dps/parallel/hyper.py:50 | `sorted` on strings depends only on which strings are given, not on their order. |
| Dicts.DictLastWins | dps/envs/grid_arithmetic.py:138 | In `dict(pairs)`, a key takes the value of its last pair. |
| Dicts.SortedKeys | dps/envs/grid_arithmetic.py:140 | `sorted(d)` lists each key of `d` once, in code-point order. |
| Strings.JoinSplit | dps/env/advanced/yolo_rl.py:947 | Joining the pieces of `key.split(":")` with ':' gives back the key. |
| Strings.SplitPieces | dps/env/advanced/yolo_rl.py:947 | `split(sep)` gives one more piece than there are separators, and no piece contains the separator. |
| Strings.WordsJoin | dps/env/advanced/yolo_rl.py:315 | `split()` of words joined by single spaces gives back the words. |
| Grids.FillGrid | dps/experiments/simple_arithmetic.py:128-140 | The new grid is blank except at the chosen cells. The first chosen cell holds the operator symbol when one is shown, and each other chosen cell holds its digit. |

## Left out

- Tensor graph construction is left out: network modules, autodiff, sampling and rendering networks, and the TF/PyTorch ops behind them. Only the integer and index logic around them is modelled.
- Floating point is left out. Python floats and float32 tensors are exact reals, with no rounding, overflow or NaN; a NaN result is `None` where the model needs one.
- Randomness is left out. Draws are parameters: `np.random.choice`, `rvs`, `np.random.permutation`, `gen_seed`, random digits and operator cells, entity placement and kinds, and Atari frame skipping.
- Wall-clock time and resource limits are parameters.
- Subprocess, SSH, scp and zip execution are oracles that give exit codes or `stat` results.
- Presentation is left out: printing, plots, summaries, TF summaries and `summarize` formatting.
- I/O is left out: TFRecord writing, gym recordings, image loading and resizing, and `gather_atari_human_frames`.
- `prime_factors` from `dps.utils` is not part of this model. `YoloRL.PrimeFactors` is a definition of its own: prime factors with multiplicity, smallest first, none for 1.
- Atari.GatherAtariFrames: the environment's step stream is unbounded, so the loop takes a `fuel` bound. Running out of fuel is an error the source does not have.
- Atari.StaticAtari.ObsShape: memoisation is modelled for `obs_shape` only. `features`, also memoised, is modelled as a function of the flags.
- GymEnv.GymEnvWrapper.DoRollouts: `T` is an integer step count. The policy's recurrent state and the environments are oracle functions of the step.
- XO.XOEnv.MoveAgent: entities are values held in sequences. Marking one dead replaces it in its list, so aliasing between the lists and the agent is not modelled.
- XO.XOEnv.SampleEntities: `setup_field`'s corner mask and its random choice of kinds are not modelled. Nor is `size_std`: sizes are parameters.
- YoloRL.BuildFetches: the fetch tree is built as a value. The order of `list(fetch_keys)` is a parameter, and the tree's sharing of dictionaries with `tensors` is not modelled.
- YoloRL.AccumulateCosts: each cost is modelled at one cell as a real number. The cost functions themselves (reconstruction, nonzero, area) are values given to it.
- YoloRL.PredictedBoxes: the boxes passed to `mAP` are modelled. The mAP computation itself is not.
- YoloAir.BuildCellProgram: the builders' samples are parameters. The edge-weight sigmoid, the sequential networks and the `info_types` bookkeeping are left out.
- YoloAir.BuildCellProgram: an empty order fails inside `tf.split` and `tf.concat` of the edge weights. The exception class TensorFlow raises there is not modelled; the model writes it `ValueError`.
- The `cell_x` and `on_cell_x` lines of `yolo_air.py` repeat the `y` computation by copy and paste. They are float tensor ops and are not modelled.
- ConvStacks.ComputeReceptiveFieldInfo: one spatial axis is modelled. numpy applies the same arithmetic to each axis independently.
- TensorLayout.ReshapeAndApply: signals and outputs are modelled by their shapes, and `func` is an oracle on shapes. Returning one tensor or a list of them is not distinguished.
- SubmitJob.Advance: the new remaining list is tied to the incomplete and dead indices. Its link to the previous remaining list is not stated as a separate function.
- GradGraph.IterGraph: the autograd graph is a finite map from each function to its `next_functions`, and it is required to mention only functions it has entries for. Functions are compared as values, standing in for object identity.
- Hyper.GenerateAll and Hyper.NestedSample: every value is an integer. A string value is iterable in the source, so `list(v)` (`hyper.py` lines 53 and 86) would turn it into a list of its characters, each one a choice; string and float values are not modelled, and a `rvs` distribution is a parameter that gives its draws.
- Digits.DigitsToNumber and Digits.ToDigits: the integers are unbounded. The source computes `base ** np.arange(width)` in int64, which wraps around once a power or the weighted sum passes `2 ** 63 - 1` (at base 10, from width 19, where the weighted sum of large digits passes it), so the round trips hold in the source only for widths below that.
- Strings.IsSpace: only the six ASCII whitespace characters are separators. Python's `str.split()` also splits on the other Unicode whitespace characters.
- Atari.RLDataset.Callback: `_write_example` is modelled with no post-processing. The `tile` and `random` post-processing cut each frame into several images and write one example per image, so an index then gives several examples.
- Atari.RewardCallback: the source writes each example as it goes, so an error part-way leaves the earlier examples written. The model returns the error alone and says nothing of a partial write.
- Train.StageRun: an interrupt or a time-out is taken to arrive at the top of a pass. Records made by a pass that one arrives in the middle of are not modelled, nor are the `stage_duration` and memory records.
- Train.Runner, Train.TrainingLoop.RunStage and Train.TrainingLoop.Run: a zero checkpoint, evaluation or display period raises `ZeroDivisionError` at once in `Train.Runner`, and `RunStage` and `Run` require positive periods. The source raises only at the first `%` it reaches: never when the stage ends at step 0, and for `checkpoint_step` only from step 1.
- SubmitJob.Session.Run: each step's results are required to list as incomplete only indices drawn from the previous step's list, the input's for the first step (`Shrinking`). In the source an op whose dependencies have just finished becomes ready and joins the remaining set, so that set can grow. The requirement is what makes the loop's termination provable.
- SimpleArithmetic.MakeDataset: targets are unbounded integers. The source casts them with `astype('i')` to int32, which wraps values past 2^31 - 1, such as 9^10 from a product symbol over ten nines.
- GridArithmetic.MakeDataset: targets are unbounded integers. The source casts them with `astype('i')` to int32, which wraps values past 2^31 - 1, such as 9^10 from the `M` (`np.product`) operator over ten nines.
- Search.ExtractData: `data_keys` is a list of keys. A string is split on whitespace in the source, and that split is not modelled.
- Train.TrainingLoop.RunStage: the `time_per_example`, epoch and `off_policy` records are not modelled.
- Train.LoadSource: the load path is chosen as in the source, but no stage's start is connected to it.
- ConvStacks.ComputeReceptiveFieldInfo: the layers are required to have positive strides. With a zero stride the source's `image_shape / grid_cell_size` divides by zero in numpy and casts the resulting infinity to a meaningless integer; a negative stride gives a negative grid. Neither is modelled.
- Search.BuildRecord: a parsed frame is the value `Csv(text)` of the stripped text. The CSV parsing itself, the frame's columns and a `read_csv` error on a malformed table are not modelled.
- HardAddition.Step: the `outp` register and the gaussian `write_digit` are float tensor operations and are not modelled.

## Findings

| source | as written | input that shows it | evidently intended | confidence | as-written member | corrected member |
|---|---|---|---|---|---|---|
| dps/envs/grid_arithmetic.py:196-211 | The example loop rebinds `op_loc` to the slice pair of the operator cell. From the second example on, `op_loc is not None` holds even when the caller passed `None`. | `op_loc=None`, `show_op=True`, two or more examples: the second reads `_op_loc`, which was never set, and raises `UnboundLocalError`. | Keep the caller's `op_loc` apart from the per-example cell. | high, not executed | GridArithmetic.MakeDatasetAsWritten | GridArithmetic.MakeDataset |
| dps/envs/simple_grid_arithmetic.py:109-113 | `digit_reps` and `symbol_reps` are passed to `make_dataset` in each other's place. | Any example: the operator cell holds a digit drawing, and each digit cell holds an operator drawing. A digit label past the number of reductions raises `KeyError`. | Pass each container in its own place. | high, not executed | SimpleGridArithmetic.SwappedRepsUnreadable, SimpleGridArithmetic.SwappedRepsKeyError | SimpleGridArithmetic.RepsReadable |
| dps/experiments/simple_arithmetic.py:340-344 | Without MNIST, `vision` and `op_vision` are each `argmax` over a one-entry glimpse. | A glimpse holding the digit 3 reads as 0, so every stored digit is 0; the operator is stored as 0 too, which no symbol is keyed by. | The value the glimpse holds: the digit, or the operator's code. | high, not executed | SimpleArithmetic.VisionAsWritten, SimpleArithmetic.VisionAsWrittenBlind | SimpleArithmetic.Vision, SimpleArithmetic.StoreSeesDigit, SimpleArithmetic.StoreOpSeesSymbol |
| dps/envs/simple_grid_arithmetic.py:303-316 | `build_step` always unpacks a seventh activation as `update_salience`, even when salience is not an action. The arithmetic actions are then read one slot off. | Keys "+" and "+1" without salience: choosing "+1" applies "+" and adds the digit. | Unpack `update_salience` only when it is an action, as `action_names` does. | high, not executed | SimpleGridArithmetic.ShiftedActionsAsWritten | GridArithmetic.ActionLayout |
| dps/utils/pytorch.py:1155 | `get_target_shape` computes `W` from `h`. | The shape `(3, 9)` with kernel 3 and stride 1 gives `(3, 3)`. | `W` from `w`, giving `(3, 9)`. | high, not executed | ConvShapes.GetTargetShapeIgnoresWidth | ConvShapes.GetTargetShape, ConvShapes.GetTargetShapeRoundTrip |
| dps/utils/pytorch.py:883-893 | `ConvNet3D.conv_output_shape` broadcasts a scalar kernel or stride to a 2-tuple, then indexes `[2]`. | The defaults `kernel_size=1, stride=1` raise `IndexError`. | Broadcast to a 3-tuple. | high, not executed | ConvShapes.ConvNet3DScalarFails, ConvShapes.ConvNet3DDefaultsFail | ConvShapes.ConvNet3DWindows |
| dps/utils/pytorch.py:1510 | `pad_to_preserve_shape` casts `n / s` to int before taking the ceiling. | Size 5, kernel 3, stride 2: the padding is 0 and gives 2 cells, not `ceil(5 / 2) = 3`. | The ceiling first, so the output has `ceil(n / s)` cells as the docstring says. | high, not executed | ConvShapes.PreservePaddingAsWrittenFloors, ConvShapes.PreservePaddingExample | ConvShapes.PadToPreserveShape, ConvShapes.PreservePaddingCeils |
| dps/parallel/submit_job.py:466-488 | `run` loops while indices remain, running `n_procs` of them per step. | `min_hosts=0`, with hosts reachable when the session is built (so the constructor's `n_procs` is positive), but none answering at a later step's `recruit_hosts`: `n_procs` is then 0, every step runs nothing, and the loop never ends. | Stop with an error when there is no processor. | medium, not executed | SubmitJob.NoProcessorsNoProgress | SubmitJob.Session.Run |
