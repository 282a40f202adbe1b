/** The dict manipulation around a hyper-parameter search in
    `dps/parallel/hyper.py`: `nested_map` over nested dicts, the summary record
    `extract_data_from_job` builds for each finished run, and the fresh name
    `build_search` picks for a search directory. */
module Search {
  import opened Wrappers
  import opened Strings
  import Dicts

  // ---------------------------------------------------------------- nested_map

  /** A value that is either a dict (its entries in insertion order, keys
      distinct) or anything else. */
  datatype Nested = Leaf(v: int) | Dict(entries: seq<(string, Nested)>)

  /** `nested_map(d, f)`: a copy of every dict with `f` applied to the non-dict values. */
  function NestedMap(d: Nested, f: int -> int): Nested
    decreases d
  {
    match d
    case Leaf(v) => Leaf(f(v))
    case Dict(es) =>
      Dict(seq(|es|, i requires 0 <= i < |es| =>
        assert es[i] in es;
        (es[i].0, NestedMap(es[i].1, f))))
  }

  /** The position of key `k` among the entries, if it is there. */
  function Find(es: seq<(string, Nested)>, k: string): (r: Option<nat>)
    ensures r.Some? ==> r.value < |es| && es[r.value].0 == k
    ensures r.None? ==> forall i :: 0 <= i < |es| ==> es[i].0 != k
  {
    if es == [] then None
    else if es[0].0 == k then Some(0)
    else match Find(es[1..], k)
      case None => None
      case Some(i) => Some(i + 1)
  }

  /** Following a path of keys down through nested dicts; `None` once a key is
      missing or a non-dict is reached before the path ends. */
  function Get(d: Nested, path: seq<string>): Option<Nested>
    decreases |path|
  {
    if path == [] then Some(d)
    else match d
      case Leaf(_) => None
      case Dict(es) =>
        match Find(es, path[0])
        case None => None
        case Some(i) => Get(es[i].1, path[1..])
  }

  lemma FindSameKeys(es: seq<(string, Nested)>, fs: seq<(string, Nested)>, k: string)
    requires Dicts.Firsts(es) == Dicts.Firsts(fs)
    ensures Find(es, k) == Find(fs, k)
    decreases |es|
  {
    if es != [] {
      assert es[0].0 == Dicts.Firsts(es)[0] == Dicts.Firsts(fs)[0] == fs[0].0;
      assert Dicts.Firsts(es[1..]) == Dicts.Firsts(es)[1..];
      assert Dicts.Firsts(fs[1..]) == Dicts.Firsts(fs)[1..];
      FindSameKeys(es[1..], fs[1..], k);
    }
  }

  /** Mapping commutes with lookup: every path reaches a dict or a value in the
      result exactly where it does in `d`; a dict keeps its keys in their order
      and a non-dict value `v` becomes `f(v)`. */
  lemma {:induction false} NestedMapAt(d: Nested, f: int -> int, path: seq<string>)
    ensures Get(NestedMap(d, f), path).Some? <==> Get(d, path).Some?
    ensures Get(d, path).Some? && Get(d, path).value.Leaf? ==>
      Get(NestedMap(d, f), path) == Some(Leaf(f(Get(d, path).value.v)))
    ensures Get(d, path).Some? && Get(d, path).value.Dict? ==>
      Get(NestedMap(d, f), path).value.Dict? &&
      Dicts.Firsts(Get(NestedMap(d, f), path).value.entries) == Dicts.Firsts(Get(d, path).value.entries)
    decreases |path|
  {
    var m := NestedMap(d, f);
    if path == [] {
      if d.Dict? {
        assert Dicts.Firsts(m.entries) == Dicts.Firsts(d.entries);
      }
    } else if d.Dict? {
      var es := d.entries;
      assert Dicts.Firsts(m.entries) == Dicts.Firsts(es);
      FindSameKeys(m.entries, es, path[0]);
      match Find(es, path[0])
      case None =>
      case Some(i) =>
        assert m.entries[i].1 == NestedMap(es[i].1, f);
        NestedMapAt(es[i].1, f, path[1..]);
    }
  }

  // ---------------------------------------------------------------- extract_data_from_job

  /** A value of a run's history record or config; `NegInf` is the `-np.inf`
      that `fillna` puts into an empty cell of the data frame, and `Csv(text)`
      the frame `pd.read_csv(StringIO(text), index_col=False)` reads from `text`. */
  datatype Val = Int(i: int) | Text(s: string) | Null | NegInf | Csv(text: string)

  type Record = map<string, Val>

  /** The output of one training run: its per-stage history, host and config
      (flattened, nested keys joined with ':'). */
  datatype Output = Output(history: seq<Record>, host: string, config: Record)

  /** A completed operation; `output` is `None` when reading it back raises. */
  datatype Op = Op(name: string, output: Option<Output>)

  /** The per-timestep data keys, `k + '_data'` for `k` in `'train update val test'`, in order. */
  const DataKeyList: seq<string> := ["train_data", "update_data", "val_data", "test_data"]

  const DataKeys: set<string> := {"train_data", "update_data", "val_data", "test_data"}

  /** What the parse does to one value: a string that strips to something
      non-empty becomes the frame read from the stripped text, and any other
      string is left alone. */
  function Parsed(v: Val): Val
  {
    if v.Text? && Strip(v.s) != [] then Csv(Strip(v.s)) else v
  }

  /** The `omit_timestep_data=False` loop over the data keys in order: each
      value present is parsed. A missing key reads as the empty string and is
      left missing; a value that is not a string has no `strip` and raises
      `AttributeError`. */
  function ParseData(rec: Record, keys: seq<string>): Result<Record>
    decreases |keys|
  {
    if keys == [] then Ok(rec)
    else if keys[0] in rec && !rec[keys[0]].Text? then Err("AttributeError")
    else ParseData(if keys[0] in rec then rec[keys[0] := Parsed(rec[keys[0]])] else rec, keys[1..])
  }

  /** The parse fails exactly when a listed key holds something other than a
      string, and then with `AttributeError`. */
  lemma {:induction false} ParseDataFails(rec: Record, keys: seq<string>)
    requires forall i, j :: 0 <= i < j < |keys| ==> keys[i] != keys[j]
    ensures ParseData(rec, keys).Ok? <==> forall key :: key in keys && key in rec ==> rec[key].Text?
    ensures ParseData(rec, keys).Err? ==> ParseData(rec, keys).error == "AttributeError"
    decreases |keys|
  {
    if keys != [] {
      var key, tail := keys[0], keys[1..];
      if key in rec && !rec[key].Text? {
        assert key in keys;
      } else {
        var next := if key in rec then rec[key := Parsed(rec[key])] else rec;
        ParseDataFails(next, tail);
        assert key !in tail by { DistinctHead(keys); }
        assert forall x :: x in keys <==> x == key || x in tail;
      }
    }
  }

  /** After a successful parse the record has the same keys, each listed key's
      value parsed and every other value as it was. */
  lemma {:induction false} ParseDataValues(rec: Record, keys: seq<string>)
    requires forall i, j :: 0 <= i < j < |keys| ==> keys[i] != keys[j]
    requires ParseData(rec, keys).Ok?
    ensures var res := ParseData(rec, keys).value;
      && (forall key :: key in res <==> key in rec)
      && (forall key :: key in rec ==> res[key] == if key in keys then Parsed(rec[key]) else rec[key])
    decreases |keys|
  {
    if keys != [] {
      var key, tail := keys[0], keys[1..];
      var next := if key in rec then rec[key := Parsed(rec[key])] else rec;
      ParseDataValues(next, tail);
      assert key !in tail by { DistinctHead(keys); }
      assert forall x :: x in keys <==> x == key || x in tail;
    }
  }

  lemma DistinctHead(keys: seq<string>)
    requires keys != [] && forall i, j :: 0 <= i < j < |keys| ==> keys[i] != keys[j]
    ensures keys[0] !in keys[1..]
  {
    forall j | 0 <= j < |keys| - 1 ensures keys[1..][j] != keys[0] {
      assert keys[1..][j] == keys[j + 1];
    }
  }

  lemma ParseDataKeys(rec: Record)
    ensures ParseData(rec, DataKeyList).Ok? <==> forall key :: key in DataKeys && key in rec ==> rec[key].Text?
    ensures ParseData(rec, DataKeyList).Ok? ==>
      var res := ParseData(rec, DataKeyList).value;
      && (forall key :: key in res <==> key in rec)
      && (forall key :: key in rec ==> res[key] == if key in DataKeys then Parsed(rec[key]) else rec[key])
  {
    assert forall key :: key in DataKeyList <==> key in DataKeys;
    ParseDataFails(rec, DataKeyList);
    if ParseData(rec, DataKeyList).Ok? {
      ParseDataValues(rec, DataKeyList);
    }
  }

  /** `sum(s['n_steps'] for s in history)`; `None` when a stage has no integer
      `n_steps` (the exception the source swallows). */
  function TotalSteps(history: seq<Record>): Option<int>
  {
    if history == [] then Some(0)
    else
      var rest := TotalSteps(history[..|history| - 1]);
      var last := history[|history| - 1];
      if rest.Some? && "n_steps" in last && last["n_steps"].Int? then Some(rest.value + last["n_steps"].i)
      else None
  }

  /** `record[k] = config[k]` for each data key, `None` for a missing one. */
  function WithDataKeys(rec: Record, config: Record, keys: seq<string>): Record
    decreases |keys|
  {
    if keys == [] then rec
    else
      var k := keys[|keys| - 1];
      WithDataKeys(rec, config, keys[..|keys| - 1])[k := if k in config then config[k] else Null]
  }

  /** The last history record with the host and op name added, `best_path`
      removed, and the per-timestep data removed when `omit` and parsed otherwise. */
  function Stamped(last: Record, host: string, opName: string, omit: bool): Result<Record>
  {
    var rec := (last["host" := Text(host)]["op_name" := Text(opName)]) - {"best_path"};
    if omit then Ok(rec - DataKeys) else ParseData(rec, DataKeyList)
  }

  /** Stamping fails, with `AttributeError`, exactly when per-timestep data is
      parsed and one of its values is not a string. Otherwise the record holds
      the host and op name, no `best_path`, and the per-timestep data either
      removed or parsed. */
  lemma StampedFields(last: Record, host: string, opName: string, omit: bool, k: string)
    ensures Stamped(last, host, opName, omit).Ok? <==>
      (!omit ==> forall key :: key in DataKeys && key in last ==> last[key].Text?)
    ensures Stamped(last, host, opName, omit).Err? ==> Stamped(last, host, opName, omit).error == "AttributeError"
    ensures Stamped(last, host, opName, omit).Ok? ==>
      var rec := Stamped(last, host, opName, omit).value;
      && (k == "host" ==> k in rec && rec[k] == Text(host))
      && (k == "op_name" ==> k in rec && rec[k] == Text(opName))
      && (k == "best_path" ==> k !in rec)
      && (omit && k in DataKeys ==> k !in rec)
      && (!omit && k in DataKeys ==> (k in rec <==> k in last) && (k in last ==> rec[k] == Parsed(last[k])))
  {
    var rec := (last["host" := Text(host)]["op_name" := Text(opName)]) - {"best_path"};
    assert forall key :: key in DataKeys ==> (key in rec <==> key in last) && (key in rec ==> rec[key] == last[key]);
    ParseDataKeys(rec);
  }

  /** The record `extract_data_from_job` builds for one run's output: the
      stamped last history record, the data keys copied from the config, then
      `latest_stage`, `total_steps` and `seed`. The missing history, stage or
      seed raise, and so does per-timestep data that is not a string when it
      is parsed. */
  function BuildRecord(r: Output, opName: string, keys: seq<string>, omit: bool): (res: Result<Record>)
    ensures res.Ok? <==>
      && r.history != [] && "stage" in r.history[|r.history| - 1] && "seed" in r.config
      && (!omit ==> forall key :: key in DataKeys && key in r.history[|r.history| - 1] ==> r.history[|r.history| - 1][key].Text?)
  {
    if r.history == [] then Err("IndexError")
    else
      var last := r.history[|r.history| - 1];
      StampedFields(last, r.host, opName, omit, "");
      match Stamped(last, r.host, opName, omit)
      case Err(e) => Err(e)
      case Ok(rec) =>
        var rec := WithDataKeys(rec, r.config, keys);
        if "stage" !in last then Err("KeyError")
        else
          var rec := rec["latest_stage" := last["stage"]];
          var rec := match TotalSteps(r.history)
            case Some(n) => rec["total_steps" := Int(n)]
            case None => rec;
          if "seed" !in r.config then Err("KeyError")
          else Ok(rec["seed" := r.config["seed"]])
  }

  lemma {:induction false} WithDataKeysAt(rec: Record, config: Record, keys: seq<string>, k: string)
    ensures k in keys ==>
      k in WithDataKeys(rec, config, keys) && WithDataKeys(rec, config, keys)[k] == (if k in config then config[k] else Null)
    ensures k !in keys ==>
      (k in WithDataKeys(rec, config, keys) <==> k in rec) && (k in rec ==> WithDataKeys(rec, config, keys)[k] == rec[k])
    decreases |keys|
  {
    if keys != [] {
      var init := keys[..|keys| - 1];
      assert forall x :: x in keys <==> x in init || x == keys[|keys| - 1];
      WithDataKeysAt(rec, config, init, k);
    }
  }

  /** What each record holds: the last stage as `latest_stage`, the summed
      `n_steps` as `total_steps` when every stage has one, the run's seed, a data
      key's config value or `None`, the host and op name unless a data key
      overrides them, no `best_path` unless a data key adds one, and no
      per-timestep data when `omit`. */
  lemma BuildRecordFields(r: Output, opName: string, keys: seq<string>, omit: bool, k: string)
    requires BuildRecord(r, opName, keys, omit).Ok?
    ensures var rec := BuildRecord(r, opName, keys, omit).value;
      var last := r.history[|r.history| - 1];
      && rec["latest_stage"] == last["stage"] && rec["seed"] == r.config["seed"]
      && (k in keys ==> k in rec)
      && (TotalSteps(r.history).Some? && k == "total_steps" ==> k in rec && rec[k] == Int(TotalSteps(r.history).value))
      && (k in keys && k !in {"latest_stage", "total_steps", "seed"} ==>
            k in rec && rec[k] == if k in r.config then r.config[k] else Null)
      && (k !in keys && k == "host" ==> k in rec && rec[k] == Text(r.host))
      && (k !in keys && k == "op_name" ==> k in rec && rec[k] == Text(opName))
      && (k !in keys && k == "best_path" ==> k !in rec)
      && (omit && k !in keys && k in DataKeys ==> k !in rec)
      && (!omit && k !in keys && k in DataKeys ==> (k in rec <==> k in last) && (k in last ==> rec[k] == Parsed(last[k])))
  {
    var last := r.history[|r.history| - 1];
    StampedFields(last, r.host, opName, omit, k);
    WithDataKeysAt(Stamped(last, r.host, opName, omit).value, r.config, keys, k);
  }

  /** The records of `ops` from `prev` on, `prev` the output read last. An op
      whose name holds "map" replaces it when its output can be read; otherwise
      the previous output is used again, and before any output there is none to
      use. */
  function RecordsFrom(ops: seq<Op>, prev: Option<Output>, keys: seq<string>, omit: bool): Result<seq<Record>>
    decreases |ops|
  {
    if ops == [] then Ok([])
    else
      var op := ops[0];
      var r := if Contains(op.name, "map") && op.output.Some? then op.output else prev;
      if r.None? then Err("UnboundLocalError")
      else match BuildRecord(r.value, op.name, keys, omit)
        case Err(e) => Err(e)
        case Ok(rec) =>
          match RecordsFrom(ops[1..], r, keys, omit)
          case Err(e) => Err(e)
          case Ok(rest) => Ok([rec] + rest)
  }

  function Prepend(done: seq<Record>, rest: Result<seq<Record>>): Result<seq<Record>>
  {
    match rest
    case Ok(rs) => Ok(done + rs)
    case Err(e) => Err(e)
  }

  lemma PrependNothing(x: Result<seq<Record>>)
    ensures Prepend([], x) == x
  {
    if x.Ok? { assert [] + x.value == x.value; }
  }

  lemma PrependTwice(a: seq<Record>, b: seq<Record>, x: Result<seq<Record>>)
    ensures Prepend(a, Prepend(b, x)) == Prepend(a + b, x)
  {
    if x.Ok? { assert a + (b + x.value) == (a + b) + x.value; }
  }

  /** A column of `pd.DataFrame.from_records(records)`: some record holds the key. */
  predicate HasColumn(records: seq<Record>, k: string)
  {
    exists i | 0 <= i < |records| :: k in records[i]
  }

  /** `df[k].fillna(-np.inf)` on one row: an empty cell, or one holding `None`, becomes `-inf`. */
  function FillCell(row: Record, k: string): Record
  {
    row[k := if k in row && row[k] != Null then row[k] else NegInf]
  }

  /** The rows of the data frame of `records` once the columns of the data
      keys in `keys` are filled in order; selecting a column the frame does not
      have raises `KeyError`. */
  function Framed(records: seq<Record>, keys: seq<string>): Result<seq<Record>>
    decreases |keys|
  {
    if keys == [] then Ok(records)
    else match Framed(records, keys[..|keys| - 1])
      case Err(e) => Err(e)
      case Ok(rows) =>
        var k := keys[|keys| - 1];
        if !HasColumn(records, k) then Err("KeyError")
        else Ok(seq(|rows|, i requires 0 <= i < |rows| => FillCell(rows[i], k)))
  }

  /** The frame has a row per record. It raises exactly when a data key is no
      column. Otherwise every data key's cell holds the record's value, or
      `-inf` where the record has none or `None`, and every other cell is the
      record's. */
  lemma {:induction false} FramedRows(records: seq<Record>, keys: seq<string>)
    ensures Framed(records, keys).Ok? <==> forall k :: k in keys ==> HasColumn(records, k)
    ensures Framed(records, keys).Err? ==> Framed(records, keys).error == "KeyError"
    ensures Framed(records, keys).Ok? ==>
      var rows := Framed(records, keys).value;
      && |rows| == |records|
      && forall i, x :: 0 <= i < |records| ==>
           && (x in keys ==> x in rows[i] && rows[i][x] == if x in records[i] && records[i][x] != Null then records[i][x] else NegInf)
           && (x !in keys ==> (x in rows[i] <==> x in records[i]) && (x in records[i] ==> rows[i][x] == records[i][x]))
    decreases |keys|
  {
    if keys != [] {
      var init, k := keys[..|keys| - 1], keys[|keys| - 1];
      assert forall x :: x in keys <==> x in init || x == k;
      FramedRows(records, init);
    }
  }

  /** With no record the frame has no column, so any data key raises `KeyError`. */
  lemma EmptyFrameRaises(keys: seq<string>)
    requires keys != []
    ensures Framed([], keys) == Err("KeyError")
  {
    FramedRows([], keys);
    assert keys[0] in keys && !HasColumn([], keys[0]);
  }

  /** Every record built for a job holds every data key, so the frame of a
      job with at least one record raises nothing and has no `None` left in a
      data key's column. */
  lemma JobFrameFills(ops: seq<Op>, keys: seq<string>, omit: bool)
    requires RecordsFrom(ops, None, keys, omit).Ok? && ops != []
    ensures Framed(RecordsFrom(ops, None, keys, omit).value, keys).Ok?
    ensures var rows := Framed(RecordsFrom(ops, None, keys, omit).value, keys).value;
      forall i, k :: 0 <= i < |rows| && k in keys ==> k in rows[i] && rows[i][k] != Null
  {
    RecordsHoldKeys(ops, None, keys, omit);
    FilledFrame(RecordsFrom(ops, None, keys, omit).value, keys);
  }

  /** Records that all hold every data key frame without error, and leave no
      `None` in a data key's column. */
  lemma FilledFrame(records: seq<Record>, keys: seq<string>)
    requires records != [] && forall i, k :: 0 <= i < |records| && k in keys ==> k in records[i]
    ensures Framed(records, keys).Ok?
    ensures var rows := Framed(records, keys).value;
      forall i, k :: 0 <= i < |rows| && k in keys ==> k in rows[i] && rows[i][k] != Null
  {
    FramedRows(records, keys);
    forall k | k in keys
      ensures HasColumn(records, k)
    {
      assert k in records[0];
    }
  }

  lemma {:induction false} RecordsHoldKeys(ops: seq<Op>, prev: Option<Output>, keys: seq<string>, omit: bool)
    requires RecordsFrom(ops, prev, keys, omit).Ok?
    ensures var records := RecordsFrom(ops, prev, keys, omit).value;
      |records| == |ops| && forall i, k :: 0 <= i < |records| && k in keys ==> k in records[i]
    decreases |ops|
  {
    if ops != [] {
      var op := ops[0];
      var r := if Contains(op.name, "map") && op.output.Some? then op.output else prev;
      var rec := BuildRecord(r.value, op.name, keys, omit).value;
      forall k | k in keys
        ensures k in rec
      {
        BuildRecordFields(r.value, op.name, keys, omit, k);
      }
      RecordsHoldKeys(ops[1..], r, keys, omit);
    }
  }

  /** `extract_data_from_job(job, data_keys, as_frame, omit_timestep_data)`, on
      the completed ops in order: the list of records, or with `as_frame` the
      rows of the data frame built from them with the data keys' columns
      filled. */
  method ExtractData(ops: seq<Op>, keys: seq<string>, asFrame: bool, omit: bool) returns (res: Result<seq<Record>>)
    ensures asFrame && !omit ==> res == Err("Exception")
    ensures !asFrame ==> res == RecordsFrom(ops, None, keys, omit)
    ensures asFrame && omit ==> res == match RecordsFrom(ops, None, keys, omit)
      case Err(e) => Err(e)
      case Ok(records) => Framed(records, keys)
    ensures res.Ok? ==> |res.value| == |ops|
  {
    if asFrame && !omit {
      return Err("Exception");
    }
    var records: seq<Record> := [];
    var r: Option<Output> := None;
    assert ops[0..] == ops;
    assert RecordsFrom(ops[0..], r, keys, omit) == RecordsFrom(ops, None, keys, omit);
    PrependNothing(RecordsFrom(ops, None, keys, omit));
    for j := 0 to |ops|
      invariant |records| == j
      invariant RecordsFrom(ops, None, keys, omit).Ok? ==> RecordsFrom(ops[j..], r, keys, omit).Ok?
      invariant RecordsFrom(ops, None, keys, omit) == Prepend(records, RecordsFrom(ops[j..], r, keys, omit))
    {
      var op := ops[j];
      assert ops[j..][1..] == ops[j + 1..];
      if Contains(op.name, "map") && op.output.Some? {
        r := op.output;
      }
      if r.None? {
        return Err("UnboundLocalError");
      }
      var rec := BuildRecord(r.value, op.name, keys, omit);
      if rec.Err? {
        return Err(rec.error);
      }
      PrependTwice(records, [rec.value], RecordsFrom(ops[j + 1..], r, keys, omit));
      records := records + [rec.value];
    }
    assert ops[|ops|..] == [] && records + [] == records;
    if !asFrame {
      return Ok(records);
    }
    var rows := records;
    for j := 0 to |keys|
      invariant Framed(records, keys[..j]) == Ok(rows)
    {
      assert keys[..j + 1][..j] == keys[..j];
      if !HasColumn(records, keys[j]) {
        FramedRows(records, keys);
        assert keys[j] in keys;
        return Err("KeyError");
      }
      rows := seq(|rows|, i requires 0 <= i < |rows| => FillCell(rows[i], keys[j]));
    }
    assert keys[..|keys|] == keys;
    FramedRows(records, keys);
    res := Ok(rows);
  }

  // ---------------------------------------------------------------- build_search

  /** The retried names differ from the first one and from each other. */
  lemma SuffixedNames(base: string, a: nat, b: nat)
    ensures base + "_" + Show(a) != base
    ensures a != b ==> base + "_" + Show(a) != base + "_" + Show(b)
  {
    assert |base + "_" + Show(a)| > |base|;
    if base + "_" + Show(a) == base + "_" + Show(b) {
      var n := |base| + 1;
      assert Show(a) == (base + "_" + Show(a))[n..];
      assert Show(b) == (base + "_" + Show(b))[n..];
      ShowInjective(a, b);
    }
  }

  /** The loop of `build_search` that retries `new_experiment` under
      `name_0`, `name_1`, ... while a directory of that name exists; `taken` is the
      set of names that already exist. */
  method FreshName(base: string, taken: set<string>) returns (name: string, count: nat)
    ensures name !in taken
    ensures count == 0 ==> name == base
    ensures count > 0 ==> name == base + "_" + Show(count - 1) && base in taken
    ensures forall c :: 0 <= c < count - 1 ==> base + "_" + Show(c) in taken
  {
    name := base;
    count := 0;
    ghost var tried: set<string> := {};
    while name in taken
      invariant tried <= taken && name !in tried
      invariant count == 0 ==> name == base
      invariant count > 0 ==> name == base + "_" + Show(count - 1) && base in taken
      invariant forall c :: 0 <= c < count - 1 ==> base + "_" + Show(c) in taken
      invariant forall c: nat :: count <= c ==> base + "_" + Show(c) !in tried
      decreases taken - tried
    {
      forall c: nat | count <= c ensures base + "_" + Show(c) != name {
        SuffixedNames(base, c, if count > 0 then count - 1 else 0);
      }
      tried := tried + {name};
      name := base + "_" + Show(count);
      count := count + 1;
    }
  }
}
