/** Hyper-parameter expansion of `dps/parallel/hyper.py`: enumerating or
    sampling configurations from a flattened distribution dict, fanning each
    sample out into repeats, mapping over nested dicts, building one summary
    record per finished run, and picking a fresh name for a search.

    A flattened distribution maps each `:`-joined key to a parameter: a plain
    value, a list of choices (anything `list(v)` accepts), or a continuous
    distribution (an object with `rvs`). Values are integers. */
module Hyper {
  import opened Wrappers
  import opened Arith
  import opened Sorting
  import opened Strings

  datatype Param = Value(v: int) | Choices(vs: seq<int>) | Distribution

  /** A configuration, flattened. */
  type Config = map<string, Param>

  /** The keys of `flat`, in some order, nothing else. */
  predicate Covers(flat: Config, order: seq<string>)
  {
    && (forall k :: k in order ==> k in flat)
    && (forall k :: k in flat ==> k in order)
  }

  /** `sorted(flat.keys())`: every key once, in code-point order. */
  ghost predicate KeyOrder(flat: Config, order: seq<string>)
  {
    Distinct(order) && SortedBy(order, Codes) && Covers(flat, order)
  }

  // ---------------------------------------------------------------- itertools.product

  /** `(x,) + t` for every `t` in `tails`, in order. */
  function Prefixed(x: int, tails: seq<seq<int>>): (r: seq<seq<int>>)
    ensures |r| == |tails|
    ensures forall i :: 0 <= i < |tails| ==> r[i] == [x] + tails[i]
  {
    seq(|tails|, i requires 0 <= i < |tails| => [x] + tails[i])
  }

  function PrefixedAll(xs: seq<int>, tails: seq<seq<int>>): seq<seq<int>>
  {
    if xs == [] then [] else Prefixed(xs[0], tails) + PrefixedAll(xs[1..], tails)
  }

  /** `itertools.product(*lists)`: the first list varies slowest. */
  function Product(lists: seq<seq<int>>): seq<seq<int>>
    decreases |lists|
  {
    if lists == [] then [[]] else PrefixedAll(lists[0], Product(lists[1..]))
  }

  /** The product of the lengths of `lists`. */
  function Sizes(lists: seq<seq<int>>): nat
  {
    if lists == [] then 1 else |lists[0]| * Sizes(lists[1..])
  }

  predicate Picks(t: seq<int>, lists: seq<seq<int>>)
  {
    |t| == |lists| && forall j :: 0 <= j < |lists| ==> t[j] in lists[j]
  }

  /** The tuples starting with `x` are exactly `x` followed by one of `tails`. */
  lemma PrefixedMembers(x: int, tails: seq<seq<int>>)
    ensures forall t :: t in Prefixed(x, tails) <==> t != [] && t[0] == x && t[1..] in tails
  {
    var r := Prefixed(x, tails);
    forall t ensures t in r <==> t != [] && t[0] == x && t[1..] in tails {
      if t in r {
        var i :| 0 <= i < |tails| && r[i] == t;
        assert t[1..] == tails[i];
      }
      if t != [] && t[0] == x && t[1..] in tails {
        var i :| 0 <= i < |tails| && tails[i] == t[1..];
        assert r[i] == t;
      }
    }
  }

  lemma {:induction false} PrefixedAllMembers(xs: seq<int>, tails: seq<seq<int>>)
    ensures |PrefixedAll(xs, tails)| == |xs| * |tails|
    ensures forall t :: t in PrefixedAll(xs, tails) <==> t != [] && t[0] in xs && t[1..] in tails
  {
    if xs != [] {
      PrefixedAllMembers(xs[1..], tails);
      PrefixedMembers(xs[0], tails);
      var head := Prefixed(xs[0], tails);
      var rest := PrefixedAll(xs[1..], tails);
      assert PrefixedAll(xs, tails) == head + rest;
      MulSucc(|xs| - 1, |tails|);
      forall t ensures t in head + rest <==> t != [] && t[0] in xs && t[1..] in tails {
        assert t in head + rest <==> t in head || t in rest;
        assert t != [] && t[0] in xs ==> t[0] == xs[0] || t[0] in xs[1..];
      }
    }
  }

  /** The product holds exactly the tuples picking one element of each list,
      and there are as many as the product of the lengths. */
  lemma {:induction false} ProductMembers(lists: seq<seq<int>>)
    ensures |Product(lists)| == Sizes(lists)
    ensures forall t :: t in Product(lists) <==> Picks(t, lists)
    decreases |lists|
  {
    if lists != [] {
      ProductMembers(lists[1..]);
      PrefixedAllMembers(lists[0], Product(lists[1..]));
      forall t ensures t in Product(lists) <==> Picks(t, lists) {
        if Picks(t, lists) {
          assert t[0] in lists[0];
          assert Picks(t[1..], lists[1..]) by {
            forall j | 0 <= j < |lists| - 1 ensures t[1..][j] in lists[1..][j] { assert t[j + 1] in lists[j + 1]; }
          }
        }
        if t in Product(lists) {
          assert t != [] && t[0] in lists[0] && Picks(t[1..], lists[1..]);
          forall j | 0 <= j < |lists| ensures t[j] in lists[j] {
            if j > 0 { assert t[1..][j - 1] in lists[1..][j - 1]; }
          }
        }
      }
    }
  }

  // ---------------------------------------------------------------- building configs

  /** `for k, p in zip(keys, row): new[k] = p` */
  function Assign(base: Config, keys: seq<string>, row: seq<int>): Config
    decreases |keys|
  {
    if keys == [] || row == [] then base else Assign(base[keys[0] := Value(row[0])], keys[1..], row[1..])
  }

  /** The values a config holds at `keys`, as a tuple. */
  function Tuple(c: Config, keys: seq<string>): (t: seq<int>)
    ensures |t| == |keys|
  {
    seq(|keys|, j requires 0 <= j < |keys| => if keys[j] in c && c[keys[j]].Value? then c[keys[j]].v else 0)
  }

  /** After the assignments the keys hold the row, and every other key is as in `base`. */
  lemma {:induction false} AssignValues(base: Config, keys: seq<string>, row: seq<int>)
    requires Distinct(keys) && |row| == |keys|
    ensures var c := Assign(base, keys, row);
      && (forall k :: k in c <==> k in base || k in keys)
      && (forall j :: 0 <= j < |keys| ==> c[keys[j]] == Value(row[j]))
      && (forall k :: k in base && k !in keys ==> c[k] == base[k])
    decreases |keys|
  {
    if keys != [] {
      var b := base[keys[0] := Value(row[0])];
      AssignValues(b, keys[1..], row[1..]);
      var c := Assign(base, keys, row);
      assert c == Assign(b, keys[1..], row[1..]);
      assert forall k :: k in keys <==> k == keys[0] || k in keys[1..];
      assert forall k :: k in c <==> k in base || k in keys;
      forall j | 0 <= j < |keys| ensures c[keys[j]] == Value(row[j]) {
        if j > 0 { assert keys[1..][j - 1] == keys[j] && row[1..][j - 1] == row[j]; }
        else { assert keys[0] !in keys[1..] && keys[0] in base[keys[0] := Value(row[0])]; }
      }
      assert forall k :: k in keys <==> k == keys[0] || k in keys[1..];
    }
  }

  lemma AssignTuple(base: Config, keys: seq<string>, row: seq<int>)
    requires Distinct(keys) && |row| == |keys|
    ensures Tuple(Assign(base, keys, row), keys) == row
  {
    AssignValues(base, keys, row);
  }

  /** The config built from each row, in order. */
  function Configs(base: Config, keys: seq<string>, rows: seq<seq<int>>): (r: seq<Config>)
    ensures |r| == |rows|
  {
    seq(|rows|, i requires 0 <= i < |rows| => Assign(base, keys, rows[i]))
  }

  /** The loop appending `Config(deepcopy(other))` updated by one row per iteration. */
  method BuildConfigs(other: Config, keys: seq<string>, rows: seq<seq<int>>) returns (configs: seq<Config>)
    ensures configs == Configs(other, keys, rows)
  {
    configs := [];
    var i := 0;
    while i < |rows|
      invariant 0 <= i <= |rows|
      invariant configs == Configs(other, keys, rows[..i])
    {
      var row := rows[i];
      var c := other;
      var j := 0;
      while j < |keys| && j < |row|
        invariant 0 <= j <= |keys| && j <= |row|
        invariant Assign(other, keys, row) == Assign(c, keys[j..], row[j..])
      {
        assert keys[j..][1..] == keys[j + 1..] && row[j..][1..] == row[j + 1..];
        c := c[keys[j] := Value(row[j])];
        j := j + 1;
      }
      configs := configs + [c];
      i := i + 1;
    }
    assert rows[..i] == rows;
  }

  /** Sorting rows by their own values. */
  function Row(t: seq<int>): seq<int> { t }

  /** `sorted(product(*lists))`: every combination picking one element of each
      list, in lexicographic order, as many as the product of the lengths. */
  function SortedProduct(lists: seq<seq<int>>): (rows: seq<seq<int>>)
    ensures |rows| == Sizes(lists) && SortedBy(rows, Row)
    ensures forall i :: 0 <= i < |rows| ==> Picks(rows[i], lists)
    ensures forall t :: Picks(t, lists) ==> t in rows
  {
    ProductMembers(lists);
    var rows := SortBy(Product(lists), Row);
    assert forall t :: t in rows <==> t in multiset(rows);
    forall i | 0 <= i < |rows| ensures Picks(rows[i], lists) {
      assert rows[i] in multiset(rows);
      assert rows[i] in Product(lists);
    }
    rows
  }

  // ---------------------------------------------------------------- generate_all

  /** The enumerable keys among `ks`, in order. */
  function Enumerable(flat: Config, ks: seq<string>): (r: seq<string>)
    ensures forall k :: k in r <==> k in ks && k in flat && flat[k].Choices?
  {
    if ks == [] then []
    else
      var k := ks[|ks| - 1];
      assert forall x :: x in ks <==> x in ks[..|ks| - 1] || x == k;
      Enumerable(flat, ks[..|ks| - 1]) + (if k in flat && flat[k].Choices? then [k] else [])
  }

  /** The lists of choices at `keys`. */
  function Lists(flat: Config, keys: seq<string>): (r: seq<seq<int>>)
    ensures |r| == |keys|
  {
    seq(|keys|, j requires 0 <= j < |keys| => if keys[j] in flat && flat[keys[j]].Choices? then flat[keys[j]].vs else [])
  }

  /** The plain values among `ks`, kept as they are. */
  function Plain(flat: Config, ks: seq<string>): (r: Config)
    ensures forall k :: k in r <==> k in ks && k in flat && flat[k].Value?
    ensures forall k :: k in r ==> r[k] == flat[k]
  {
    if ks == [] then map[]
    else
      var k := ks[|ks| - 1];
      assert forall x :: x in ks <==> x in ks[..|ks| - 1] || x == k;
      var rest := Plain(flat, ks[..|ks| - 1]);
      if k in flat && flat[k].Value? then rest[k := flat[k]] else rest
  }

  /** One more key of `sorted(flat.keys())` sorted into enumerable keys and plain values. */
  lemma ClassifyStep(flat: Config, order: seq<string>, i: nat)
    requires i < |order|
    ensures var k := order[i];
      && Enumerable(flat, order[..i + 1]) == Enumerable(flat, order[..i]) + (if k in flat && flat[k].Choices? then [k] else [])
      && Plain(flat, order[..i + 1]) == (if k in flat && flat[k].Value? then Plain(flat, order[..i])[k := flat[k]] else Plain(flat, order[..i]))
  {
    assert order[..i + 1][..i] == order[..i];
  }

  lemma ListsStep(flat: Config, keys: seq<string>, k: string)
    requires k in flat && flat[k].Choices?
    ensures Lists(flat, keys + [k]) == Lists(flat, keys) + [flat[k].vs]
  {
  }

  ghost predicate HasDistribution(flat: Config)
  {
    exists k :: k in flat && flat[k].Distribution?
  }

  /** No key among the first `i` of `order` holds a continuous distribution. */
  predicate NoneContinuous(flat: Config, order: seq<string>, i: nat)
    requires i <= |order| && forall k :: k in order ==> k in flat
  {
    forall j :: 0 <= j < i ==> !flat[order[j]].Distribution?
  }

  lemma NoDistribution(flat: Config, order: seq<string>)
    requires Covers(flat, order) && NoneContinuous(flat, order, |order|)
    ensures !HasDistribution(flat)
  {
    forall k | k in flat
      ensures !flat[k].Distribution?
    {
      var j :| 0 <= j < |order| && order[j] == k;
    }
  }

  /** What `generate_all` returns: one config per element of the sorted product. */
  function AllConfigs(flat: Config, order: seq<string>): seq<Config>
  {
    var keys := Enumerable(flat, order);
    Configs(Plain(flat, order), keys, SortedProduct(Lists(flat, keys)))
  }

  /** The loop of `generate_all` over `sorted(flat.keys())`: lists of choices
      for the enumerable keys, plain values kept aside, and an exception at the
      first continuous distribution. */
  method ClassifyAll(flat: Config, order: seq<string>) returns (r: Result<(seq<string>, seq<seq<int>>, Config)>)
    requires Covers(flat, order)
    ensures r.Err? <==> HasDistribution(flat)
    ensures r.Ok? ==> r.value.0 == Enumerable(flat, order) && r.value.1 == Lists(flat, r.value.0) && r.value.2 == Plain(flat, order)
  {
    var other: Config := map[];
    var sampledKeys: seq<string> := [];
    var lists: seq<seq<int>> := [];
    var i := 0;
    while i < |order|
      invariant 0 <= i <= |order|
      invariant sampledKeys == Enumerable(flat, order[..i]) && lists == Lists(flat, sampledKeys)
      invariant other == Plain(flat, order[..i])
      invariant NoneContinuous(flat, order, i)
    {
      var k := order[i];
      ClassifyStep(flat, order, i);
      var p := flat[k];
      if p.Distribution? {
        return Err("Exception");
      } else if p.Choices? {
        ListsStep(flat, sampledKeys, k);
        lists := lists + [p.vs];
        sampledKeys := sampledKeys + [k];
      } else {
        other := other[k := p];
      }
      i := i + 1;
    }
    assert order[..i] == order;
    NoDistribution(flat, order);
    r := Ok((sampledKeys, lists, other));
  }

  /** `generate_all(distributions)` */
  method GenerateAll(flat: Config, order: seq<string>) returns (r: Result<seq<Config>>)
    requires KeyOrder(flat, order)
    ensures r.Err? <==> HasDistribution(flat)
    ensures r.Ok? ==> r.value == AllConfigs(flat, order)
  {
    var classified := ClassifyAll(flat, order);
    if classified.Err? {
      return Err(classified.error);
    }
    var (sampledKeys, lists, other) := classified.value;
    var paramSets := SortedProduct(lists);
    var configs := BuildConfigs(other, sampledKeys, paramSets);
    r := Ok(configs);
  }

  /** One config per combination of choices: as many as the product of the
      lengths of the enumerable values, one when there is none, none when a
      list is empty. */
  lemma AllConfigsCount(flat: Config, order: seq<string>)
    ensures |AllConfigs(flat, order)| == Sizes(Lists(flat, Enumerable(flat, order)))
    ensures Enumerable(flat, order) == [] ==> |AllConfigs(flat, order)| == 1
  {
  }

  lemma {:induction false} EnumerableDistinct(flat: Config, ks: seq<string>)
    requires Distinct(ks)
    ensures Distinct(Enumerable(flat, ks))
  {
    if ks != [] {
      EnumerableDistinct(flat, ks[..|ks| - 1]);
    }
  }

  /** The config built from row `i`: the base with the row assigned to the keys. */
  lemma ConfigAt(base: Config, keys: seq<string>, rows: seq<seq<int>>, i: nat)
    requires Distinct(keys) && i < |rows| && |rows[i]| == |keys|
    ensures var c := Configs(base, keys, rows)[i];
      && (forall k :: k in c <==> k in base || k in keys)
      && (forall j :: 0 <= j < |keys| ==> c[keys[j]] == Value(rows[i][j]))
      && (forall k :: k in base && k !in keys ==> c[k] == base[k])
  {
    AssignValues(base, keys, rows[i]);
  }

  /** A row of `zip(*cols)` takes its `j`-th element from column `j`. */
  lemma ZippedFrom(cols: seq<seq<int>>, row: seq<int>, j: nat)
    requires row in Zip(cols) && j < |cols|
    ensures |row| == |cols| && row[j] in cols[j]
  {
    var q :| 0 <= q < |Zip(cols)| && Zip(cols)[q] == row;
  }

  /** Every config holds every key of the distributions: the plain values
      unchanged, and each enumerable key one of its choices. */
  lemma AllConfigsKeys(flat: Config, order: seq<string>)
    requires KeyOrder(flat, order) && !HasDistribution(flat)
    ensures var cs := AllConfigs(flat, order);
      && (forall i :: 0 <= i < |cs| ==> forall k :: k in cs[i] <==> k in flat)
      && (forall i, k :: 0 <= i < |cs| && k in flat && flat[k].Value? ==> cs[i][k] == flat[k])
      && (forall i, k :: 0 <= i < |cs| && k in flat && flat[k].Choices? ==> cs[i][k].Value? && cs[i][k].v in flat[k].vs)
  {
    var cs: seq<Config> := AllConfigs(flat, order);
    forall i | 0 <= i < |cs|
      ensures forall k :: k in cs[i] <==> k in flat
      ensures forall k :: k in flat && flat[k].Value? ==> cs[i][k] == flat[k]
      ensures forall k :: k in flat && flat[k].Choices? ==> cs[i][k].Value? && cs[i][k].v in flat[k].vs
    {
      AllConfigKeysAt(flat, order, i);
    }
  }

  /** Config `i` of `generate_all`: the keys of the distribution, the plain
      values unchanged and one of its choices at each enumerable key. */
  lemma AllConfigKeysAt(flat: Config, order: seq<string>, i: nat)
    requires KeyOrder(flat, order) && !HasDistribution(flat) && i < |AllConfigs(flat, order)|
    ensures var c := AllConfigs(flat, order)[i];
      && (forall k :: k in c <==> k in flat)
      && (forall k :: k in flat && flat[k].Value? ==> c[k] == flat[k])
      && (forall k :: k in flat && flat[k].Choices? ==> c[k].Value? && c[k].v in flat[k].vs)
  {
    var keys := Enumerable(flat, order);
    var lists := Lists(flat, keys);
    var rows := SortedProduct(lists);
    var c := AllConfigs(flat, order)[i];
    EnumerableDistinct(flat, order);
    assert Picks(rows[i], lists);
    ConfigAt(Plain(flat, order), keys, rows, i);
    forall k | k in flat && flat[k].Choices? ensures c[k].Value? && c[k].v in flat[k].vs {
      var j :| 0 <= j < |keys| && keys[j] == k;
      assert rows[i][j] in lists[j];
    }
  }

  /** Read back at `keys`, each config is its row. */
  lemma ConfigsTuples(base: Config, keys: seq<string>, rows: seq<seq<int>>)
    requires Distinct(keys) && forall i :: 0 <= i < |rows| ==> |rows[i]| == |keys|
    ensures var cs := Configs(base, keys, rows);
      forall i :: 0 <= i < |cs| ==> Tuple(cs[i], keys) == rows[i]
  {
    forall i | 0 <= i < |rows|
      ensures Tuple(Assign(base, keys, rows[i]), keys) == rows[i]
    {
      AssignTuple(base, keys, rows[i]);
    }
  }

  /** Read as tuples in sorted key order, the configs are sorted, each picks
      one choice per enumerable key, and every such combination appears. */
  lemma AllConfigsEnumerate(flat: Config, order: seq<string>)
    requires KeyOrder(flat, order)
    ensures var keys := Enumerable(flat, order);
      var cs := AllConfigs(flat, order);
      && (forall i, j :: 0 <= i < j < |cs| ==> LexLe(Tuple(cs[i], keys), Tuple(cs[j], keys)))
      && (forall i :: 0 <= i < |cs| ==> Picks(Tuple(cs[i], keys), Lists(flat, keys)))
      && (forall t :: Picks(t, Lists(flat, keys)) ==> exists i :: 0 <= i < |cs| && Tuple(cs[i], keys) == t)
  {
    EnumerableDistinct(flat, order);
    TuplesEnumerate(Plain(flat, order), Enumerable(flat, order), Lists(flat, Enumerable(flat, order)));
  }

  lemma TuplesEnumerate(base: Config, keys: seq<string>, lists: seq<seq<int>>)
    requires Distinct(keys) && |lists| == |keys|
    ensures var cs := Configs(base, keys, SortedProduct(lists));
      && (forall i, j :: 0 <= i < j < |cs| ==> LexLe(Tuple(cs[i], keys), Tuple(cs[j], keys)))
      && (forall i :: 0 <= i < |cs| ==> Picks(Tuple(cs[i], keys), lists))
      && (forall t :: Picks(t, lists) ==> exists i :: 0 <= i < |cs| && Tuple(cs[i], keys) == t)
  {
    var rows := SortedProduct(lists);
    var cs := Configs(base, keys, rows);
    forall i | 0 <= i < |rows| ensures |rows[i]| == |keys| {
      assert Picks(rows[i], lists);
    }
    ConfigsTuples(base, keys, rows);
    forall i, j | 0 <= i < j < |cs| ensures LexLe(Tuple(cs[i], keys), Tuple(cs[j], keys)) {
      assert LexLe(Row(rows[i]), Row(rows[j]));
    }
    forall t | Picks(t, lists) ensures exists i :: 0 <= i < |cs| && Tuple(cs[i], keys) == t {
      var i :| 0 <= i < |rows| && rows[i] == t;
      assert Tuple(cs[i], keys) == t;
    }
  }

  // ---------------------------------------------------------------- nested_sample

  /** The keys `nested_sample` draws values for: a non-empty list of choices
      (`np.random.choice` refuses an empty one) or a continuous distribution. */
  predicate Drawable(p: Param)
  {
    (p.Choices? && p.vs != []) || p.Distribution?
  }

  function DrawnKeys(flat: Config, ks: seq<string>): (r: seq<string>)
    ensures forall k :: k in r <==> k in ks && k in flat && Drawable(flat[k])
  {
    if ks == [] then []
    else
      var k := ks[|ks| - 1];
      assert forall x :: x in ks <==> x in ks[..|ks| - 1] || x == k;
      DrawnKeys(flat, ks[..|ks| - 1]) + (if k in flat && Drawable(flat[k]) then [k] else [])
  }

  /** The parameters `nested_sample` keeps as they are. */
  function Kept(flat: Config, ks: seq<string>): (r: Config)
    ensures forall k :: k in r <==> k in ks && k in flat && !Drawable(flat[k])
    ensures forall k :: k in r ==> r[k] == flat[k]
  {
    if ks == [] then map[]
    else
      var k := ks[|ks| - 1];
      assert forall x :: x in ks <==> x in ks[..|ks| - 1] || x == k;
      var rest := Kept(flat, ks[..|ks| - 1]);
      if k in flat && !Drawable(flat[k]) then rest[k := flat[k]] else rest
  }

  lemma SampleStep(flat: Config, order: seq<string>, i: nat)
    requires i < |order|
    ensures var k := order[i];
      && DrawnKeys(flat, order[..i + 1]) == DrawnKeys(flat, order[..i]) + (if k in flat && Drawable(flat[k]) then [k] else [])
      && Kept(flat, order[..i + 1]) == (if k in flat && !Drawable(flat[k]) then Kept(flat, order[..i])[k := flat[k]] else Kept(flat, order[..i]))
  {
    assert order[..i + 1][..i] == order[..i];
  }

  /** The values drawn for each key, in key order. */
  function Columns(keys: seq<string>, draw: string -> seq<int>): (r: seq<seq<int>>)
    ensures |r| == |keys| && forall j :: 0 <= j < |keys| ==> r[j] == draw(keys[j])
  {
    seq(|keys|, j requires 0 <= j < |keys| => draw(keys[j]))
  }

  function MinLength(cols: seq<seq<int>>): (m: nat)
    requires cols != []
    ensures forall j :: 0 <= j < |cols| ==> m <= |cols[j]|
    ensures exists j :: 0 <= j < |cols| && m == |cols[j]|
  {
    if |cols| == 1 then |cols[0]|
    else
      var m := MinLength(cols[1..]);
      assert forall j :: 1 <= j < |cols| ==> cols[j] == cols[1..][j - 1];
      if |cols[0]| <= m then |cols[0]| else m
  }

  /** `zip(*cols)`: as many tuples as the shortest column, none without columns. */
  function Zip(cols: seq<seq<int>>): (r: seq<seq<int>>)
    ensures cols == [] ==> r == []
    ensures cols != [] ==> |r| == MinLength(cols)
    ensures forall i :: 0 <= i < |r| ==> |r[i]| == |cols| && forall j :: 0 <= j < |cols| ==> r[i][j] == cols[j][i]
  {
    if cols == [] then []
    else seq(MinLength(cols), i requires 0 <= i < MinLength(cols) =>
           seq(|cols|, j requires 0 <= j < |cols| => cols[j][i]))
  }

  /** `sorted(zip(*cols))` */
  function SortedZip(cols: seq<seq<int>>): (rows: seq<seq<int>>)
    ensures SortedBy(rows, Row) && multiset(rows) == multiset(Zip(cols)) && |rows| == |Zip(cols)|
    ensures forall i :: 0 <= i < |rows| ==> rows[i] in Zip(cols) && |rows[i]| == |cols|
  {
    var rows := SortBy(Zip(cols), Row);
    forall i | 0 <= i < |rows| ensures rows[i] in Zip(cols) && |rows[i]| == |cols| {
      assert rows[i] in multiset(rows);
    }
    rows
  }

  /** What `nested_sample` returns, `draw(k)` standing for the values
      `np.random.choice` or `rvs` produced for key `k`. */
  function SampledConfigs(flat: Config, order: seq<string>, draw: string -> seq<int>): seq<Config>
  {
    var keys := DrawnKeys(flat, order);
    Configs(Kept(flat, order), keys, SortedZip(Columns(keys, draw)))
  }

  /** The loop of `nested_sample` over `sorted(flat.keys())`. */
  method ClassifySample(flat: Config, order: seq<string>, draw: string -> seq<int>)
    returns (sampledKeys: seq<string>, samples: seq<seq<int>>, other: Config)
    ensures sampledKeys == DrawnKeys(flat, order) && samples == Columns(sampledKeys, draw) && other == Kept(flat, order)
  {
    other := map[];
    sampledKeys := [];
    samples := [];
    var i := 0;
    while i < |order|
      invariant 0 <= i <= |order|
      invariant sampledKeys == DrawnKeys(flat, order[..i]) && samples == Columns(sampledKeys, draw)
      invariant other == Kept(flat, order[..i])
    {
      var k := order[i];
      SampleStep(flat, order, i);
      if k in flat && Drawable(flat[k]) {
        samples := samples + [draw(k)];
        sampledKeys := sampledKeys + [k];
      } else if k in flat {
        other := other[k := flat[k]];
      }
      i := i + 1;
    }
    assert order[..i] == order;
  }

  /** `nested_sample(distributions, n_samples)` */
  method NestedSample(flat: Config, order: seq<string>, draw: string -> seq<int>) returns (configs: seq<Config>)
    requires KeyOrder(flat, order)
    ensures configs == SampledConfigs(flat, order, draw)
  {
    var sampledKeys, samples, other := ClassifySample(flat, order, draw);
    var rows := SortedZip(samples);
    configs := BuildConfigs(other, sampledKeys, rows);
  }

  lemma {:induction false} DrawnKeysDistinct(flat: Config, ks: seq<string>)
    requires Distinct(ks)
    ensures Distinct(DrawnKeys(flat, ks))
  {
    if ks != [] {
      DrawnKeysDistinct(flat, ks[..|ks| - 1]);
    }
  }

  /** With `n_samples` values drawn per key there are `n_samples` configs, and
      none when no key is drawn from. */
  lemma SampledConfigsCount(flat: Config, order: seq<string>, draw: string -> seq<int>, n: nat)
    requires KeyOrder(flat, order)
    requires forall k :: k in flat && Drawable(flat[k]) ==> |draw(k)| == n
    ensures |SampledConfigs(flat, order, draw)| == (if DrawnKeys(flat, order) == [] then 0 else n)
  {
    var keys := DrawnKeys(flat, order);
    var cols := Columns(keys, draw);
    if keys != [] {
      var j :| 0 <= j < |cols| && MinLength(cols) == |cols[j]|;
      assert keys[j] in keys;
    }
  }

  /** Each config holds every key of the distributions, the kept parameters
      unchanged and a drawn value at every other key. */
  lemma SampledConfigsKeys(flat: Config, order: seq<string>, draw: string -> seq<int>)
    requires KeyOrder(flat, order)
    ensures var cs := SampledConfigs(flat, order, draw);
      && (forall i :: 0 <= i < |cs| ==> forall k :: k in cs[i] <==> k in flat)
      && (forall i, k :: 0 <= i < |cs| && k in flat && !Drawable(flat[k]) ==> cs[i][k] == flat[k])
      && (forall i, k :: 0 <= i < |cs| && k in flat && Drawable(flat[k]) ==> cs[i][k].Value?)
  {
    var cs: seq<Config> := SampledConfigs(flat, order, draw);
    forall i | 0 <= i < |cs|
      ensures forall k :: k in cs[i] <==> k in flat
      ensures forall k :: k in flat && !Drawable(flat[k]) ==> cs[i][k] == flat[k]
      ensures forall k :: k in flat && Drawable(flat[k]) ==> cs[i][k].Value?
    {
      SampledConfigKeysAt(flat, order, draw, i);
    }
  }

  /** Config `i` of `nested_sample`: the keys of the distribution, the kept
      parameters unchanged and a value at each drawn key. */
  lemma SampledConfigKeysAt(flat: Config, order: seq<string>, draw: string -> seq<int>, i: nat)
    requires KeyOrder(flat, order) && i < |SampledConfigs(flat, order, draw)|
    ensures var c := SampledConfigs(flat, order, draw)[i];
      && (forall k :: k in c <==> k in flat)
      && (forall k :: k in flat && !Drawable(flat[k]) ==> c[k] == flat[k])
      && (forall k :: k in flat && Drawable(flat[k]) ==> c[k].Value?)
  {
    var keys := DrawnKeys(flat, order);
    var rows := SortedZip(Columns(keys, draw));
    var c := SampledConfigs(flat, order, draw)[i];
    DrawnKeysDistinct(flat, order);
    ConfigAt(Kept(flat, order), keys, rows, i);
    forall k | k in flat && Drawable(flat[k]) ensures c[k].Value? {
      var j :| 0 <= j < |keys| && keys[j] == k;
    }
  }

  /** Read as tuples in key order the configs are sorted, and they are the
      drawn tuples. */
  lemma SampledConfigsTuples(flat: Config, order: seq<string>, draw: string -> seq<int>)
    requires KeyOrder(flat, order)
    ensures var keys := DrawnKeys(flat, order);
      var cs := SampledConfigs(flat, order, draw);
      && (forall i, j :: 0 <= i < j < |cs| ==> LexLe(Tuple(cs[i], keys), Tuple(cs[j], keys)))
      && (forall i :: 0 <= i < |cs| ==> Tuple(cs[i], keys) in Zip(Columns(keys, draw)))
  {
    var keys := DrawnKeys(flat, order);
    var rows := SortedZip(Columns(keys, draw));
    var cs := Configs(Kept(flat, order), keys, rows);
    DrawnKeysDistinct(flat, order);
    ConfigsTuples(Kept(flat, order), keys, rows);
    forall i, j | 0 <= i < j < |cs| ensures LexLe(Tuple(cs[i], keys), Tuple(cs[j], keys)) {
      assert LexLe(Row(rows[i]), Row(rows[j]));
    }
  }

  /** A value `np.random.choice` drew from a list is one of its elements. */
  lemma SampledChoicesAreChoices(flat: Config, order: seq<string>, draw: string -> seq<int>)
    requires KeyOrder(flat, order)
    requires forall k :: k in flat && flat[k].Choices? ==> forall x :: x in draw(k) ==> x in flat[k].vs
    ensures var cs := SampledConfigs(flat, order, draw);
      forall i, k :: 0 <= i < |cs| && k in flat && flat[k].Choices? && flat[k].vs != [] ==>
        k in cs[i] && cs[i][k].Value? && cs[i][k].v in flat[k].vs
  {
    var cs: seq<Config> := SampledConfigs(flat, order, draw);
    forall i: int, k: string | 0 <= i < |cs| && k in flat && flat[k].Choices? && flat[k].vs != []
      ensures k in cs[i] && cs[i][k].Value? && cs[i][k].v in flat[k].vs
    {
      SampledChoiceAt(flat, order, draw, i, k);
    }
  }

  /** Config `i` holds at the list key `k` a value that `draw(k)` gave. */
  lemma SampledChoiceAt(flat: Config, order: seq<string>, draw: string -> seq<int>, i: nat, k: string)
    requires KeyOrder(flat, order) && i < |SampledConfigs(flat, order, draw)|
    requires k in flat && flat[k].Choices? && flat[k].vs != []
    ensures var c := SampledConfigs(flat, order, draw)[i];
      k in c && c[k].Value? && c[k].v in draw(k)
  {
    var keys := DrawnKeys(flat, order);
    var cols := Columns(keys, draw);
    var rows := SortedZip(cols);
    DrawnKeysDistinct(flat, order);
    assert k in order && k in keys;
    var j :| 0 <= j < |keys| && keys[j] == k;
    assert rows[i] in Zip(cols);
    ZippedFrom(cols, rows[i], j);
    ConfigAt(Kept(flat, order), keys, rows, i);
  }

  // ---------------------------------------------------------------- sample_configs

  /** A sample dict from a list of samples: the caller keeps a reference to it,
      so the `idx` written into it is visible outside. */
  class Sample {
    var config: Config

    constructor(config: Config)
      ensures this.config == config
    {
      this.config := config;
    }
  }

  /** The first argument of `sample_configs`: a list of samples, or a dict of distributions. */
  datatype Distributions = Listed(samples: seq<Sample>) | Space(flat: Config, order: seq<string>)

  /** `np.random.permutation(n)` */
  predicate IsPermutation(perm: seq<nat>, n: nat)
  {
    |perm| == n && Distinct(perm) && forall j :: 0 <= j < |perm| ==> perm[j] < n
  }

  /** The samples kept from a list: all of them in order when `n_samples` is
      falsy, otherwise the first `n_samples` of a random permutation. */
  function Chosen<T>(samples: seq<T>, nSamples: nat, perm: seq<nat>): (r: seq<T>)
    requires IsPermutation(perm, |samples|)
    ensures nSamples == 0 ==> r == samples
    ensures nSamples != 0 ==> |r| == (if nSamples < |samples| then nSamples else |samples|)
    ensures nSamples != 0 ==> forall j :: 0 <= j < |r| ==> r[j] == samples[perm[j]]
  {
    if nSamples == 0 then samples
    else
      var m := if nSamples < |samples| then nSamples else |samples|;
      seq(m, j requires 0 <= j < m => samples[perm[j]])
  }

  /** A permutation's prefix picks distinct positions: no sample is chosen twice. */
  lemma ChosenPositionsDistinct(n: nat, nSamples: nat, perm: seq<nat>)
    requires IsPermutation(perm, n) && nSamples != 0
    ensures var m := if nSamples < n then nSamples else n;
      forall i, j :: 0 <= i < j < m ==> perm[i] != perm[j]
  {
  }

  /** The copy for repeat `r` of sample `i`, with its fresh seed. */
  function Tag(c: Config, i: nat, r: nat, seed: int): Config
  {
    c["idx" := Value(i)]["repeat" := Value(r)]["seed" := Value(seed)]
  }

  /** The `n` copies of sample number `i`, the first of them at position `pos`
      of the output. */
  function Repeats(c: Config, i: nat, n: nat, seed: nat -> int, pos: nat): (r: seq<Config>)
    ensures |r| == n
    ensures forall q :: 0 <= q < n ==> r[q] == Tag(c, i, q, seed(pos + q))
  {
    seq(n, q requires 0 <= q < n => Tag(c, i, q, seed(pos + q)))
  }

  /** What `sample_configs` returns for samples `cs`, the first of them being
      sample number `i` and its first copy at output position `pos`;
      `seed(p)` is the seed drawn for output position `p`. */
  function FanOut(cs: seq<Config>, repeats: nat, seed: nat -> int, i: nat, pos: nat): seq<Config>
    decreases |cs|
  {
    if cs == [] then []
    else Repeats(cs[0], i, repeats, seed, pos) + FanOut(cs[1..], repeats, seed, i + 1, pos + repeats)
  }

  /** `a * n`, spelt as repeated addition so that the position arithmetic stays linear. */
  function Offset(a: nat, n: nat): nat
  {
    if a == 0 then 0 else Offset(a - 1, n) + n
  }

  lemma {:induction false} OffsetIsProduct(a: nat, n: nat)
    ensures Offset(a, n) == a * n
  {
    if a > 0 {
      OffsetIsProduct(a - 1, n);
      MulSucc(a - 1, n);
    }
  }

  lemma {:induction false} FanOutLength(cs: seq<Config>, repeats: nat, seed: nat -> int, i: nat, pos: nat)
    ensures |FanOut(cs, repeats, seed, i, pos)| == Offset(|cs|, repeats)
    decreases |cs|
  {
    if cs != [] {
      FanOutLength(cs[1..], repeats, seed, i + 1, pos + repeats);
    }
  }

  lemma FanOutFirst(cs: seq<Config>, repeats: nat, seed: nat -> int, i: nat, pos: nat, r: nat)
    requires cs != [] && r < repeats
    ensures r < |FanOut(cs, repeats, seed, i, pos)|
    ensures FanOut(cs, repeats, seed, i, pos)[r] == Tag(cs[0], i, r, seed(pos + r))
  {
    var head := Repeats(cs[0], i, repeats, seed, pos);
    assert FanOut(cs, repeats, seed, i, pos) == head + FanOut(cs[1..], repeats, seed, i + 1, pos + repeats);
  }

  lemma FanOutLater(cs: seq<Config>, repeats: nat, seed: nat -> int, i: nat, pos: nat, q: nat)
    requires cs != [] && q < |FanOut(cs[1..], repeats, seed, i + 1, pos + repeats)|
    ensures repeats + q < |FanOut(cs, repeats, seed, i, pos)|
    ensures FanOut(cs, repeats, seed, i, pos)[repeats + q] == FanOut(cs[1..], repeats, seed, i + 1, pos + repeats)[q]
  {
    var head := Repeats(cs[0], i, repeats, seed, pos);
    var rest := FanOut(cs[1..], repeats, seed, i + 1, pos + repeats);
    assert FanOut(cs, repeats, seed, i, pos) == head + rest;
  }

  /** Position `k == Offset(a, repeats) + r` holds copy `r` of sample `a`, its
      `idx` being `j == i + a` and its seed the one drawn at `pos + k`. */
  lemma {:induction false} FanOutAt(cs: seq<Config>, repeats: nat, seed: nat -> int, i: nat, pos: nat,
                                    a: nat, r: nat, k: nat, j: nat, p: nat)
    requires a < |cs| && r < repeats
    requires k == Offset(a, repeats) + r && j == i + a && p == pos + k
    ensures k < |FanOut(cs, repeats, seed, i, pos)|
    ensures FanOut(cs, repeats, seed, i, pos)[k] == Tag(cs[a], j, r, seed(p))
    decreases a
  {
    if a == 0 {
      FanOutFirst(cs, repeats, seed, i, pos, r);
    } else {
      var q := Offset(a - 1, repeats) + r;
      assert k == repeats + q;
      var rest := cs[1..];
      assert rest[a - 1] == cs[a];
      FanOutAt(rest, repeats, seed, i + 1, pos + repeats, a - 1, r, q, j, p);
      var tail := FanOut(rest, repeats, seed, i + 1, pos + repeats);
      assert tail[q] == Tag(cs[a], j, r, seed(p));
      FanOutLater(cs, repeats, seed, i, pos, q);
    }
  }

  /** `len(samples) * n_repeats` configs; the one at position `i*n_repeats + r`
      is sample `i` with `idx == i`, `repeat == r` and the seed drawn there. */
  lemma FanOutIndex(cs: seq<Config>, repeats: nat, seed: nat -> int, i: nat, r: nat)
    requires i < |cs| && r < repeats
    ensures |FanOut(cs, repeats, seed, 0, 0)| == |cs| * repeats
    ensures i * repeats + r < |cs| * repeats
    ensures FanOut(cs, repeats, seed, 0, 0)[i * repeats + r] == Tag(cs[i], i, r, seed(i * repeats + r))
  {
    FanOutLength(cs, repeats, seed, 0, 0);
    OffsetIsProduct(|cs|, repeats);
    OffsetIsProduct(i, repeats);
    var k := i * repeats + r;
    FanOutAt(cs, repeats, seed, 0, 0, i, r, k, i, k);
  }

  /** Appending the copies of sample `i` to the output so far leaves the
      copies of the remaining samples to follow. */
  lemma FanOutStep(cs: seq<Config>, repeats: nat, seed: nat -> int, i: nat, done: seq<Config>)
    requires i < |cs| && FanOut(cs, repeats, seed, 0, 0) == done + FanOut(cs[i..], repeats, seed, i, |done|)
    ensures FanOut(cs, repeats, seed, 0, 0)
         == (done + Repeats(cs[i], i, repeats, seed, |done|)) + FanOut(cs[i + 1..], repeats, seed, i + 1, |done| + repeats)
  {
    assert cs[i..][1..] == cs[i + 1..];
  }

  /** The configs held by a list of samples. */
  function ConfigsOf(samples: seq<Sample>): (r: seq<Config>)
    reads set s | s in samples
    ensures |r| == |samples| && forall i :: 0 <= i < |samples| ==> r[i] == samples[i].config
  {
    if samples == [] then [] else [samples[0].config] + ConfigsOf(samples[1..])
  }

  /** `a` and `b` agree everywhere but at `idx`. */
  ghost predicate SameButIdx(a: Config, b: Config)
  {
    forall k :: k != "idx" ==> (k in a <==> k in b) && (k in a ==> a[k] == b[k])
  }

  lemma SameButIdxTag(a: Config, b: Config, v: Param)
    requires SameButIdx(a, b)
    ensures a["idx" := v] == b["idx" := v]
  {
  }

  /** `for r in range(n_repeats)`: one deep copy of `c` per repeat, tagged with
      `repeat` and a fresh seed. */
  method AppendRepeats(configs: seq<Config>, c: Config, ghost base: Config, ghost i: nat, repeats: nat, seed: nat -> int)
    returns (out: seq<Config>)
    requires c == base["idx" := Value(i)]
    ensures out == configs + Repeats(base, i, repeats, seed, |configs|)
  {
    out := configs;
    var r := 0;
    while r < repeats
      invariant 0 <= r <= repeats
      invariant out == configs + Repeats(base, i, r, seed, |configs|)
    {
      out := out + [c["repeat" := Value(r)]["seed" := Value(seed(|out|))]];
      r := r + 1;
    }
  }

  /** No later position of `samples` holds the same object as position `j`. */
  predicate LastOccurrence(samples: seq<Sample>, j: nat)
    requires j < |samples|
  {
    forall q :: j < q < |samples| ==> samples[q] != samples[j]
  }

  /** After `idx` has been written into the first `i` samples: every sample
      differs from its original `cs[j]` at most at `idx`, and a sample whose
      last position is `j < i` carries `idx == j`. */
  ghost predicate Tagged(samples: seq<Sample>, cs: seq<Config>, i: nat)
    reads set s | s in samples
    requires |cs| == |samples| && i <= |samples|
  {
    && (forall j :: 0 <= j < |samples| ==> SameButIdx(samples[j].config, cs[j]))
    && (forall j :: 0 <= j < i && LastOccurrence(samples, j) ==> samples[j].config == cs[j]["idx" := Value(j)])
  }

  /** `s['idx'] = i` */
  method TagSample(samples: seq<Sample>, ghost cs: seq<Config>, i: nat)
    requires |cs| == |samples| && i < |samples| && Tagged(samples, cs, i)
    modifies samples[i]
    ensures Tagged(samples, cs, i + 1)
    ensures samples[i].config == cs[i]["idx" := Value(i)]
  {
    var s := samples[i];
    SameButIdxTag(s.config, cs[i], Value(i));
    s.config := s.config["idx" := Value(i)];
    forall j | 0 <= j < |samples|
      ensures SameButIdx(samples[j].config, cs[j])
    {
      if samples[j] == s {
        assert SameButIdx(old(samples[j].config), cs[j]);
      }
    }
  }

  /** One turn of the loop of `sample_configs`: tag sample `i`, then append its copies. */
  method TagAndCopy(samples: seq<Sample>, ghost cs: seq<Config>, i: nat, configs: seq<Config>, repeats: nat, seed: nat -> int)
    returns (configs': seq<Config>)
    requires |cs| == |samples| && i < |samples| && Tagged(samples, cs, i)
    requires FanOut(cs, repeats, seed, 0, 0) == configs + FanOut(cs[i..], repeats, seed, i, |configs|)
    modifies samples[i]
    ensures Tagged(samples, cs, i + 1)
    ensures FanOut(cs, repeats, seed, 0, 0) == configs' + FanOut(cs[i + 1..], repeats, seed, i + 1, |configs'|)
  {
    FanOutStep(cs, repeats, seed, i, configs);
    TagSample(samples, cs, i);
    configs' := AppendRepeats(configs, samples[i].config, cs[i], i, repeats, seed);
  }

  /** The loop of `sample_configs`: write `idx` into each sample, then append
      one deep copy per repeat with its `repeat` and a fresh seed. A sample
      listed twice keeps the `idx` of its last position. */
  method TagAndRepeat(samples: seq<Sample>, repeats: nat, seed: nat -> int) returns (configs: seq<Config>)
    modifies set s | s in samples
    ensures configs == FanOut(old(ConfigsOf(samples)), repeats, seed, 0, 0)
    ensures Tagged(samples, old(ConfigsOf(samples)), |samples|)
  {
    ghost var cs := ConfigsOf(samples);
    configs := [];
    var i := 0;
    while i < |samples|
      invariant 0 <= i <= |samples|
      invariant FanOut(cs, repeats, seed, 0, 0) == configs + FanOut(cs[i..], repeats, seed, i, |configs|)
      invariant Tagged(samples, cs, i)
    {
      configs := TagAndCopy(samples, cs, i, configs, repeats, seed);
      i := i + 1;
    }
  }

  /** Fresh sample dicts for the configs `generate_all` or `nested_sample` built. */
  method Wrap(cs: seq<Config>) returns (samples: seq<Sample>)
    ensures ConfigsOf(samples) == cs
    ensures forall s :: s in samples ==> fresh(s)
  {
    samples := [];
    var i := 0;
    while i < |cs|
      invariant 0 <= i <= |cs|
      invariant |samples| == i && forall j :: 0 <= j < i ==> samples[j].config == cs[j]
      invariant forall s :: s in samples ==> fresh(s)
    {
      var s := new Sample(cs[i]);
      samples := samples + [s];
      i := i + 1;
    }
  }

  /** `sample_configs(distributions, base_config, n_repeats, n_samples)`, with
      `n_samples == 0` for a falsy count, `perm` the permutation drawn for a
      list of samples, `draw` the values drawn by `nested_sample` and `seed(p)`
      the seed `gen_seed()` returns for output position `p`. */
  method SampleConfigs(distributions: Distributions, repeats: nat, nSamples: nat, perm: seq<nat>,
                       draw: string -> seq<int>, seed: nat -> int) returns (r: Result<seq<Config>>)
    requires distributions.Listed? ==> IsPermutation(perm, |distributions.samples|)
    requires distributions.Space? ==> KeyOrder(distributions.flat, distributions.order)
    modifies if distributions.Listed? then set s | s in distributions.samples else {}
    ensures distributions.Listed? ==>
      var chosen := Chosen(distributions.samples, nSamples, perm);
      && r == Ok(FanOut(old(ConfigsOf(chosen)), repeats, seed, 0, 0))
      && Tagged(chosen, old(ConfigsOf(chosen)), |chosen|)
    ensures distributions.Space? && nSamples == 0 ==>
      && (r.Err? <==> HasDistribution(distributions.flat))
      && (r.Ok? ==> r.value == FanOut(AllConfigs(distributions.flat, distributions.order), repeats, seed, 0, 0))
    ensures distributions.Space? && nSamples != 0 ==>
      r == Ok(FanOut(SampledConfigs(distributions.flat, distributions.order, draw), repeats, seed, 0, 0))
  {
    var samples: seq<Sample>;
    match distributions {
      case Listed(listed) =>
        samples := Chosen(listed, nSamples, perm);
      case Space(flat, order) =>
        var cs: seq<Config>;
        if nSamples == 0 {
          var all := GenerateAll(flat, order);
          if all.Err? {
            return Err(all.error);
          }
          cs := all.value;
        } else {
          cs := NestedSample(flat, order, draw);
        }
        samples := Wrap(cs);
    }
    var configs := TagAndRepeat(samples, repeats, seed);
    r := Ok(configs);
  }
}
