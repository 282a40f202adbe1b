/** The grid-arithmetic task (`dps/envs/grid_arithmetic.py`) without the EMNIST images:
    a grid of 1x1 cells holds an operator symbol (`10 + i` for the i-th reduction in
    sorted order), digits `0..base-1` and blanks (-1); an agent moves a fovea over it,
    classifies what it sees into a digit and an op register, and updates an
    accumulator by arithmetic actions. */
module GridArithmetic {
  import opened Wrappers
  import opened Sorting
  import opened Strings
  import opened Dicts
  import opened Activations
  import opened Grids

  // ---------------------------------------------------------------- reductions

  /** The reductions of the configuration: `sum`, `np.product`, `max`, `min`, `len`. */
  datatype Reduction = Sum | Product | Max | Min | Count

  function Total(ys: seq<int>): int
  {
    if ys == [] then 0 else Total(ys[..|ys| - 1]) + ys[|ys| - 1]
  }

  function Prod(ys: seq<int>): int
  {
    if ys == [] then 1 else Prod(ys[..|ys| - 1]) * ys[|ys| - 1]
  }

  /** Python `max` over a non-empty list. */
  function MaxOf(ys: seq<int>): (m: int)
    requires ys != []
    ensures m in ys && forall i :: 0 <= i < |ys| ==> ys[i] <= m
  {
    if |ys| == 1 then ys[0]
    else
      var m := MaxOf(ys[..|ys| - 1]);
      assert forall i :: 0 <= i < |ys| - 1 ==> ys[i] == ys[..|ys| - 1][i];
      if ys[|ys| - 1] > m then ys[|ys| - 1] else m
  }

  /** Python `min` over a non-empty list. */
  function MinOf(ys: seq<int>): (m: int)
    requires ys != []
    ensures m in ys && forall i :: 0 <= i < |ys| ==> m <= ys[i]
  {
    if |ys| == 1 then ys[0]
    else
      var m := MinOf(ys[..|ys| - 1]);
      assert forall i :: 0 <= i < |ys| - 1 ==> ys[i] == ys[..|ys| - 1][i];
      if ys[|ys| - 1] < m then ys[|ys| - 1] else m
  }

  /** `func(ys)`: `max` and `min` of no digits raise `ValueError`. */
  function Apply(f: Reduction, ys: seq<int>): (r: Result<int>)
    ensures r.Err? <==> ys == [] && (f == Max || f == Min)
  {
    match f
    case Sum => Ok(Total(ys))
    case Product => Ok(Prod(ys))
    case Max => if ys == [] then Err("ValueError") else Ok(MaxOf(ys))
    case Min => if ys == [] then Err("ValueError") else Ok(MinOf(ys))
    case Count => Ok(|ys|)
  }

  // ---------------------------------------------------------------- dataset settings

  /** The three assertions of `GridArithmeticDataset.__init__`, in source order. */
  function CheckSettings(base: int, minDigits: int, maxDigits: int, size: nat): (r: Result<()>)
    ensures r.Ok? <==> 1 <= base <= 10 && minDigits <= maxDigits && size >= maxDigits + 1
  {
    if !(1 <= base <= 10) then Err("AssertionError")
    else if minDigits > maxDigits then Err("AssertionError")
    else if size < maxDigits + 1 then Err("AssertionError")
    else Ok(())
  }

  /** The `reductions` parameter: one callable, or `(letter, reduction)` pairs. */
  datatype ReductionsParam = Callable(f: Reduction) | Pairs(pairs: seq<(string, Reduction)>)

  /** A callable becomes the single reduction 'A' and hides the operator; pairs are
      kept (to become a dict) and `show_op` is left as given. */
  function SetupReductions(p: ReductionsParam, showOp: bool): (r: (seq<(string, Reduction)>, bool))
    ensures p.Callable? ==> Dict(r.0) == map["A" := p.f] && !r.1
    ensures p.Pairs? ==> r == (p.pairs, showOp)
  {
    match p
    case Callable(f) =>
      assert Firsts([("A", f)]) == ["A"];
      ([("A", f)], false)
    case Pairs(pairs) => (pairs, showOp)
  }

  /** `{i: reductions[k] for i, k in enumerate(sorted(reductions))}`. */
  function IndexTable(pairs: seq<(string, Reduction)>): (t: map<int, Reduction>)
    ensures forall i :: i in t <==> 0 <= i < |SortedKeys(pairs)|
    ensures forall i :: 0 <= i < |SortedKeys(pairs)| ==> t[i] == Dict(pairs)[SortedKeys(pairs)[i]]
  {
    var keys := SortedKeys(pairs);
    map i | 0 <= i < |keys| :: Dict(pairs)[keys[i]]
  }

  /** A `DataContainer` of `(x, y)` pairs: what is drawn into the grid, and its label. */
  type Container = seq<(int, int)>

  /** Non-MNIST operator symbols: the i-th sorted reduction is drawn as `i + 10`, labelled i. */
  function SymbolReps(n: nat): (c: Container)
    ensures |c| == n && forall i :: 0 <= i < n ==> c[i] == (i + 10, i)
  {
    seq(n, i => (i + 10, i))
  }

  /** Non-MNIST digits: each digit is drawn as itself. */
  function DigitReps(base: nat): (c: Container)
    ensures |c| == base && forall i :: 0 <= i < base ==> c[i] == (i, i)
  {
    seq(base, i => (i, i))
  }

  /** The blank element of the non-MNIST grid. */
  const Blank := -1

  // ---------------------------------------------------------------- operator placement

  /** `indices[indices == _op_loc] = indices[0]; indices[0] = _op_loc`. */
  function Swapped(s: seq<int>, opLoc: int): (r: seq<int>)
    requires |s| >= 1
    ensures |r| == |s|
  {
    seq(|s|, i requires 0 <= i < |s| => if i == 0 then opLoc else if s[i] == opLoc then s[0] else s[i])
  }

  method SwapOpLoc(indices: array<int>, opLoc: int)
    requires indices.Length >= 1
    modifies indices
    ensures indices[..] == Swapped(old(indices[..]), opLoc)
  {
    var first := indices[0];
    for i := 0 to indices.Length
      invariant forall j :: 0 <= j < i ==> indices[j] == (if old(indices[j]) == opLoc then first else old(indices[j]))
      invariant forall j :: i <= j < indices.Length ==> indices[j] == old(indices[j])
    {
      if indices[i] == opLoc {
        indices[i] := first;
      }
    }
    indices[0] := opLoc;
  }

  /** The swap keeps the chosen cells distinct and in range, and puts the operator cell
      first. When the operator cell was drawn it only exchanges two positions; otherwise
      it replaces the first drawn cell. */
  lemma SwappedCells(s: seq<int>, opLoc: int, size: nat)
    requires |s| >= 1 && Distinct(s) && CellsIn(s, size) && 0 <= opLoc < size
    ensures var r := Swapped(s, opLoc);
      r[0] == opLoc && Distinct(r) && CellsIn(r, size)
      && (opLoc in s ==> multiset(r) == multiset(s))
      && (opLoc !in s ==> r == s[0 := opLoc])
  {
    var r := Swapped(s, opLoc);
    if opLoc in s {
      var p :| 0 <= p < |s| && s[p] == opLoc;
      if p == 0 {
        assert r == s;
      } else {
        assert r == s[0 := opLoc][p := s[0]];
      }
    } else {
      assert r == s[0 := opLoc];
    }
    forall i, j | 0 <= i < j < |r| ensures r[i] != r[j] {
    }
  }

  // ---------------------------------------------------------------- targets

  datatype Target = Scalar(value: int) | Hot(slots: seq<real>)

  /** The one-hot target of `loss_type == "xent"`: `largest_digit + 2` slots, slot `y`
      when `y <= largest_digit`, the last slot otherwise. `_y[int(y)]` indexes like Python,
      so a negative `y` counts from the end and one below `-(largest_digit + 2)` raises. */
  function OneHotTarget(y: int, largest: nat): (r: Result<seq<real>>)
    ensures r.Err? <==> y < -(largest + 2)
    ensures r.Ok? ==> |r.value| == largest + 2
    ensures 0 <= y <= largest ==> r == Ok(OneHot(largest + 2, y))
    ensures y > largest ==> r == Ok(OneHot(largest + 2, largest + 1))
  {
    var n := largest + 2;
    if y > largest then Ok(OneHot(n, n - 1))
    else if y >= 0 then Ok(OneHot(n, y))
    else if y >= -n then Ok(OneHot(n, n + y))
    else Err("IndexError")
  }

  /** The slot a one-hot target marks, read back with `argmax`. */
  function HotSlot(v: seq<real>): (k: nat)
    ensures |v| > 0 ==> k < |v|
    ensures forall i :: 0 <= i < |v| && v[i] == 1.0 ==> (k < |v| && v[k] == 1.0)
  {
    if |v| <= 1 || v[0] == 1.0 then 0
    else
      var k := HotSlot(v[1..]);
      assert forall i :: 1 <= i < |v| ==> v[i] == v[1..][i - 1];
      k + 1
  }

  /** A non-negative result is read back as itself, or as `largest_digit + 1` when it is larger. */
  lemma OneHotTargetDecodes(y: nat, largest: nat)
    ensures OneHotTarget(y, largest).Ok?
    ensures HotSlot(OneHotTarget(y, largest).value) == if y <= largest then y else largest + 1
  {
    var v := OneHotTarget(y, largest).value;
    var k := if y <= largest then y else largest + 1;
    assert v[k] == 1.0;
    assert forall i :: 0 <= i < |v| && i != k ==> v[i] == 0.0;
  }

  function MakeTarget(y: int, oneHot: bool, largest: nat): (r: Result<Target>)
    ensures !oneHot ==> r == Ok(Scalar(y))
    ensures oneHot ==> r.Ok? == OneHotTarget(y, largest).Ok?
    ensures oneHot && r.Ok? ==> r.value == Hot(OneHotTarget(y, largest).value)
  {
    if !oneHot then Ok(Scalar(y))
    else
      match OneHotTarget(y, largest)
      case Ok(v) => Ok(Hot(v))
      case Err(e) => Err(e)
  }

  // ---------------------------------------------------------------- make_dataset

  /** The random choices behind one example: the digit count, the drawn cells, and the
      positions picked in the symbol and digit containers. */
  datatype Draw = Draw(nd: nat, indices: seq<int>, symbolPick: nat, digitPicks: seq<nat>)

  datatype Example = Example(grid: seq<int>, target: Target)

  /** What the random generators promise: `randint(min_digits, max_digits+1)`, a
      `choice(size, nd+1, replace=False)` and `get_random` picks inside the containers. */
  predicate ValidDraw(d: Draw, size: nat, minDigits: int, maxDigits: int, symbolReps: Container, digitReps: Container)
  {
    minDigits <= d.nd <= maxDigits
    && |d.indices| == d.nd + 1 && Distinct(d.indices) && CellsIn(d.indices, size)
    && |d.digitPicks| == d.nd && PicksIn(d, symbolReps, digitReps)
  }

  /** The container positions of a draw exist (`get_random` only picks such positions). */
  predicate PicksIn(d: Draw, symbolReps: Container, digitReps: Container)
  {
    d.symbolPick < |symbolReps| && forall i :: 0 <= i < |d.digitPicks| ==> d.digitPicks[i] < |digitReps|
  }

  /** The chosen cells of an example: the operator cell swapped to the front when
      `op_loc` is given and the operator is shown. */
  function CellsFor(d: Draw, opLoc: Option<int>, showOp: bool): seq<int>
    requires |d.indices| >= 1
  {
    if opLoc.Some? && showOp then Swapped(d.indices, opLoc.value) else d.indices
  }

  function Picked(c: Container, picks: seq<nat>, xs: bool): (r: seq<int>)
    requires forall i :: 0 <= i < |picks| ==> picks[i] < |c|
    ensures |r| == |picks|
  {
    seq(|picks|, i requires 0 <= i < |picks| => if xs then c[picks[i]].0 else c[picks[i]].1)
  }

  /** The target of an example: the symbol's label must key a reduction (`KeyError`),
      the reduction must accept the digits' labels (`ValueError`), and the encoding
      must find its slot (`IndexError`). */
  function ExampleTarget(d: Draw, symbolReps: Container, digitReps: Container, functions: map<int, Reduction>,
                         oneHot: bool, largest: nat): Result<Target>
  {
    if !PicksIn(d, symbolReps, digitReps) then Err("IndexError")
    else
    var tag := symbolReps[d.symbolPick].1;
    if tag !in functions then Err("KeyError")
    else
      match Apply(functions[tag], Picked(digitReps, d.digitPicks, false))
      case Err(e) => Err(e)
      case Ok(y) => MakeTarget(y, oneHot, largest)
  }

  /** `e` is the example built from `d`: its grid is blank (-1) but at the chosen
      cells, with the symbol drawing at the first when the operator is shown and the
      digit drawings at the others, and its target is `ExampleTarget`. */
  predicate ExampleOf(e: Example, d: Draw, size: nat, symbolReps: Container, digitReps: Container,
                      functions: map<int, Reduction>, opLoc: Option<int>, showOp: bool, oneHot: bool, largest: nat)
  {
    |d.indices| >= 1 && PicksIn(d, symbolReps, digitReps)
    && Filled(e.grid, size, Blank, CellsFor(d, opLoc, showOp),
           if showOp then Some(symbolReps[d.symbolPick].0) else None, Picked(digitReps, d.digitPicks, true))
    && ExampleTarget(d, symbolReps, digitReps, functions, oneHot, largest) == Ok(e.target)
  }

  method MakeExample(d: Draw, size: nat, minDigits: int, maxDigits: int, symbolReps: Container, digitReps: Container,
                     functions: map<int, Reduction>, opLoc: Option<int>, showOp: bool, oneHot: bool, largest: nat)
    returns (r: Result<Example>)
    requires opLoc.Some? ==> 0 <= opLoc.value < size
    requires ValidDraw(d, size, minDigits, maxDigits, symbolReps, digitReps)
    ensures r.Ok? <==> ExampleTarget(d, symbolReps, digitReps, functions, oneHot, largest).Ok?
    ensures r.Ok? ==> ExampleOf(r.value, d, size, symbolReps, digitReps, functions, opLoc, showOp, oneHot, largest)
  {
    var cells := d.indices;
    if opLoc.Some? && showOp {
      var indices := new int[|d.indices|](i requires 0 <= i < |d.indices| => d.indices[i]);
      assert indices[..] == d.indices;
      SwapOpLoc(indices, opLoc.value);
      SwappedCells(d.indices, opLoc.value, size);
      cells := indices[..];
    }
    var symbol := if showOp then Some(symbolReps[d.symbolPick].0) else None;
    var grid := FillGrid(size, Blank, cells, symbol, Picked(digitReps, d.digitPicks, true));
    var target := ExampleTarget(d, symbolReps, digitReps, functions, oneHot, largest);
    if target.Err? {
      return Err(target.error);
    }
    r := Ok(Example(grid[..], target.value));
  }

  /** `make_dataset` as evidently intended: one example per draw (none when
      `n_examples == 0`), the operator cell at `op_loc` for every example when given. */
  method MakeDataset(draws: seq<Draw>, size: nat, minDigits: int, maxDigits: int, symbolReps: Container, digitReps: Container,
                     functions: map<int, Reduction>, opLoc: Option<int>, showOp: bool, oneHot: bool, largest: nat)
    returns (r: Result<seq<Example>>)
    requires opLoc.Some? ==> 0 <= opLoc.value < size
    requires forall j :: 0 <= j < |draws| ==> ValidDraw(draws[j], size, minDigits, maxDigits, symbolReps, digitReps)
    ensures r.Ok? <==> forall j :: 0 <= j < |draws| ==> ExampleTarget(draws[j], symbolReps, digitReps, functions, oneHot, largest).Ok?
    ensures r.Ok? ==> |r.value| == |draws| && forall j :: 0 <= j < |draws| ==>
      ExampleOf(r.value[j], draws[j], size, symbolReps, digitReps, functions, opLoc, showOp, oneHot, largest)
  {
    var examples := [];
    for j := 0 to |draws|
      invariant |examples| == j
      invariant forall i :: 0 <= i < j ==> ExampleTarget(draws[i], symbolReps, digitReps, functions, oneHot, largest).Ok?
      invariant forall i :: 0 <= i < j ==>
        ExampleOf(examples[i], draws[i], size, symbolReps, digitReps, functions, opLoc, showOp, oneHot, largest)
    {
      var e := MakeExample(draws[j], size, minDigits, maxDigits, symbolReps, digitReps, functions, opLoc, showOp, oneHot, largest);
      if e.Err? {
        return Err(e.error);
      }
      examples := examples + [e.value];
    }
    r := Ok(examples);
  }

  /** `make_dataset` as written: the loop rebinds `op_loc` to the operator's slice pair,
      so from the second example on the swap runs even when no `op_loc` was given, and
      then reads `_op_loc`, which was never assigned. */
  method MakeDatasetAsWritten(draws: seq<Draw>, size: nat, minDigits: int, maxDigits: int, symbolReps: Container,
                              digitReps: Container, functions: map<int, Reduction>, opLoc: Option<int>, showOp: bool,
                              oneHot: bool, largest: nat)
    returns (r: Result<seq<Example>>)
    requires opLoc.Some? ==> 0 <= opLoc.value < size
    requires forall j :: 0 <= j < |draws| ==> ValidDraw(draws[j], size, minDigits, maxDigits, symbolReps, digitReps)
    ensures r.Ok? <==> (forall j :: 0 <= j < |draws| ==> ExampleTarget(draws[j], symbolReps, digitReps, functions, oneHot, largest).Ok?)
                       && !(opLoc.None? && showOp && |draws| >= 2)
    ensures r.Ok? ==> |r.value| == |draws| && forall j :: 0 <= j < |draws| ==>
      ExampleOf(r.value[j], draws[j], size, symbolReps, digitReps, functions, opLoc, showOp, oneHot, largest)
  {
    var examples := [];
    var opLocBound := opLoc.Some?;
    for j := 0 to |draws|
      invariant |examples| == j
      invariant opLocBound == (opLoc.Some? || j > 0)
      invariant opLoc.None? && showOp ==> j <= 1
      invariant forall i :: 0 <= i < j ==> ExampleTarget(draws[i], symbolReps, digitReps, functions, oneHot, largest).Ok?
      invariant forall i :: 0 <= i < j ==>
        ExampleOf(examples[i], draws[i], size, symbolReps, digitReps, functions, opLoc, showOp, oneHot, largest)
    {
      if opLocBound && showOp && opLoc.None? {
        return Err("UnboundLocalError");
      }
      var e := MakeExample(draws[j], size, minDigits, maxDigits, symbolReps, digitReps, functions, opLoc, showOp, oneHot, largest);
      if e.Err? {
        return Err(e.error);
      }
      ghost var before := examples;
      examples := examples + [e.value];
      assert examples[j] == e.value && forall i :: 0 <= i < j ==> examples[i] == before[i];
      opLocBound := true;
    }
    r := Ok(examples);
  }

  // ---------------------------------------------------------------- classifiers and storage

  /** The non-MNIST digit classifier: a glimpse in [0, 10) is a digit, anything else -1. */
  function DigitClass(x: real): real
  {
    if 0.0 <= x < 10.0 then x else -1.0
  }

  /** The non-MNIST operator classifier: a glimpse of at least 10 is an operator, anything else -1. */
  function OpClass(x: real): real
  {
    if x >= 10.0 then x else -1.0
  }

  /** The encoding and the classifiers agree: an operator drawing is read as an operator
      and not as a digit, a digit drawing (base at most 10) the other way round, and a
      blank is neither. */
  lemma ClassifiersSeparate(n: nat, base: nat)
    requires base <= 10
    ensures forall i :: 0 <= i < n ==>
      OpClass(SymbolReps(n)[i].0 as real) == (i + 10) as real && DigitClass(SymbolReps(n)[i].0 as real) == -1.0
    ensures forall i :: 0 <= i < base ==>
      DigitClass(DigitReps(base)[i].0 as real) == i as real && OpClass(DigitReps(base)[i].0 as real) == -1.0
    ensures DigitClass(Blank as real) == -1.0 && OpClass(Blank as real) == -1.0
  {
  }

  /** `build_update_storage`: the digit and op registers blend towards what the
      classifiers make of the glimpse, weighted by `classify_digit` and `classify_op`. */
  function UpdateStorage(glimpse: real, digit: real, classifyDigit: real, op: real, classifyOp: real): (r: (real, real))
    ensures classifyDigit == 0.0 ==> r.0 == digit
    ensures classifyDigit == 1.0 ==> r.0 == DigitClass(glimpse)
    ensures classifyOp == 0.0 ==> r.1 == op
    ensures classifyOp == 1.0 ==> r.1 == OpClass(glimpse)
  {
    ((1.0 - classifyDigit) * digit + classifyDigit * DigitClass(glimpse),
     (1.0 - classifyOp) * op + classifyOp * OpClass(glimpse))
  }

  // ---------------------------------------------------------------- fovea

  /** `tf.clip_by_value(v, lo, hi)`: `min(max(v, lo), hi)`. */
  function Clip(v: real, lo: real, hi: real): (r: real)
    ensures lo <= hi ==> lo <= r <= hi
    ensures lo <= v <= hi ==> r == v
  {
    var m := if v < lo then lo else v;
    if m > hi then hi else m
  }

  /** `build_update_fovea`: blend the moves, then clip to the grid (`height` rows and
      `width` columns). Returns `(fovea_y, fovea_x)`. */
  function UpdateFovea(right: real, left: real, down: real, up: real, fy: real, fx: real, height: int, width: int): (r: (real, real))
    ensures height >= 1 ==> 0.0 <= r.0 <= (height - 1) as real
    ensures width >= 1 ==> 0.0 <= r.1 <= (width - 1) as real
  {
    var x := (1.0 - right - left) * fx + right * (fx + 1.0) + left * (fx - 1.0);
    var y := (1.0 - down - up) * fy + down * (fy + 1.0) + up * (fy - 1.0);
    (Clip(y, 0.0, (height - 1) as real), Clip(x, 0.0, (width - 1) as real))
  }

  datatype Move = Right | Left | Down | Up | Stay

  /** The four move activations of a single chosen move. */
  function MoveActs(m: Move): (real, real, real, real)
  {
    match m
    case Right => (1.0, 0.0, 0.0, 0.0)
    case Left => (0.0, 1.0, 0.0, 0.0)
    case Down => (0.0, 0.0, 1.0, 0.0)
    case Up => (0.0, 0.0, 0.0, 1.0)
    case Stay => (0.0, 0.0, 0.0, 0.0)
  }

  function Dx(m: Move): real { if m == Right then 1.0 else if m == Left then -1.0 else 0.0 }
  function Dy(m: Move): real { if m == Down then 1.0 else if m == Up then -1.0 else 0.0 }

  /** A single chosen move shifts the fovea by at most one cell along one axis and stops at
      the edge of the grid. */
  lemma FoveaMove(m: Move, fy: real, fx: real, height: int, width: int)
    ensures var a := MoveActs(m);
      UpdateFovea(a.0, a.1, a.2, a.3, fy, fx, height, width)
        == (Clip(fy + Dy(m), 0.0, (height - 1) as real), Clip(fx + Dx(m), 0.0, (width - 1) as real))
  {
  }

  // ---------------------------------------------------------------- accumulator

  /** The arithmetic actions on `(acc, digit)` of both grid environments. */
  datatype ArithOp = Plus | Minus | Times | Divide | Maximum | Minimum | PlusOne | MinusOne

  /** One arithmetic action of `arithmetic_actions_dict`; `None` when `/` meets
      a zero digit, where the graph produces an infinity (NaN for `0 / 0`) that
      the accumulator's `clip_by_value` turns into -1000 or 1000 when `/` is
      fully chosen. */
  function Eval(op: ArithOp, acc: real, digit: real): (r: Option<real>)
    ensures r.None? <==> op == Divide && digit == 0.0
  {
    match op
    case Plus => Some(acc + digit)
    case Minus => Some(acc - digit)
    case Times => Some(acc * digit)
    case Divide => if digit == 0.0 then None else Some(acc / digit)
    case Maximum => Some(if acc >= digit then acc else digit)
    case Minimum => Some(if acc <= digit then acc else digit)
    case PlusOne => Some(acc + 1.0)
    case MinusOne => Some(acc - 1.0)
  }

  /** `sum(action_k * f_k(acc, digit))` over the zipped actions and activations. */
  function Weighted(ops: seq<ArithOp>, acts: seq<real>, acc: real, digit: real): Option<real>
    requires |ops| == |acts|
  {
    if ops == [] then Some(0.0)
    else
      var n := |ops| - 1;
      var w := Weighted(ops[..n], acts[..n], acc, digit);
      var v := Eval(ops[n], acc, digit);
      if w.Some? && v.Some? then Some(w.value + acts[n] * v.value) else None
  }

  function SumOf(acts: seq<real>): real
  {
    if acts == [] then 0.0 else SumOf(acts[..|acts| - 1]) + acts[|acts| - 1]
  }

  /** The accumulator update of `build_step`: the blend of the arithmetic actions and of
      keeping `acc`, clipped to [-1000, 1000]. */
  function UpdateAcc(ops: seq<ArithOp>, acts: seq<real>, acc: real, digit: real): (r: Option<real>)
    requires |ops| == |acts|
    ensures r.Some? ==> -1000.0 <= r.value <= 1000.0
  {
    match Weighted(ops, acts, acc, digit)
    case Some(w) => Some(Clip(w + (1.0 - SumOf(acts)) * acc, -1000.0, 1000.0))
    case None => None
  }

  predicate Finite(ops: seq<ArithOp>, digit: real)
  {
    digit != 0.0 || forall i :: 0 <= i < |ops| ==> ops[i] != Divide
  }

  /** The last action's term added to the weighted sum of the others. */
  lemma WeightedLast(ops: seq<ArithOp>, acts: seq<real>, acc: real, digit: real)
    requires |ops| == |acts| && ops != []
    ensures var n := |ops| - 1;
      var w := Weighted(ops[..n], acts[..n], acc, digit);
      var v := Eval(ops[n], acc, digit);
      Weighted(ops, acts, acc, digit) == if w.Some? && v.Some? then Some(w.value + acts[n] * v.value) else None
  {
  }

  lemma ZeroTimes(x: real, y: real)
    requires x == 0.0
    ensures x * y == 0.0
  {
  }

  lemma OneTimes(x: real, y: real)
    requires x == 1.0
    ensures x * y == y
  {
  }

  lemma {:induction false} WeightedOneHot(ops: seq<ArithOp>, k: nat, acc: real, digit: real)
    requires Finite(ops, digit)
    ensures k < |ops| ==> Weighted(ops, OneHot(|ops|, k), acc, digit) == Eval(ops[k], acc, digit)
    ensures k >= |ops| ==> Weighted(ops, OneHot(|ops|, k), acc, digit) == Some(0.0)
    ensures SumOf(OneHot(|ops|, k)) == if k < |ops| then 1.0 else 0.0
  {
    if ops != [] {
      var n := |ops| - 1;
      var acts := OneHot(|ops|, k);
      assert acts[..n] == OneHot(n, k);
      assert Finite(ops[..n], digit) by {
        forall i | 0 <= i < n ensures ops[..n][i] != Divide || digit != 0.0 {
          assert ops[..n][i] == ops[i];
        }
      }
      WeightedOneHot(ops[..n], k, acc, digit);
      var w := Weighted(ops[..n], acts[..n], acc, digit);
      var v := Eval(ops[n], acc, digit);
      assert v.Some?;
      if k < n {
        assert ops[..n][k] == ops[k];
        assert w == Eval(ops[k], acc, digit) && w.Some?;
      } else {
        assert w == Some(0.0);
      }
      WeightedLast(ops, acts, acc, digit);
      assert SumOf(acts) == SumOf(acts[..n]) + acts[n];
      if k == n {
        OneTimes(acts[n], v.value);
      } else {
        ZeroTimes(acts[n], v.value);
      }
    }
  }

  /** Under a one-hot choice of arithmetic action k the accumulator becomes action k
      applied to `(acc, digit)`, clipped; with none chosen it keeps `acc`, clipped. */
  lemma AccOneHot(ops: seq<ArithOp>, k: nat, acc: real, digit: real)
    requires Finite(ops, digit)
    ensures k < |ops| ==> UpdateAcc(ops, OneHot(|ops|, k), acc, digit) == Some(Clip(Eval(ops[k], acc, digit).value, -1000.0, 1000.0))
    ensures k >= |ops| ==> UpdateAcc(ops, OneHot(|ops|, k), acc, digit) == Some(Clip(acc, -1000.0, 1000.0))
  {
    WeightedOneHot(ops, k, acc, digit);
  }

  // ---------------------------------------------------------------- action names

  const GridBaseNames: seq<string> := [">", "<", "v", "^", "classify_digit", "classify_op", "no-op"]

  /** `action_names`: the fixed names, `update_salience` when salience is an action,
      then the sorted arithmetic keys. */
  function ActionNames(base: seq<string>, salienceAction: bool, keys: seq<string>): (names: seq<string>)
    ensures |names| == |base| + (if salienceAction then 1 else 0) + |keys|
    ensures names[..|base|] == base
    ensures salienceAction ==> names[|base|] == "update_salience"
    ensures forall k :: 0 <= k < |keys| ==> names[ArithStart(base, salienceAction) + k] == keys[k]
  {
    base + (if salienceAction then ["update_salience"] else []) + keys
  }

  function ArithStart(base: seq<string>, salienceAction: bool): nat
  {
    |base| + if salienceAction then 1 else 0
  }

  /** The arithmetic activations `build_step` unpacks: everything after the fixed
      actions and, when salience is an action, `update_salience`. */
  function ArithActs(a: seq<real>, base: seq<string>, salienceAction: bool): seq<real>
    requires |a| >= ArithStart(base, salienceAction)
  {
    a[ArithStart(base, salienceAction)..]
  }

  /** `self.arithmetic_actions[key]` for each sorted key, the order `zip` pairs them with the activations. */
  function SortedOps(pairs: seq<(string, ArithOp)>): (ops: seq<ArithOp>)
    ensures |ops| == |SortedKeys(pairs)|
    ensures forall k :: 0 <= k < |ops| ==> ops[k] == Dict(pairs)[SortedKeys(pairs)[k]]
  {
    var keys := SortedKeys(pairs);
    seq(|keys|, k requires 0 <= k < |keys| => Dict(pairs)[keys[k]])
  }

  lemma OneHotSuffix(n: nat, start: nat, k: nat)
    requires start <= n
    ensures OneHot(n, start + k)[start..] == OneHot(n - start, k)
  {
  }

  /** With the names laid out as `action_names` and the activations unpacked as in
      `build_step`, the one-hot choice of the name at position `start + k` drives
      exactly the k-th arithmetic function. */
  lemma ActionLayout(base: seq<string>, keys: seq<string>, ops: seq<ArithOp>, salienceAction: bool, k: nat, acc: real, digit: real,
                     names: seq<string>, i: nat)
    requires |ops| == |keys| && k < |keys| && Finite(ops, digit)
    requires names == ActionNames(base, salienceAction, keys) && i == ArithStart(base, salienceAction) + k
    ensures i < |names| && names[i] == keys[k]
    ensures UpdateAcc(ops, ArithActs(OneHot(|names|, i), base, salienceAction), acc, digit)
         == Some(Clip(Eval(ops[k], acc, digit).value, -1000.0, 1000.0))
  {
    var start := ArithStart(base, salienceAction);
    OneHotSuffix(|names|, start, k);
    AccOneHot(ops, k, acc, digit);
  }
}
