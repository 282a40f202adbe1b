/** The simple-arithmetic experiment (`dps/experiments/simple_arithmetic.py`) without
    the MNIST images: a grid of `size` cells holds one operator symbol and `n`
    digits, the rest blank; the target is the operator's reduction of the digits.
    The digit conversions of this file are the `Digits` module. */
module SimpleArithmetic {
  import opened Wrappers
  import opened Sorting
  import opened Strings
  import opened Activations
  import opened Grids

  /** The reductions the environment attaches to its symbols ('A', 'M', 'C'). */
  datatype Reduction = Sum | Product | Count

  function Total(ys: seq<int>): int
  {
    if ys == [] then 0 else Total(ys[..|ys| - 1]) + ys[|ys| - 1]
  }

  function Prod(ys: seq<int>): int
  {
    if ys == [] then 1 else Prod(ys[..|ys| - 1]) * ys[|ys| - 1]
  }

  function Apply(f: Reduction, ys: seq<int>): int
  {
    match f
    case Sum => Total(ys)
    case Product => Prod(ys)
    case Count => |ys|
  }

  /** The two assertions of `SimpleArithmeticDataset.__init__`, in source order. */
  function CheckSettings(base: int, size: nat, nDigits: nat): (r: Result<()>)
    ensures r.Ok? <==> 1 <= base <= 10 && size >= nDigits + 1
  {
    if !(1 <= base <= 10) then Err("AssertionError")
    else if size < nDigits + 1 then Err("AssertionError")
    else Ok(())
  }

  // ---------------------------------------------------------------- symbol encoding

  function Letter(s: (string, Reduction)): seq<int>
  {
    Codes(s.0)
  }

  /** The non-MNIST symbol table: symbols sorted by letter, the i-th one keyed `-(i+1)`.
      Returns the sorted symbols and the table. */
  function SymbolTable(symbols: seq<(string, Reduction)>): (r: (seq<(string, Reduction)>, map<int, Reduction>))
    ensures multiset(r.0) == multiset(symbols) && SortedBy(r.0, Letter) && |r.0| == |symbols|
    ensures forall k :: k in r.1 <==> -|symbols| <= k < 0
    ensures forall i :: 0 <= i < |symbols| ==> r.1[-(i + 1)] == r.0[i].1
  {
    var sorted := SortBy(symbols, Letter);
    (sorted, CodeTable(sorted))
  }

  /** `{-(i+1): f for i, (_, f) in enumerate(sorted_symbols)}` */
  function CodeTable(sorted: seq<(string, Reduction)>): (m: map<int, Reduction>)
    ensures forall k :: k in m <==> -|sorted| <= k < 0
    ensures forall i :: 0 <= i < |sorted| ==> m[-(i + 1)] == sorted[i].1
  {
    if sorted == [] then map[]
    else CodeTable(sorted[..|sorted| - 1])[-|sorted| := sorted[|sorted| - 1].1]
  }

  /** `symbol_values = sorted(functions.keys())`: the codes -n, ..., -1. */
  function SymbolValues(n: nat): (r: seq<int>)
    ensures |r| == n
    ensures forall i :: 0 <= i < n ==> r[i] == i - n
  {
    seq(n, i => i - n)
  }

  /** `symbol_values` lists exactly the keys of the table, in increasing order. */
  lemma SymbolValuesAreTableKeys(symbols: seq<(string, Reduction)>)
    ensures forall v :: v in SymbolValues(|symbols|) <==> v in SymbolTable(symbols).1
    ensures forall i, j :: 0 <= i < j < |symbols| ==> SymbolValues(|symbols|)[i] < SymbolValues(|symbols|)[j]
  {
    var n := |symbols|;
    var vs := SymbolValues(n);
    forall v | -n <= v < 0 ensures v in vs {
      assert vs[v + n] == v;
    }
  }

  // ---------------------------------------------------------------- cell placement

  /** `indices[indices == _op_loc] = size-1`, applied to the array in place. */
  method RemapOpLoc(indices: array<int>, opLoc: int, size: int)
    modifies indices
    ensures forall i :: 0 <= i < indices.Length ==>
      indices[i] == (if old(indices[i]) == opLoc then size - 1 else old(indices[i]))
  {
    for i := 0 to indices.Length
      invariant forall j :: 0 <= j < i ==> indices[j] == (if old(indices[j]) == opLoc then size - 1 else old(indices[j]))
      invariant forall j :: i <= j < indices.Length ==> indices[j] == old(indices[j])
    {
      if indices[i] == opLoc {
        indices[i] := size - 1;
      }
    }
  }

  function Remapped(draw: seq<int>, opLoc: int, size: int): (r: seq<int>)
    ensures |r| == |draw|
  {
    seq(|draw|, i requires 0 <= i < |draw| => if draw[i] == opLoc then size - 1 else draw[i])
  }

  /** The cells of one example when `op_loc` is given: `_op_loc` first, then the `n` drawn
      cells with `_op_loc` moved to the last cell. */
  method PlaceCells(draw: seq<int>, opLoc: int, size: int) returns (cells: seq<int>)
    ensures cells == [opLoc] + Remapped(draw, opLoc, size)
  {
    var indices := new int[|draw|](i requires 0 <= i < |draw| => draw[i]);
    RemapOpLoc(indices, opLoc, size);
    cells := [opLoc] + indices[..];
  }

  /** `np.random.choice(size-1, n, replace=False)` followed by the remapping yields `n+1`
      distinct cells below `size`, with `_op_loc` first. */
  lemma PlacedCellsDistinct(draw: seq<int>, opLoc: int, size: int)
    requires 0 <= opLoc < size
    requires Distinct(draw) && forall i :: 0 <= i < |draw| ==> 0 <= draw[i] < size - 1
    ensures var cells := [opLoc] + Remapped(draw, opLoc, size);
      |cells| == |draw| + 1 && cells[0] == opLoc && Distinct(cells)
      && forall i :: 0 <= i < |cells| ==> 0 <= cells[i] < size
  {
    var r := Remapped(draw, opLoc, size);
    var cells := [opLoc] + r;
    forall i, j | 0 <= i < j < |cells| ensures cells[i] != cells[j] {
      if i == 0 {
        assert cells[j] == r[j - 1];
      } else {
        assert cells[i] == r[i - 1] && cells[j] == r[j - 1];
        assert draw[i - 1] != draw[j - 1];
      }
    }
  }

  /** The random choices behind one example: the digit count (used only when
      `upper_bound`), the drawn cells, the operator symbol and the digits. */
  datatype Draw = Draw(n: nat, cells: seq<int>, symbol: int, digits: seq<int>)

  datatype Example = Example(grid: seq<int>, target: int)

  /** What the random generators promise for one example. */
  predicate ValidDraw(d: Draw, size: nat, nDigits: nat, upperBound: bool, base: int,
                      opLoc: Option<int>, table: map<int, Reduction>)
  {
    var n := if upperBound then d.n else nDigits;
    (upperBound ==> 1 <= d.n <= nDigits)
    && Distinct(d.cells)
    && (opLoc.None? ==> |d.cells| == n + 1 && forall i :: 0 <= i < |d.cells| ==> 0 <= d.cells[i] < size)
    && (opLoc.Some? ==> |d.cells| == n && forall i :: 0 <= i < |d.cells| ==> 0 <= d.cells[i] < size - 1)
    && d.symbol in table
    && |d.digits| == n
    && forall i :: 0 <= i < n ==> 0 <= d.digits[i] < base
  }

  function CellsOf(d: Draw, opLoc: Option<int>, size: nat): seq<int>
  {
    if opLoc.None? then d.cells else [opLoc.value] + Remapped(d.cells, opLoc.value, size)
  }

  /** `e` is the example `make_dataset` builds from the draw `d`: blank (0) everywhere but
      at the cells, the symbol at the first cell and the digits, in order, at the others;
      the target is the symbol's reduction of the digits. */
  predicate ExampleOf(e: Example, d: Draw, size: nat, opLoc: Option<int>, table: map<int, Reduction>)
  {
    var cells := CellsOf(d, opLoc, size);
    Filled(e.grid, size, 0, cells, Some(d.symbol), d.digits)
    && (opLoc.Some? ==> cells[0] == opLoc.value)
    && d.symbol in table && e.target == Apply(table[d.symbol], d.digits)
  }

  /** One example of `make_dataset`. */
  method MakeExample(d: Draw, size: nat, nDigits: nat, upperBound: bool, base: int,
                     opLoc: Option<int>, table: map<int, Reduction>) returns (e: Example)
    requires opLoc.Some? ==> 0 <= opLoc.value < size
    requires ValidDraw(d, size, nDigits, upperBound, base, opLoc, table)
    ensures ExampleOf(e, d, size, opLoc, table)
  {
    var cells := d.cells;
    if opLoc.Some? {
      PlacedCellsDistinct(d.cells, opLoc.value, size);
      cells := PlaceCells(d.cells, opLoc.value, size);
    }
    var grid := FillGrid(size, 0, cells, Some(d.symbol), d.digits);
    e := Example(grid[..], Apply(table[d.symbol], d.digits));
  }

  /** `make_dataset`: one example per draw; none at all when `n_examples == 0`. */
  method MakeDataset(draws: seq<Draw>, size: nat, nDigits: nat, upperBound: bool, base: int,
                     opLoc: Option<int>, table: map<int, Reduction>) returns (examples: seq<Example>)
    requires opLoc.Some? ==> 0 <= opLoc.value < size
    requires forall j :: 0 <= j < |draws| ==> ValidDraw(draws[j], size, nDigits, upperBound, base, opLoc, table)
    ensures |examples| == |draws|
    ensures forall j :: 0 <= j < |draws| ==> ExampleOf(examples[j], draws[j], size, opLoc, table)
  {
    examples := [];
    for j := 0 to |draws|
      invariant |examples| == j
      invariant forall i :: 0 <= i < j ==> ExampleOf(examples[i], draws[i], size, opLoc, table)
    {
      var e := MakeExample(draws[j], size, nDigits, upperBound, base, opLoc, table);
      ExamplesSnoc(examples, draws, e, size, opLoc, table);
      examples := examples + [e];
    }
  }

  lemma ExamplesSnoc(examples: seq<Example>, draws: seq<Draw>, e: Example, size: nat, opLoc: Option<int>, table: map<int, Reduction>)
    requires |examples| < |draws|
    requires forall i :: 0 <= i < |examples| ==> ExampleOf(examples[i], draws[i], size, opLoc, table)
    requires ExampleOf(e, draws[|examples|], size, opLoc, table)
    ensures forall i :: 0 <= i <= |examples| ==> ExampleOf((examples + [e])[i], draws[i], size, opLoc, table)
  {
    forall i | 0 <= i <= |examples|
      ensures ExampleOf((examples + [e])[i], draws[i], size, opLoc, table)
    {
      if i < |examples| {
        assert (examples + [e])[i] == examples[i];
      } else {
        assert (examples + [e])[i] == e;
      }
    }
  }

  // ---------------------------------------------------------------- register update

  datatype Registers = Registers(
    op: real, acc: real, foveaX: real, foveaY: real, vision: real, opVision: real, t: real)

  const IncFoveaX := 0
  const DecFoveaX := 1
  const IncFoveaY := 2
  const DecFoveaY := 3
  const StoreOp := 4
  const AddAction := 5
  const Inc := 6
  const Multiply := 7
  const Store := 8
  const NoOp := 9
  const NumActions := 10

  /** The update of `acc`, `op` and the fovea in `SimpleArithmetic.__call__`, as blends:
      the fovea moves by the net activation of its two moves, `op` keeps its value
      when `store_op` is off and takes `op_vision` when it is fully on, and `acc`
      moves by each accumulator action's own change weighted by its activation. */
  function Step(r: Registers, a: seq<real>): (s: Registers)
    requires |a| == NumActions
    ensures s.t == r.t + 1.0 && s.vision == r.vision && s.opVision == r.opVision
    ensures s.foveaX == r.foveaX + a[IncFoveaX] - a[DecFoveaX]
    ensures s.foveaY == r.foveaY + a[IncFoveaY] - a[DecFoveaY]
    ensures a[StoreOp] == 0.0 ==> s.op == r.op
    ensures a[StoreOp] == 1.0 ==> s.op == r.opVision
    ensures s.acc == r.acc + a[AddAction] * r.vision + a[Inc]
      + a[Multiply] * (r.vision * r.acc - r.acc) + a[Store] * (r.vision - r.acc)
    ensures a[AddAction] == 0.0 && a[Inc] == 0.0 && a[Multiply] == 0.0 && a[Store] == 0.0 ==> s.acc == r.acc
  {
    r.(
      acc := (1.0 - a[AddAction] - a[Inc] - a[Multiply] - a[Store]) * r.acc
        + a[AddAction] * (r.vision + r.acc)
        + a[Multiply] * (r.vision * r.acc)
        + a[Inc] * (r.acc + 1.0)
        + a[Store] * r.vision,
      op := (1.0 - a[StoreOp]) * r.op + a[StoreOp] * r.opVision,
      foveaX := (1.0 - a[IncFoveaX] - a[DecFoveaX]) * r.foveaX + a[IncFoveaX] * (r.foveaX + 1.0) + a[DecFoveaX] * (r.foveaX - 1.0),
      foveaY := (1.0 - a[IncFoveaY] - a[DecFoveaY]) * r.foveaY + a[IncFoveaY] * (r.foveaY + 1.0) + a[DecFoveaY] * (r.foveaY - 1.0),
      t := r.t + 1.0)
  }

  /** What each action does on its own. */
  function Select(r: Registers, k: nat): Registers
  {
    var r := r.(t := r.t + 1.0);
    if k == IncFoveaX then r.(foveaX := r.foveaX + 1.0)
    else if k == DecFoveaX then r.(foveaX := r.foveaX - 1.0)
    else if k == IncFoveaY then r.(foveaY := r.foveaY + 1.0)
    else if k == DecFoveaY then r.(foveaY := r.foveaY - 1.0)
    else if k == StoreOp then r.(op := r.opVision)
    else if k == AddAction then r.(acc := r.vision + r.acc)
    else if k == Inc then r.(acc := r.acc + 1.0)
    else if k == Multiply then r.(acc := r.vision * r.acc)
    else if k == Store then r.(acc := r.vision)
    else r
  }

  /** Under a one-hot action the blended update is the selected action: `acc` unchanged,
      `vision + acc`, `vision * acc`, `acc + 1` or `vision`, and `op` changes only on `store_op`. */
  lemma StepOneHot(r: Registers, k: nat)
    requires k < NumActions
    ensures Step(r, OneHot(NumActions, k)) == Select(r, k)
  {
    if k == IncFoveaX {
    } else if k == DecFoveaX {
    } else if k == IncFoveaY {
    } else if k == DecFoveaY {
    } else if k == StoreOp {
    } else if k == AddAction {
    } else if k == Inc {
    } else if k == Multiply {
    } else if k == Store {
    } else {
    }
  }

  /** The registers after taking action `k` once per value in `visions`, each value being
      what the fovea sees at that step. Time counts the steps; the last value seen
      stays in `vision`; `op` changes only under `store_op` and the fovea only
      under its moves, by one cell per step. */
  function Run(r: Registers, visions: seq<real>, k: nat): (s: Registers)
    ensures s.t == r.t + |visions| as real
    ensures visions != [] ==> s.vision == visions[|visions| - 1]
    ensures k != StoreOp ==> s.op == r.op && s.opVision == r.opVision
    ensures s.foveaX == r.foveaX + (if k == IncFoveaX then |visions| as real else if k == DecFoveaX then -(|visions| as real) else 0.0)
    ensures s.foveaY == r.foveaY + (if k == IncFoveaY then |visions| as real else if k == DecFoveaY then -(|visions| as real) else 0.0)
  {
    if visions == [] then r else Select(Run(r, visions[..|visions| - 1], k).(vision := visions[|visions| - 1]), k)
  }

  function RealTotal(vs: seq<real>): real
  {
    if vs == [] then 0.0 else RealTotal(vs[..|vs| - 1]) + vs[|vs| - 1]
  }

  function RealProd(vs: seq<real>): real
  {
    if vs == [] then 1.0 else RealProd(vs[..|vs| - 1]) * vs[|vs| - 1]
  }

  /** Repeated `add` accumulates the sum of what was seen: the 'A' reduction. */
  lemma {:induction false} RunAdd(r: Registers, vs: seq<real>)
    ensures Run(r, vs, AddAction).acc == r.acc + RealTotal(vs)
  {
    if vs != [] {
      RunAdd(r, vs[..|vs| - 1]);
    }
  }

  /** Repeated `multiply` accumulates the product of what was seen: the 'M' reduction. */
  lemma {:induction false} RunMultiply(r: Registers, vs: seq<real>)
    ensures Run(r, vs, Multiply).acc == r.acc * RealProd(vs)
  {
    if vs != [] {
      var vs' := vs[..|vs| - 1];
      RunMultiply(r, vs');
      calc {
        Run(r, vs, Multiply).acc;
        vs[|vs| - 1] * Run(r, vs', Multiply).acc;
        vs[|vs| - 1] * (r.acc * RealProd(vs'));
        r.acc * (RealProd(vs') * vs[|vs| - 1]);
      }
    }
  }

  /** Repeated `inc` counts the steps: the 'C' reduction. */
  lemma {:induction false} RunInc(r: Registers, vs: seq<real>)
    ensures Run(r, vs, Inc).acc == r.acc + |vs| as real
  {
    if vs != [] {
      RunInc(r, vs[..|vs| - 1]);
    }
  }

  /** The accumulator's totals agree with the dataset's reductions of the digits. */
  lemma {:induction false} RealTotalIsTotal(ys: seq<int>)
    ensures RealTotal(seq(|ys|, i requires 0 <= i < |ys| => ys[i] as real)) == Total(ys) as real
    ensures RealProd(seq(|ys|, i requires 0 <= i < |ys| => ys[i] as real)) == Prod(ys) as real
  {
    if ys != [] {
      var ys' := ys[..|ys| - 1];
      RealTotalIsTotal(ys');
      var vs := seq(|ys|, i requires 0 <= i < |ys| => ys[i] as real);
      assert vs[..|vs| - 1] == seq(|ys'|, i requires 0 <= i < |ys'| => ys'[i] as real);
    }
  }

  // ---------------------------------------------------------------- what the fovea sees

  /** `tf.argmax` along a row: the first index holding the maximum. */
  function ArgMax(v: seq<real>): (k: nat)
    requires |v| > 0
    ensures k < |v|
    ensures forall i :: 0 <= i < |v| ==> v[i] <= v[k]
    ensures forall i :: 0 <= i < k ==> v[i] < v[k]
  {
    if |v| == 1 then 0
    else
      var k := ArgMax(v[..|v| - 1]);
      if v[|v| - 1] > v[k] then |v| - 1 else k
  }

  /** The grid cell under the fovea (`gather_nd` at `(fovea_y, fovea_x)` of a flattened
      grid of the given width, the coordinates cast to integers). */
  function Glimpse(grid: seq<int>, width: nat, x: nat, y: nat): (g: seq<real>)
    requires x < width && y * width + x < |grid|
    ensures |g| == 1 && g[0] == grid[y * width + x] as real
  {
    [grid[y * width + x] as real]
  }

  /** `vision` and `op_vision` as written for the non-MNIST grid: both "classifiers"
      are the identity, so the argmax runs over a row of length one and is always 0. */
  function VisionAsWritten(glimpse: seq<real>): (v: real)
    requires |glimpse| == 1
    ensures v == 0.0
  {
    ArgMax(glimpse) as real
  }

  /** Whatever the cell holds, `vision` as written reads 0: the digit 3 under the fovea
      is seen as 0. */
  lemma VisionAsWrittenBlind()
    ensures VisionAsWritten(Glimpse([3], 1, 0, 0)) == 0.0
    ensures Glimpse([3], 1, 0, 0)[0] == 3.0
  {
  }

  /** `vision` and `op_vision` as evidently intended: the value in the cell under
      the fovea, read from its glimpse. */
  function Vision(grid: seq<int>, width: nat, x: nat, y: nat): (v: real)
    requires x < width && y * width + x < |grid|
    ensures v == grid[y * width + x] as real
  {
    Glimpse(grid, width, x, y)[0]
  }

  /** With the intended `vision`, fixating the cell where an example holds its j-th digit
      and taking `store` puts that digit in `acc`. */
  lemma StoreSeesDigit(e: Example, d: Draw, size: nat, opLoc: Option<int>, table: map<int, Reduction>,
                       width: nat, x: nat, y: nat, j: nat, r: Registers)
    requires ExampleOf(e, d, size, opLoc, table)
    requires j < |d.digits| && x < width
    requires y * width + x == CellsOf(d, opLoc, size)[j + 1]
    ensures Select(r.(vision := Vision(e.grid, width, x, y)), Store).acc == d.digits[j] as real
  {
  }

  /** With the intended `op_vision`, fixating the example's operator cell and taking
      `store_op` puts the operator's code in `op`, a key of the symbol table. */
  lemma StoreOpSeesSymbol(e: Example, d: Draw, size: nat, opLoc: Option<int>, table: map<int, Reduction>,
                          width: nat, x: nat, y: nat, r: Registers)
    requires ExampleOf(e, d, size, opLoc, table)
    requires x < width && y * width + x == CellsOf(d, opLoc, size)[0]
    ensures var op := Select(r.(opVision := Vision(e.grid, width, x, y)), StoreOp).op;
      op == d.symbol as real && d.symbol in table
  {
  }
}
