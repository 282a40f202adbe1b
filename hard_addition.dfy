/** The hard-addition experiment (`dps/experiments/hard_addition.py`): the
    dataset's target digits and the register update of the addition core
    network under one-hot actions. Registers are reals, as the source's
    float32 tensors, without rounding error. */
module HardAddition {
  import opened Wrappers
  import opened Digits
  import opened Arith
  import opened Activations

  // ---------------------------------------------------------------- dataset

  /** Row `r` of one example, `height` rows of `width` cells laid out row after row. */
  function Row(x: seq<int>, width: nat, r: nat): seq<int>
    requires (r + 1) * width <= |x|
  {
    x[r * width..(r + 1) * width]
  }

  /** The sum of the first `rows` row numbers, each read little-endian in base 10. */
  function RowSum(x: seq<int>, width: nat, rows: nat): int
    requires rows * width <= |x|
  {
    if rows == 0 then 0 else RowSum(x, width, rows - 1) + DigitsToNumber(Row(x, width, rows - 1), 10)
  }

  /** Index of the last cell of row `r`. */
  function RowEnd(width: nat, r: nat): int
  {
    (r + 1) * width - 1
  }

  /** The last cell of every row is 0. */
  predicate RowEndsZero(x: seq<int>, width: nat, height: nat)
    requires width > 0 && |x| == width * height
  {
    forall r :: 0 <= r < height ==> 0 <= RowEnd(width, r) < |x| && x[RowEnd(width, r)] == 0
  }

  lemma MultipleMod(a: nat, w: nat)
    requires w > 0
    ensures (a * w) % w == 0
  {
    DivModUnique(a * w, w, a, 0);
  }

  lemma RowEndInRange(width: nat, height: nat, r: nat)
    requires width > 0 && r < height
    ensures 0 <= RowEnd(width, r) < width * height
    ensures (RowEnd(width, r) + 1) % width == 0
  {
    MulMonotone(r + 1, height, width);
    MultipleMod(r + 1, width);
  }

  /** The first loop of `HardAdditionDataset.__init__`: `x[:, (h+1)*width - 1] = 0` for every row. */
  method ZeroRowEnds(x: array<int>, width: nat, height: nat)
    requires width > 0 && x.Length == width * height
    modifies x
    ensures RowEndsZero(x[..], width, height)
    ensures forall i :: 0 <= i < x.Length && (i + 1) % width != 0 ==> x[i] == old(x[i])
  {
    for h := 0 to height
      invariant forall r :: 0 <= r < h ==> 0 <= RowEnd(width, r) < x.Length && x[RowEnd(width, r)] == 0
      invariant forall i :: 0 <= i < x.Length && (i + 1) % width != 0 ==> x[i] == old(x[i])
    {
      RowEndInRange(width, height, h);
      x[RowEnd(width, h)] := 0;
    }
  }

  lemma RowSumStep(x: seq<int>, width: nat, k: nat)
    requires (k + 1) * width <= |x|
    ensures k * width + width == (k + 1) * width
    ensures RowSum(x, width, k + 1) == RowSum(x, width, k) + DigitsToNumber(x[k * width..k * width + width], 10)
  {
    assert (k + 1) * width == k * width + width;
  }

  lemma NextRow(xs: seq<int>, width: nat, height: nat, i: nat)
    requires |xs| == width * height && i < height
    ensures (i + 1) * width <= |xs|
    ensures RowSum(xs, width, i + 1) == RowSum(xs, width, i) + DigitsToNumber(Row(xs, width, i), 10)
  {
    MulMonotone(i + 1, height, width);
  }

  /** The second loop: the row numbers added up, the first row first. */
  method SumRows(x: array<int>, width: nat, height: nat) returns (sum: int)
    requires x.Length == width * height
    ensures sum == RowSum(x[..], width, height)
  {
    var xs := x[..];
    sum := 0;
    if height > 0 {
      MulMonotone(1, height, width);
      RowSumStep(xs, width, 0);
      sum := DigitsToNumber(xs[..width], 10);
      sum := AddRows(xs, width, height, sum);
    }
  }

  /** `for i in range(height-1)`: the rows after the first, added to `sum`. */
  method AddRows(xs: seq<int>, width: nat, height: nat, first: int) returns (sum: int)
    requires |xs| == width * height && height > 0 && width <= |xs|
    requires first == RowSum(xs, width, 1)
    ensures sum == RowSum(xs, width, height)
  {
    sum := first;
    for i := 1 to height
      invariant sum == RowSum(xs, width, i)
    {
      NextRow(xs, width, height, i);
      sum := sum + DigitsToNumber(Row(xs, width, i), 10);
    }
  }

  /** One example of `HardAdditionDataset`: the last cell of each row is forced to 0, the
      row numbers are added, and the sum is written back as `width` digits. With zero
      columns, `x[:, -1]` raises, and with no rows either `numbers_to_digits` stacks
      no digits and raises; more than two rows raise after the computation. */
  method MakeTarget(x: array<int>, width: nat, height: nat) returns (y: Result<seq<int>>)
    requires x.Length == width * height
    modifies x
    ensures width == 0 && height > 0 ==> y == Err("IndexError") && unchanged(x)
    ensures width > 0 ==> RowEndsZero(x[..], width, height)
    ensures width > 0 ==> forall i :: 0 <= i < x.Length && (i + 1) % width != 0 ==> x[i] == old(x[i])
    ensures width == 0 && height == 0 ==> y == Err("ValueError")
    ensures width > 0 ==>
      y == (if height > 2 then Err("NotImplementedError") else Ok(ToDigits(RowSum(x[..], width, height), width, 10)))
  {
    if width == 0 && height > 0 {
      return Err("IndexError");
    }
    if width > 0 {
      ZeroRowEnds(x, width, height);
    }
    var sum := SumRows(x, width, height);
    var digits := NumbersToDigits(sum, width, 10);
    if digits.Err? {
      return digits;
    }
    if height > 2 {
      return Err("NotImplementedError");
    }
    return digits;
  }

  /** A row whose last digit is 0 reads as a number below `10^(width-1)`. */
  lemma RowBelowTopDigit(row: seq<int>)
    requires |row| > 0 && ValidDigits(row, 10) && row[|row| - 1] == 0
    ensures 0 <= DigitsToNumber(row, 10) < Pow(10, |row| - 1)
  {
    assert ValidDigits(row[..|row| - 1], 10);
    DigitsToNumberBounds(row[..|row| - 1], 10);
  }

  lemma RowBound(x: seq<int>, width: nat, height: nat, r: nat)
    requires width > 0 && |x| == width * height && r < height
    requires ValidDigits(x, 10) && RowEndsZero(x, width, height)
    ensures (r + 1) * width <= |x|
    ensures 0 <= DigitsToNumber(Row(x, width, r), 10) < Pow(10, width - 1)
  {
    MulMonotone(r + 1, height, width);
    var row := Row(x, width, r);
    assert row[|row| - 1] == x[RowEnd(width, r)];
    assert ValidDigits(row, 10) by {
      forall j | 0 <= j < |row| ensures 0 <= row[j] < 10 { assert row[j] == x[r * width + j]; }
    }
    RowBelowTopDigit(row);
  }

  /** With digits below 10, every row ending in 0 and at most two rows, the target digits
      are the exact sum of the row numbers: nothing is lost to the `width`-digit limit. */
  lemma TargetIsExactSum(x: seq<int>, width: nat, height: nat)
    requires width > 0 && |x| == width * height && height <= 2
    requires ValidDigits(x, 10) && RowEndsZero(x, width, height)
    ensures DigitsToNumber(ToDigits(RowSum(x, width, height), width, 10), 10) == RowSum(x, width, height)
  {
    var p := Pow(10, width - 1);
    assert Pow(10, width) == 10 * p;
    PowPositive(10, width - 1);
    var sum := RowSum(x, width, height);
    if height >= 1 {
      RowBound(x, width, height, 0);
      assert RowSum(x, width, 1) == DigitsToNumber(Row(x, width, 0), 10);
    }
    if height == 2 {
      RowBound(x, width, height, 1);
      assert sum == RowSum(x, width, 1) + DigitsToNumber(Row(x, width, 1), 10);
    }
    assert 0 <= sum < 2 * p;
    NumberRoundTrip(sum, width, 10);
    DivModUnique(sum, Pow(10, width), 0, sum);
  }

  // ---------------------------------------------------------------- register update

  datatype Registers = Registers(
    foveaX: real, foveaY: real, vision: real, wm1: real, wm2: real,
    carry: real, digit: real, t: real)

  /** The source's action order. */
  const IncFoveaX := 0
  const DecFoveaX := 1
  const IncFoveaY := 2
  const DecFoveaY := 3
  const VisionToWm1 := 4
  const VisionToWm2 := 5
  const Add := 6
  const WriteDigit := 7
  const NoOp := 8
  const NumActions := 9

  /** `tf.round`: to the nearest integer, ties to the even one. */
  function RoundHalfEven(x: real): (r: int)
    ensures -0.5 <= r as real - x <= 0.5
    ensures (r as real - x == 0.5 || x - r as real == 0.5) ==> r % 2 == 0
  {
    var f := x.Floor;
    var frac := x - f as real;
    if frac < 0.5 then f
    else if frac > 0.5 then f + 1
    else if f % 2 == 0 then f
    else f + 1
  }

  /** The register update of `HardAddition.__call__` for an action activation vector `a`,
      as the source writes it: every register is a blend weighted by the activations.
      `vision` is what the fovea sees next (the Gaussian read is outside this model).
      The fovea moves by the net activation of its two moves; a register whose
      action is off keeps its value, and one whose action is fully on takes the
      action's value: `add` splits the rounded sum into a carry and a digit. */
  function Step(r: Registers, a: seq<real>, vision: real): (s: Registers)
    requires |a| == NumActions
    ensures s.t == r.t + 1.0 && s.vision == vision
    ensures s.foveaX == r.foveaX + a[IncFoveaX] - a[DecFoveaX]
    ensures s.foveaY == r.foveaY + a[IncFoveaY] - a[DecFoveaY]
    ensures a[VisionToWm1] == 0.0 ==> s.wm1 == r.wm1
    ensures a[VisionToWm1] == 1.0 ==> s.wm1 == r.vision
    ensures a[VisionToWm2] == 0.0 ==> s.wm2 == r.wm2
    ensures a[VisionToWm2] == 1.0 ==> s.wm2 == r.vision
    ensures a[Add] == 0.0 ==> s.carry == r.carry && s.digit == r.digit
    ensures a[Add] == 1.0 ==>
      && 10.0 * s.carry + s.digit == RoundHalfEven(r.wm1 + r.wm2 + r.carry) as real
      && 0.0 <= s.digit < 10.0
  {
    var sum := RoundHalfEven(r.wm1 + r.wm2 + r.carry);
    assert sum == 10 * (sum / 10) + sum % 10;
    Registers(
      foveaX := (1.0 - a[IncFoveaX] - a[DecFoveaX]) * r.foveaX + a[IncFoveaX] * (r.foveaX + 1.0) + a[DecFoveaX] * (r.foveaX - 1.0),
      foveaY := (1.0 - a[IncFoveaY] - a[DecFoveaY]) * r.foveaY + a[IncFoveaY] * (r.foveaY + 1.0) + a[DecFoveaY] * (r.foveaY - 1.0),
      vision := vision,
      wm1 := (1.0 - a[VisionToWm1]) * r.wm1 + a[VisionToWm1] * r.vision,
      wm2 := (1.0 - a[VisionToWm2]) * r.wm2 + a[VisionToWm2] * r.vision,
      carry := (1.0 - a[Add]) * r.carry + a[Add] * ((sum / 10) as real),
      digit := (1.0 - a[Add]) * r.digit + a[Add] * ((sum % 10) as real),
      t := r.t + 1.0)
  }

  /** What each action does on its own: the reference the blended update is compared with. */
  function Select(r: Registers, k: nat, vision: real): Registers
  {
    var sum := RoundHalfEven(r.wm1 + r.wm2 + r.carry);
    var r' := r.(vision := vision, t := r.t + 1.0);
    if k == IncFoveaX then r'.(foveaX := r.foveaX + 1.0)
    else if k == DecFoveaX then r'.(foveaX := r.foveaX - 1.0)
    else if k == IncFoveaY then r'.(foveaY := r.foveaY + 1.0)
    else if k == DecFoveaY then r'.(foveaY := r.foveaY - 1.0)
    else if k == VisionToWm1 then r'.(wm1 := r.vision)
    else if k == VisionToWm2 then r'.(wm2 := r.vision)
    else if k == Add then r'.(carry := (sum / 10) as real, digit := (sum % 10) as real)
    else r'
  }

  /** Under a one-hot action, the blended update is exactly the selected action. */
  lemma StepOneHot(r: Registers, k: nat, vision: real)
    requires k < NumActions
    ensures Step(r, OneHot(NumActions, k), vision) == Select(r, k, vision)
  {
    var a := OneHot(NumActions, k);
    if k == IncFoveaX {
    } else if k == DecFoveaX {
    } else if k == IncFoveaY {
    } else if k == DecFoveaY {
    } else if k == VisionToWm1 {
    } else if k == VisionToWm2 {
    } else if k == Add {
    } else {
    }
  }

  /** `add` splits the rounded sum of the working memories and the carry into a new carry
      and a new digit in [0, 10); any other action leaves carry and digit as they were. */
  lemma AddSplitsSum(r: Registers, k: nat, vision: real)
    requires k < NumActions
    ensures var r' := Select(r, k, vision);
      if k == Add then
        10.0 * r'.carry + r'.digit == RoundHalfEven(r.wm1 + r.wm2 + r.carry) as real
        && 0.0 <= r'.digit < 10.0
      else r'.carry == r.carry && r'.digit == r.digit
  {
    var sum := RoundHalfEven(r.wm1 + r.wm2 + r.carry);
    assert sum == 10 * (sum / 10) + sum % 10;
  }
}
