/** Size arithmetic of convolutions in dps/utils/pytorch.py: the static
    `conv_output_shape` of `ConvNet` and `ConvNet3D`, `conv_transpose_input_shape`
    and `get_target_shape` of `ConvTransposeNet`, and the padding helpers
    `pad_to_preserve_shape` and `min_pad` of `UNET`.  Sizes are Python ints
    (unbounded); `//` is Python's floor division. */
module ConvShapes {
  import opened Wrappers
  import opened Arith

  /** A size, kernel or stride argument: a Python int or a tuple of ints. */
  datatype Arg = Scalar(n: int) | Tuple(items: seq<int>)

  /** `if type(x) is not tuple: x = (x, x, ...)` with `width` copies. */
  function Broadcast(a: Arg, width: nat): seq<int>
  {
    match a
    case Scalar(n) => seq(width, _ => n)
    case Tuple(t) => t
  }

  /** Python's `a // b` for a divisor of either sign: the floor of the quotient. */
  function FloorDiv(a: int, b: int): (q: int)
    requires b != 0
    ensures b > 0 ==> q * b <= a < q * b + b
    ensures b < 0 ==> q * b >= a > q * b + b
  {
    if b > 0 then a / b else (-a) / (-b)
  }

  /** `ceil(a / b)` on the true quotient, for a divisor of either sign. */
  function CeilQuot(a: int, b: int): (q: int)
    requires b != 0
    ensures b > 0 ==> q * b - b < a <= q * b
  {
    -FloorDiv(-a, b)
  }

  /** `(h - (k - 1) - 1) // s + 1` along one axis. For a positive stride the
      result is the number of windows of width `k`, `s` apart, that fit in `h`:
      the last one fits and one more would not. */
  function ConvOut(h: int, k: int, s: int): (r: Result<int>)
    ensures s == 0 <==> r == Err("ZeroDivisionError")
    ensures s > 0 ==> r.Ok? && (r.value - 1) * s + k <= h < r.value * s + k
  {
    if s == 0 then Err("ZeroDivisionError") else Ok(FloorDiv(h - (k - 1) - 1, s) + 1)
  }

  /** Output sizes of axes `i..` of `hw`, each with the `i`th kernel and stride
      entry; a missing entry is Python's IndexError, the first failing axis wins. */
  function Axes(hw: seq<int>, k: seq<int>, s: seq<int>, i: nat): Result<seq<int>>
    requires i <= |hw|
    decreases |hw| - i
  {
    if i == |hw| then Ok([])
    else if i >= |k| || i >= |s| then Err("IndexError")
    else match ConvOut(hw[i], k[i], s[i])
      case Err(e) => Err(e)
      case Ok(o) =>
        match Axes(hw, k, s, i + 1)
        case Err(e) => Err(e)
        case Ok(rest) => Ok([o] + rest)
  }

  /** Every axis from `i` on has a kernel, a stride, and a positive stride. */
  predicate AxesDefined(hw: seq<int>, k: seq<int>, s: seq<int>, i: nat)
  {
    i <= |hw| <= |k| && |hw| <= |s| && forall j :: i <= j < |hw| ==> s[j] > 0
  }

  /** With every axis defined and strides positive, the output holds, axis by
      axis, the number of windows that fit. */
  lemma {:induction false} AxesWindows(hw: seq<int>, k: seq<int>, s: seq<int>, i: nat)
    requires AxesDefined(hw, k, s, i)
    ensures Axes(hw, k, s, i).Ok?
    ensures var o := Axes(hw, k, s, i).value;
      |o| == |hw| - i &&
      forall j :: i <= j < |hw| ==> (o[j - i] - 1) * s[j] + k[j] <= hw[j] < o[j - i] * s[j] + k[j]
    decreases |hw| - i
  {
    if i < |hw| {
      AxesWindows(hw, k, s, i + 1);
    }
  }

  /** A successful result has one size per axis, each the window count of its
      own axis, kernel entry and stride entry. */
  lemma {:induction false} AxesOk(hw: seq<int>, k: seq<int>, s: seq<int>, i: nat)
    requires i <= |hw|
    ensures var r := Axes(hw, k, s, i);
      r.Ok? ==>
        && |r.value| == |hw| - i
        && (i < |hw| ==> |hw| <= |k| && |hw| <= |s|)
        && forall j :: i <= j < |hw| ==> ConvOut(hw[j], k[j], s[j]) == Ok(r.value[j - i])
    decreases |hw| - i
  {
    var r := Axes(hw, k, s, i);
    if i < |hw| && r.Ok? {
      AxesOk(hw, k, s, i + 1);
      var rest := Axes(hw, k, s, i + 1);
      assert rest.Ok? && r.value == [ConvOut(hw[i], k[i], s[i]).value] + rest.value;
      assert i < |k| && i < |s| && ConvOut(hw[i], k[i], s[i]) == Ok(r.value[0]);
      forall j | i < j < |hw|
        ensures ConvOut(hw[j], k[j], s[j]) == Ok(r.value[j - i])
      {
        assert r.value[j - i] == rest.value[j - (i + 1)];
      }
    }
  }

  /** An axis whose kernel or stride entry is missing makes the whole shape an
      error (IndexError, or ZeroDivisionError from an earlier zero stride). */
  lemma {:induction false} AxesMissing(hw: seq<int>, k: seq<int>, s: seq<int>, i: nat, j: nat)
    requires i <= j < |hw| && (j >= |k| || j >= |s|)
    ensures Axes(hw, k, s, i).Err?
    decreases j - i
  {
    if i < j && i < |k| && i < |s| {
      AxesMissing(hw, k, s, i + 1, j);
    }
  }

  /** The size argument as an `nd`-tuple: a scalar is repeated; a tuple of any
      other length is kept and duplicated, and the arithmetic on it fails. */
  function Dims(hw: Arg, nd: nat): Result<seq<int>>
  {
    match hw
    case Scalar(n) => Ok(seq(nd, _ => n))
    case Tuple(t) => if |t| == nd then Ok(t) else Err("TypeError")
  }

  /** `conv_output_shape` over `nd` axes, where a scalar kernel or stride is
      repeated `width` times. A size tuple of the wrong length cannot take
      part in the arithmetic; a success holds, for each axis, its window count;
      and every valid argument with enough kernel and stride entries succeeds. */
  function ConvOutputShape(hw: Arg, kernel: Arg, stride: Arg, nd: nat, width: nat): (r: Result<seq<int>>)
    ensures !ValidSize(hw, nd) ==> r == Err("TypeError")
    ensures r.Ok? ==>
      var d, k, s := Dims(hw, nd).value, Broadcast(kernel, width), Broadcast(stride, width);
      && |r.value| == nd
      && (nd > 0 ==> nd <= |k| && nd <= |s|)
      && forall j :: 0 <= j < nd ==> ConvOut(d[j], k[j], s[j]) == Ok(r.value[j])
    ensures ValidSize(hw, nd) && nd <= width && ValidWindow(kernel, nd) && ValidWindow(stride, nd) ==> r.Ok?
  {
    match Dims(hw, nd)
    case Err(e) => Err(e)
    case Ok(d) =>
      var k, s := Broadcast(kernel, width), Broadcast(stride, width);
      AxesOk(d, k, s, 0);
      if AxesDefined(d, k, s, 0) then AxesWindows(d, k, s, 0); Axes(d, k, s, 0)
      else Axes(d, k, s, 0)
  }

  /** `ConvNet.conv_output_shape`: a pair of window counts, and one for every
      valid size, kernel and stride. */
  function ConvNetOutputShape(hw: Arg, kernel: Arg, stride: Arg): (r: Result<seq<int>>)
    ensures !ValidSize(hw, 2) ==> r == Err("TypeError")
    ensures r.Ok? ==>
      var d, k, s := Dims(hw, 2).value, Broadcast(kernel, 2), Broadcast(stride, 2);
      && |r.value| == 2 && 2 <= |k| && 2 <= |s|
      && forall j :: 0 <= j < 2 ==> ConvOut(d[j], k[j], s[j]) == Ok(r.value[j])
    ensures ValidSize(hw, 2) && ValidWindow(kernel, 2) && ValidWindow(stride, 2) ==> r.Ok?
  {
    ConvOutputShape(hw, kernel, stride, 2, 2)
  }

  /** `ConvNet3D.conv_output_shape` as written: a scalar kernel or stride is
      turned into a pair although three axes are read, so only a size of the
      right length with a kernel tuple and a stride tuple of at least three
      entries can succeed, with the window count of each axis. */
  function ConvNet3DOutputShapeAsWritten(hw: Arg, kernel: Arg, stride: Arg): (r: Result<seq<int>>)
    ensures !ValidSize(hw, 3) ==> r == Err("TypeError")
    ensures r.Ok? ==>
      && kernel.Tuple? && stride.Tuple? && |kernel.items| >= 3 && |stride.items| >= 3
      && |r.value| == 3
      && forall j :: 0 <= j < 3 ==> ConvOut(Dims(hw, 3).value[j], kernel.items[j], stride.items[j]) == Ok(r.value[j])
  {
    ConvOutputShape(hw, kernel, stride, 3, 2)
  }

  /** `ConvNet3D.conv_output_shape` with the scalar repeated three times. */
  function ConvNet3DOutputShape(hw: Arg, kernel: Arg, stride: Arg): Result<seq<int>>
  {
    ConvOutputShape(hw, kernel, stride, 3, 3)
  }

  predicate ValidSize(hw: Arg, nd: nat)
  {
    hw.Scalar? || |hw.items| == nd
  }

  predicate ValidWindow(a: Arg, nd: nat)
  {
    match a
    case Scalar(n) => n > 0
    case Tuple(t) => |t| >= nd && forall j :: 0 <= j < nd ==> t[j] > 0
  }

  /** For a 2-D size, kernel and stride (a scalar standing for both axes) with
      positive strides, `ConvNet.conv_output_shape` gives a pair of window counts. */
  lemma ConvNetWindows(hw: Arg, kernel: Arg, stride: Arg)
    requires ValidSize(hw, 2) && ValidWindow(kernel, 2) && ValidWindow(stride, 2)
    ensures var r := ConvNetOutputShape(hw, kernel, stride);
      var d := Dims(hw, 2).value;
      var k := Broadcast(kernel, 2);
      var s := Broadcast(stride, 2);
      r.Ok? && |r.value| == 2 &&
      forall j :: 0 <= j < 2 ==> (r.value[j] - 1) * s[j] + k[j] <= d[j] < r.value[j] * s[j] + k[j]
  {
    AxesWindows(Dims(hw, 2).value, Broadcast(kernel, 2), Broadcast(stride, 2), 0);
  }

  /** The 3-D version as written fails for every scalar kernel, including its
      default of 1, and for every scalar stride: the third axis reads index 2 of
      a pair. */
  lemma ConvNet3DScalarFails(hw: Arg, kernel: Arg, stride: Arg)
    requires ValidSize(hw, 3)
    requires kernel.Scalar? || stride.Scalar?
    ensures ConvNet3DOutputShapeAsWritten(hw, kernel, stride).Err?
  {
    AxesMissing(Dims(hw, 3).value, Broadcast(kernel, 2), Broadcast(stride, 2), 0, 2);
  }

  /** The default arguments alone make the 3-D version fail. */
  lemma ConvNet3DDefaultsFail(size: int)
    ensures ConvNet3DOutputShapeAsWritten(Scalar(size), Scalar(1), Scalar(1)) == Err("IndexError")
  {
    var d := seq(3, _ => size);
    var one := seq(2, _ => 1);
    assert Axes(d, one, one, 2) == Err("IndexError");
    assert Axes(d, one, one, 1) == Err("IndexError");
  }

  /** With the scalar repeated three times, every valid 3-D argument gives a
      triple of window counts. */
  lemma ConvNet3DWindows(hw: Arg, kernel: Arg, stride: Arg)
    requires ValidSize(hw, 3) && ValidWindow(kernel, 3) && ValidWindow(stride, 3)
    ensures var r := ConvNet3DOutputShape(hw, kernel, stride);
      var d := Dims(hw, 3).value;
      var k := Broadcast(kernel, 3);
      var s := Broadcast(stride, 3);
      r.Ok? && |r.value| == 3 &&
      forall j :: 0 <= j < 3 ==> (r.value[j] - 1) * s[j] + k[j] <= d[j] < r.value[j] * s[j] + k[j]
  {
    AxesWindows(Dims(hw, 3).value, Broadcast(kernel, 3), Broadcast(stride, 3), 0);
  }

  /** `conv_transpose_input_shape`: `h, w = output_shape` and then
      `(h - k) // s + 1` per axis. */
  function ConvTransposeInputShape(outputShape: seq<int>, kernel: Arg, stride: Arg): (r: Result<seq<int>>)
    ensures |outputShape| != 2 ==> r == Err("ValueError")
    ensures r.Ok? ==>
      var k, s := Broadcast(kernel, 2), Broadcast(stride, 2);
      && |r.value| == 2 && 2 <= |k| && 2 <= |s|
      && forall j :: 0 <= j < 2 ==> ConvOut(outputShape[j], k[j], s[j]) == Ok(r.value[j])
    ensures |outputShape| == 2 && ValidWindow(kernel, 2) && ValidWindow(stride, 2) ==> r.Ok?
  {
    if |outputShape| != 2 then Err("ValueError")
    else
      var k, s := Broadcast(kernel, 2), Broadcast(stride, 2);
      AxesOk(outputShape, k, s, 0);
      if AxesDefined(outputShape, k, s, 0) then AxesWindows(outputShape, k, s, 0); Axes(outputShape, k, s, 0)
      else Axes(outputShape, k, s, 0)
  }

  /** Output size of a transposed convolution: `(n - 1) * s + k`. */
  function TransposedSize(n: int, k: int, s: int): int
  {
    (n - 1) * s + k
  }

  /** For a positive stride the input size found by `conv_transpose_input_shape`
      maps, under the transposed convolution, to the largest size not above the
      desired one that the layer can produce. */
  lemma TransposeInputFits(h: int, k: int, s: int)
    requires s > 0
    ensures var n := ConvOut(h, k, s).value;
      TransposedSize(n, k, s) <= h < TransposedSize(n, k, s) + s
  {
  }

  /** `get_target_shape` along one axis: `ceil((x - k) / s) * s + k`, where the
      kernel and stride are entry `i` of their tuples. */
  function TargetAxis(x: int, k: seq<int>, s: seq<int>, i: nat): Result<int>
  {
    if i >= |k| || i >= |s| then Err("IndexError")
    else if s[i] == 0 then Err("ZeroDivisionError")
    else Ok(CeilQuot(x - k[i], s[i]) * s[i] + k[i])
  }

  /** `get_target_shape` as written: both `H` and `W` are computed from `h`.
      It fails exactly where the intended version does and agrees with it on
      the height, but with a positive stride the width it gives lies within
      one stride above the height rather than the width. */
  function GetTargetShapeAsWritten(shape: seq<int>, kernel: Arg, stride: Arg): (r: Result<seq<int>>)
    ensures |shape| != 2 ==> r == Err("ValueError")
    ensures r.Ok? <==> GetTargetShape(shape, kernel, stride).Ok?
    ensures r.Ok? ==> |r.value| == 2 && r.value[0] == GetTargetShape(shape, kernel, stride).value[0]
    ensures r.Ok? && Broadcast(stride, 2)[1] > 0 ==>
      shape[0] <= r.value[1] < shape[0] + Broadcast(stride, 2)[1]
  {
    if |shape| != 2 then Err("ValueError")
    else
      var k, s := Broadcast(kernel, 2), Broadcast(stride, 2);
      match TargetAxis(shape[0], k, s, 0)
      case Err(e) => Err(e)
      case Ok(hh) =>
        match TargetAxis(shape[0], k, s, 1)
        case Err(e) => Err(e)
        case Ok(ww) =>
          if s[1] > 0 then TargetAxisBounds(shape[0], k, s, 1); Ok([hh, ww]) else Ok([hh, ww])
  }

  /** `get_target_shape` with `W` computed from `w`, as its docstring intends:
      with positive strides, each axis of the target is at least the given
      size and less than one stride above it. */
  function GetTargetShape(shape: seq<int>, kernel: Arg, stride: Arg): (r: Result<seq<int>>)
    ensures |shape| != 2 ==> r == Err("ValueError")
    ensures |shape| == 2 && ValidWindow(stride, 2) && (kernel.Tuple? ==> |kernel.items| >= 2) ==>
      var s := Broadcast(stride, 2);
      r.Ok? && |r.value| == 2 && shape[0] <= r.value[0] < shape[0] + s[0] && shape[1] <= r.value[1] < shape[1] + s[1]
  {
    if |shape| != 2 then Err("ValueError")
    else
      var k, s := Broadcast(kernel, 2), Broadcast(stride, 2);
      if |k| >= 2 && |s| >= 2 && s[0] > 0 && s[1] > 0 then
        TargetAxisBounds(shape[0], k, s, 0);
        TargetAxisBounds(shape[1], k, s, 1);
        TargetPair(shape, k, s)
      else TargetPair(shape, k, s)
  }

  /** The two target axes of `shape`, the first error winning. */
  function TargetPair(shape: seq<int>, k: seq<int>, s: seq<int>): Result<seq<int>>
    requires |shape| == 2
  {
    match TargetAxis(shape[0], k, s, 0)
    case Err(e) => Err(e)
    case Ok(hh) =>
      match TargetAxis(shape[1], k, s, 1)
      case Err(e) => Err(e)
      case Ok(ww) => Ok([hh, ww])
  }

  /** Along one axis the target is the smallest size at least `x` that a
      convolution with kernel `k` and stride `s` covers exactly, and the
      transposed convolution of the input found for it gives it back. */
  lemma TargetAxisCovers(x: int, k: seq<int>, s: seq<int>, i: nat)
    requires i < |k| && i < |s| && s[i] > 0
    ensures var t := TargetAxis(x, k, s, i).value;
      var n := ConvOut(t, k[i], s[i]).value;
      && x <= t < x + s[i]
      && (t - k[i]) % s[i] == 0
      && TransposedSize(n, k[i], s[i]) == t
  {
    TargetAxisBounds(x, k, s, i);
    var t := TargetAxis(x, k, s, i).value;
    var c := CeilQuot(x - k[i], s[i]);
    assert t == c * s[i] + k[i];
    DivModUnique(t - k[i], s[i], c, 0);
    assert ConvOut(t, k[i], s[i]).value == c + 1;
  }

  /** `get_target_shape` and `conv_transpose_input_shape` together: the input
      shape found for the target is mapped by the transposed convolution to
      exactly the target, on both axes. */
  lemma GetTargetShapeRoundTrip(h: int, w: int, kernel: Arg, stride: Arg)
    requires ValidWindow(stride, 2) && (kernel.Tuple? ==> |kernel.items| >= 2)
    ensures var t := GetTargetShape([h, w], kernel, stride).value;
      var n := ConvTransposeInputShape(t, kernel, stride);
      var k, s := Broadcast(kernel, 2), Broadcast(stride, 2);
      && n.Ok?
      && TransposedSize(n.value[0], k[0], s[0]) == t[0]
      && TransposedSize(n.value[1], k[1], s[1]) == t[1]
  {
    var k, s := Broadcast(kernel, 2), Broadcast(stride, 2);
    assert s[0] > 0 && s[1] > 0;
    TargetAxisCovers(h, k, s, 0);
    TargetAxisCovers(w, k, s, 1);
    var t := GetTargetShape([h, w], kernel, stride).value;
    AxesWindows(t, k, s, 0);
  }

  /** One axis of the target on a positive stride: at least `x`, less than a stride above. */
  lemma TargetAxisBounds(x: int, k: seq<int>, s: seq<int>, i: nat)
    requires i < |k| && i < |s| && s[i] > 0
    ensures TargetAxis(x, k, s, i).Ok? && x <= TargetAxis(x, k, s, i).value < x + s[i]
  {
    var c := CeilQuot(x - k[i], s[i]);
    assert c * s[i] - s[i] < x - k[i] <= c * s[i];
  }

  /** As written, a shape wider than it is tall gets a target narrower than
      itself: `(3, 9)` with kernel 3 and stride 1 gives `(3, 3)`. */
  lemma GetTargetShapeIgnoresWidth()
    ensures GetTargetShapeAsWritten([3, 9], Scalar(3), Scalar(1)) == Ok([3, 3])
    ensures GetTargetShape([3, 9], Scalar(3), Scalar(1)) == Ok([3, 9])
  {
    var three, one := seq(2, _ => 3), seq(2, _ => 1);
    assert TargetAxis(3, three, one, 0) == Ok(3);
    assert TargetAxis(3, three, one, 1) == Ok(3);
    assert TargetAxis(9, three, one, 1) == Ok(9);
  }

  /** A layer spec as far as the padding helpers read it:
      `layer_spec.get('stride', 1)` and `layer_spec['kernel_size']`. */
  datatype PadSpec = PadSpec(stride: Option<int>, kernelSize: int)

  function SpecStride(spec: PadSpec): int
  {
    match spec.stride
    case None => 1
    case Some(s) => s
  }

  /** `required_shape - spatial_shape` along one axis as written:
      `(ceil(int(n / s)) - 1) * s + k - n`; the cast truncates before the
      ceiling is taken, so the ceiling does nothing, and the padding is one
      stride short of the intended one whenever s does not divide n. */
  function PreservePaddingAsWritten(n: nat, k: int, s: int): (r: int)
    requires s > 0
    ensures r == PreservePadding(n, k, s) - (if n % s == 0 then 0 else s)
  {
    (n / s - 1) * s + k - n
  }

  /** The padding the docstring asks for: `(ceil(n / s) - 1) * s + k - n`. */
  function PreservePadding(n: nat, k: int, s: int): int
    requires s > 0
  {
    (CeilDiv(n, s) - 1) * s + k - n
  }

  /** As written, the padded axis is reduced by the layer to `floor(n / s)`. */
  lemma PreservePaddingAsWrittenFloors(n: nat, k: int, s: int)
    requires s > 0
    ensures ConvOut(n + PreservePaddingAsWritten(n, k, s), k, s) == Ok(n / s)
  {
    DivModUnique((n / s - 1) * s, s, n / s - 1, 0);
  }

  /** With the ceiling taken first, the padded axis is reduced by the layer to
      `ceil(n / s)`, which is what `pad_to_preserve_shape` promises. */
  lemma PreservePaddingCeils(n: nat, k: int, s: int)
    requires s > 0
    ensures ConvOut(n + PreservePadding(n, k, s), k, s) == Ok(CeilDiv(n, s))
  {
    DivModUnique((CeilDiv(n, s) - 1) * s, s, CeilDiv(n, s) - 1, 0);
  }

  /** An input on which the two differ: 5 cells, kernel 3, stride 2 come out as
      2 cells as written and 3 = ceil(5 / 2) when corrected. */
  lemma PreservePaddingExample()
    ensures PreservePaddingAsWritten(5, 3, 2) == 0
    ensures ConvOut(5 + PreservePaddingAsWritten(5, 3, 2), 3, 2) == Ok(2)
    ensures PreservePadding(5, 3, 2) == 2
    ensures ConvOut(5 + PreservePadding(5, 3, 2), 3, 2) == Ok(3)
  {
    PreservePaddingAsWrittenFloors(5, 3, 2);
    PreservePaddingCeils(5, 3, 2);
  }

  /** Padding of one axis before and after its cells. */
  datatype Pad = Pad(before: int, after: int)

  /** `np.floor(p / 2)` before and `np.ceil(p / 2)` after when balanced, else
      everything after. */
  function Split(p: int, balanced: bool): (r: Pad)
    ensures r.before + r.after == p
    ensures balanced ==> r.before <= r.after <= r.before + 1
    ensures !balanced ==> r.before == 0
  {
    if balanced then Pad(p / 2, CeilDiv(p, 2)) else Pad(0, p)
  }

  /** `pad_to_preserve_shape` on the two spatial axes `(h, w)`, with the
      corrected required shape; the pair returned is the padding of `h` and of
      `w` (`F.pad` lists them last axis first). */
  function PadToPreserveShape(h: nat, w: nat, spec: PadSpec, balanced: bool): (r: (Pad, Pad))
    requires SpecStride(spec) > 0
    ensures var s, k := SpecStride(spec), spec.kernelSize;
      && ConvOut(h + r.0.before + r.0.after, k, s) == Ok(CeilDiv(h, s))
      && ConvOut(w + r.1.before + r.1.after, k, s) == Ok(CeilDiv(w, s))
    ensures balanced ==> r.0.before <= r.0.after <= r.0.before + 1 && r.1.before <= r.1.after <= r.1.before + 1
    ensures !balanced ==> r.0.before == 0 && r.1.before == 0
  {
    PreservePaddingCeils(h, spec.kernelSize, SpecStride(spec));
    PreservePaddingCeils(w, spec.kernelSize, SpecStride(spec));
    var s := SpecStride(spec);
    (Split(PreservePadding(h, spec.kernelSize, s), balanced),
     Split(PreservePadding(w, spec.kernelSize, s), balanced))
  }

  /** `pad_to_preserve_shape` as written: the padded axes convolve to
      `floor(size / stride)` cells, not the `ceil` its docstring promises. */
  function PadToPreserveShapeAsWritten(h: nat, w: nat, spec: PadSpec, balanced: bool): (r: (Pad, Pad))
    requires SpecStride(spec) > 0
    ensures var s, k := SpecStride(spec), spec.kernelSize;
      && ConvOut(h + r.0.before + r.0.after, k, s) == Ok(h / s)
      && ConvOut(w + r.1.before + r.1.after, k, s) == Ok(w / s)
    ensures balanced ==> r.0.before <= r.0.after <= r.0.before + 1 && r.1.before <= r.1.after <= r.1.before + 1
    ensures !balanced ==> r.0.before == 0 && r.1.before == 0
  {
    PreservePaddingAsWrittenFloors(h, spec.kernelSize, SpecStride(spec));
    PreservePaddingAsWrittenFloors(w, spec.kernelSize, SpecStride(spec));
    var s := SpecStride(spec);
    (Split(PreservePaddingAsWritten(h, spec.kernelSize, s), balanced),
     Split(PreservePaddingAsWritten(w, spec.kernelSize, s), balanced))
  }

  /** `min_pad`: both volumes are cut to the smaller size on axes 2 and 3, the
      other axes are untouched; a volume with fewer than four axes is an
      IndexError. */
  function MinPad(v1: seq<nat>, v2: seq<nat>): (r: Result<(seq<nat>, seq<nat>)>)
    ensures r.Ok? <==> |v1| >= 4 && |v2| >= 4
    ensures r.Ok? ==>
      var (a, b) := r.value;
      && |a| == |v1| && |b| == |v2|
      && a[2] == b[2] && a[3] == b[3]
      && (a[2] == v1[2] || a[2] == v2[2]) && a[2] <= v1[2] && a[2] <= v2[2]
      && (a[3] == v1[3] || a[3] == v2[3]) && a[3] <= v1[3] && a[3] <= v2[3]
      && (forall i :: 0 <= i < |a| && i != 2 && i != 3 ==> a[i] == v1[i])
      && (forall i :: 0 <= i < |b| && i != 2 && i != 3 ==> b[i] == v2[i])
  {
    if |v1| < 4 || |v2| < 4 then Err("IndexError")
    else
      var s1 := if v1[2] <= v2[2] then v1[2] else v2[2];
      var s2 := if v1[3] <= v2[3] then v1[3] else v2[3];
      Ok((v1[2 := s1][3 := s2], v2[2 := s1][3 := s2]))
  }
}
