/** The integer and index logic of the YOLO-RL network of
    dps/env/advanced/yolo_rl.py: the backbone's strided layout, the grid
    sizes, the order of the program's parts, the look-back context of the
    sequential program generator, the evaluator's fetch tree, the weighted
    mean of `_evaluate`, the cost accumulators and the box lists handed to
    mAP. Tensors are values: a cell of the program is its feature vector. */
module YoloRL {
  import opened Wrappers
  import opened Strings
  import ConvShapes
  import Arith

  // ---------------------------------------------------------------------
  // Prime factors and the backbone layout.

  predicate IsPrime(p: nat)
  {
    p >= 2 && forall k :: 2 <= k < p ==> p % k != 0
  }

  /** The least divisor of `n` from `d` on, when no smaller one from 2 on
      divides `n`. */
  function SmallestDivisor(n: nat, d: nat): (p: nat)
    requires 2 <= d <= n
    requires forall k :: 2 <= k < d ==> n % k != 0
    ensures d <= p <= n && n % p == 0
    ensures forall k :: 2 <= k < p ==> n % k != 0
    decreases n - d
  {
    if n % d == 0 then d
    else
      assert d != n by {
        if d == n {
          Arith.DivModUnique(n, n, 1, 0);
        }
      }
      SmallestDivisor(n, d + 1)
  }

  lemma DivExact(n: nat, p: nat)
    requires p > 0 && n % p == 0
    ensures n == p * (n / p)
  {
  }

  lemma DividesTransitive(n: nat, p: nat, k: nat)
    requires k > 0 && p > 0 && n % p == 0 && p % k == 0
    ensures n % k == 0
  {
    var a, b := n / p, p / k;
    DivExact(n, p);
    DivExact(p, k);
    assert n == (k * b) * a;
    assert (k * b) * a == (b * a) * k;
    Arith.DivModUnique(n, k, b * a, 0);
  }

  /** The least divisor of `n` above 1 is prime. */
  lemma SmallestDivisorPrime(n: nat)
    requires n >= 2
    ensures IsPrime(SmallestDivisor(n, 2))
  {
    var p := SmallestDivisor(n, 2);
    forall k | 2 <= k < p
      ensures p % k != 0
    {
      if p % k == 0 {
        DividesTransitive(n, p, k);
      }
    }
  }

  /** Removing the least prime factor leaves a positive cofactor. */
  lemma Cofactor(n: nat)
    requires n >= 2
    ensures var p := SmallestDivisor(n, 2); 1 <= n / p < n && n == p * (n / p)
  {
    var p := SmallestDivisor(n, 2);
    DivExact(n, p);
    Arith.MulMonotone(2, p, n / p);
  }

  /** `prime_factors(n)`: the primes whose product is `n`, with
      multiplicity, smallest first; none for 1, at least one above 1, and
      every one between 2 and `n`. */
  function PrimeFactors(n: nat): (fs: seq<nat>)
    ensures fs == [] <==> n <= 1
    ensures forall f :: f in fs ==> 2 <= f <= n
    decreases n
  {
    if n <= 1 then []
    else
      var p := SmallestDivisor(n, 2);
      Cofactor(n);
      [p] + PrimeFactors(n / p)
  }

  function Product(xs: seq<int>): int
  {
    if xs == [] then 1 else xs[0] * Product(xs[1..])
  }

  lemma ProductCons(p: int, xs: seq<int>)
    ensures Product([p] + xs) == p * Product(xs)
  {
    assert ([p] + xs)[1..] == xs;
  }

  predicate SortedNat(xs: seq<nat>)
  {
    forall i, j :: 0 <= i < j < |xs| ==> xs[i] <= xs[j]
  }

  /** A divisor of the cofactor divides `n`. */
  lemma CofactorDivides(n: nat, f: nat)
    requires n >= 2 && f > 0 && (n / SmallestDivisor(n, 2)) % f == 0
    ensures n % f == 0
  {
    var p := SmallestDivisor(n, 2);
    var m := n / p;
    Cofactor(n);
    Arith.DivModUnique(n, m, p, 0);
    DividesTransitive(n, m, f);
  }

  /** Every factor is a prime dividing `n`. */
  lemma {:induction false} PrimeFactorsPrime(n: nat)
    requires n >= 1
    ensures forall f :: f in PrimeFactors(n) ==> IsPrime(f) && n % f == 0
    decreases n
  {
    if n >= 2 {
      var p := SmallestDivisor(n, 2);
      SmallestDivisorPrime(n);
      Cofactor(n);
      PrimeFactorsPrime(n / p);
      forall f | f in PrimeFactors(n / p)
        ensures n % f == 0
      {
        CofactorDivides(n, f);
      }
    }
  }

  /** The factors come in increasing order, so `sorted` leaves them as they
      are. */
  lemma {:induction false} PrimeFactorsSorted(n: nat)
    requires n >= 1
    ensures SortedNat(PrimeFactors(n))
    decreases n
  {
    if n >= 2 {
      var p := SmallestDivisor(n, 2);
      Cofactor(n);
      PrimeFactorsSorted(n / p);
      PrimeFactorsPrime(n);
      var rest := PrimeFactors(n / p);
      assert PrimeFactors(n) == [p] + rest;
      forall f | f in rest
        ensures p <= f
      {
        assert f in PrimeFactors(n);
      }
      SortedCons(p, rest);
    }
  }

  lemma SortedCons(p: nat, rest: seq<nat>)
    requires SortedNat(rest) && forall f :: f in rest ==> p <= f
    ensures SortedNat([p] + rest)
  {
    var fs := [p] + rest;
    forall i, j | 0 <= i < j < |fs|
      ensures fs[i] <= fs[j]
    {
      assert fs[j] == rest[j - 1] && rest[j - 1] in rest;
      if i > 0 {
        assert fs[i] == rest[i - 1];
      }
    }
  }

  /** The factors multiply back to `n`. */
  lemma {:induction false} PrimeFactorsProduct(n: nat)
    requires n >= 1
    ensures Product(PrimeFactors(n)) == n
    decreases n
  {
    if n >= 2 {
      var p := SmallestDivisor(n, 2);
      var m := n / p;
      Cofactor(n);
      PrimeFactorsProduct(m);
      assert PrimeFactors(n) == [p] + PrimeFactors(m);
      ProductCons(p, PrimeFactors(m));
    }
  }

  function MaxOf(xs: seq<nat>): (m: nat)
    requires |xs| > 0
    ensures m in xs && forall i :: 0 <= i < |xs| ==> xs[i] <= m
  {
    if |xs| == 1 then xs[0]
    else
      var r := MaxOf(xs[1..]);
      assert forall i :: 1 <= i < |xs| ==> xs[1..][i - 1] == xs[i];
      if xs[0] >= r then xs[0] else r
  }

  /** `xs + [1] * (n - len(xs))`. */
  function PadOnes(xs: seq<nat>, n: nat): (r: seq<nat>)
    ensures |r| == if n > |xs| then n else |xs|
    ensures r[..|xs|] == xs && forall i :: |xs| <= i < |r| ==> r[i] == 1
  {
    if n > |xs| then xs + seq(n - |xs|, _ => 1) else xs
  }

  lemma {:induction false} ProductOnes(xs: seq<nat>, n: nat)
    ensures Product(PadOnes(xs, n)) == Product(xs)
    decreases |xs|
  {
    if n > |xs| {
      if xs == [] {
        OnesProduct(n);
      } else {
        assert PadOnes(xs, n)[1..] == PadOnes(xs[1..], n - 1);
        ProductOnes(xs[1..], n - 1);
      }
    }
  }

  lemma {:induction false} OnesProduct(n: nat)
    ensures Product(seq(n, _ => 1)) == 1
  {
    if n > 0 {
      assert seq(n, _ => 1)[1..] == seq(n - 1, _ => 1);
      OnesProduct(n - 1);
    }
  }

  /** A layer of a `FullyConvolutional` layout. */
  datatype Layer = Layer(filters: int, kernelSize: int, strides: seq<int>, padding: string)

  function StridedLayers(sh: seq<nat>, sw: seq<nat>, nChannels: int): (ls: seq<Layer>)
    requires |sh| == |sw|
    ensures |ls| == |sh|
    ensures forall i :: 0 <= i < |ls| ==> ls[i] == Layer(nChannels, 4, [sh[i], sw[i]], "RIGHT_ONLY")
  {
    seq(|sh|, i requires 0 <= i < |sh| => Layer(nChannels, 4, [sh[i], sw[i]], "RIGHT_ONLY"))
  }

  function FinalLayers(n: nat, nChannels: int, kernelSize: int): (ls: seq<Layer>)
    ensures |ls| == n && forall i :: 0 <= i < n ==> ls[i] == Layer(nChannels, kernelSize, [1], "SAME")
  {
    seq(n, _ => Layer(nChannels, kernelSize, [1], "SAME"))
  }

  /** The strides of the strided part of a layout along one axis. */
  function Strides(ls: seq<Layer>, axis: nat): (s: seq<int>)
    ensures |s| == |ls|
  {
    seq(|ls|, i requires 0 <= i < |ls| => if axis < |ls[i].strides| then ls[i].strides[axis] else 1)
  }

  /** `Backbone.__init__`: the sorted prime factors of each side of a cell;
      the largest of each must be at most 4 (AssertionError), and a side of
      one pixel has no factors, so `max` fails (ValueError). The shorter
      list is padded with 1s; each pair gives a strided layer, and
      `n_final_layers` stride-1 layers follow. */
  function BackboneLayout(ppc: (nat, nat), kernelSize: int, nChannels: int, nFinal: int): (r: Result<seq<Layer>>)
    ensures r.Err? <==> ppc.0 <= 1 || ppc.1 <= 1 || MaxOf(PrimeFactors(ppc.0)) > 4 || MaxOf(PrimeFactors(ppc.1)) > 4
  {
    Layout(PrimeFactors(ppc.0), PrimeFactors(ppc.1), kernelSize, nChannels, nFinal)
  }

  /** The layout for the given factor lists of the two sides of a cell. */
  function Layout(sh: seq<nat>, sw: seq<nat>, kernelSize: int, nChannels: int, nFinal: int): (r: Result<seq<Layer>>)
    ensures r.Err? <==> sh == [] || sw == [] || MaxOf(sh) > 4 || MaxOf(sw) > 4
    ensures r.Ok? ==>
      var n := if |sh| >= |sw| then |sh| else |sw|;
      && |r.value| == n + (if nFinal > 0 then nFinal else 0)
      && r.value[..n] == StridedLayers(PadOnes(sh, n), PadOnes(sw, n), nChannels)
      && r.value[n..] == FinalLayers(if nFinal > 0 then nFinal else 0, nChannels, kernelSize)
  {
    if sh == [] then Err("ValueError")
    else if MaxOf(sh) > 4 then Err("AssertionError")
    else if sw == [] then Err("ValueError")
    else if MaxOf(sw) > 4 then Err("AssertionError")
    else
      var n := if |sh| >= |sw| then |sh| else |sw|;
      var strided := StridedLayers(PadOnes(sh, n), PadOnes(sw, n), nChannels);
      var layers := strided + FinalLayers(if nFinal > 0 then nFinal else 0, nChannels, kernelSize);
      assert layers[..n] == strided;
      assert layers[n..] == FinalLayers(if nFinal > 0 then nFinal else 0, nChannels, kernelSize);
      Ok(layers)
  }

  /** A prime of at most 4 is 2 or 3. */
  lemma SmallPrime(p: nat)
    requires IsPrime(p) && p <= 4
    ensures p == 2 || p == 3
  {
    assert 2 <= 2 < p ==> p % 2 != 0;
  }

  /** Every factor is a stride the layout accepts. */
  predicate SmallFactors(fs: seq<int>)
  {
    forall i :: 0 <= i < |fs| ==> 1 <= fs[i] <= 3
  }

  /** The factors of a side whose largest factor is at most 4 are 2s and 3s
      whose product is that side. */
  lemma FactorsSmall(side: nat)
    requires side >= 2 && MaxOf(PrimeFactors(side)) <= 4
    ensures SmallFactors(PrimeFactors(side)) && Product(PrimeFactors(side)) == side
  {
    var fs := PrimeFactors(side);
    PrimeFactorsPrime(side);
    forall i | 0 <= i < |fs|
      ensures 1 <= fs[i] <= 3
    {
      assert fs[i] in fs;
      SmallPrime(fs[i]);
    }
    PrimeFactorsProduct(side);
  }

  /** Padding with 1s keeps the strides small and their product. */
  lemma PadSmall(fs: seq<nat>, n: nat)
    requires SmallFactors(fs)
    ensures SmallFactors(PadOnes(fs, n)) && Product(PadOnes(fs, n)) == Product(fs)
  {
    var ps := PadOnes(fs, n);
    forall i | 0 <= i < |ps|
      ensures 1 <= ps[i] <= 3
    {
      if i < |fs| {
        assert ps[i] == ps[..|fs|][i];
      }
    }
    ProductOnes(fs, n);
  }

  /** The strided layers shrink the image by exactly `pixels_per_cell` along
      each axis, with strides of 1, 2 or 3 only. */
  lemma BackboneDownsamples(ppc: (nat, nat), kernelSize: int, nChannels: int, nFinal: int)
    requires BackboneLayout(ppc, kernelSize, nChannels, nFinal).Ok?
    ensures var ls := BackboneLayout(ppc, kernelSize, nChannels, nFinal).value;
      var n := |ls| - (if nFinal > 0 then nFinal else 0);
      && 0 <= n
      && (forall i :: 0 <= i < n ==> |ls[i].strides| == 2 && 1 <= ls[i].strides[0] <= 3 && 1 <= ls[i].strides[1] <= 3)
      && Product(Strides(ls[..n], 0)) == ppc.0 && Product(Strides(ls[..n], 1)) == ppc.1
  {
    FactorsSmall(ppc.0);
    FactorsSmall(ppc.1);
    LayoutDownsamples(PrimeFactors(ppc.0), PrimeFactors(ppc.1), kernelSize, nChannels, nFinal);
  }

  /** The same for any factor lists of small strides. */
  lemma LayoutDownsamples(sh: seq<nat>, sw: seq<nat>, kernelSize: int, nChannels: int, nFinal: int)
    requires Layout(sh, sw, kernelSize, nChannels, nFinal).Ok? && SmallFactors(sh) && SmallFactors(sw)
    ensures var ls := Layout(sh, sw, kernelSize, nChannels, nFinal).value;
      var n := |ls| - (if nFinal > 0 then nFinal else 0);
      && 0 <= n
      && (forall i :: 0 <= i < n ==> |ls[i].strides| == 2 && 1 <= ls[i].strides[0] <= 3 && 1 <= ls[i].strides[1] <= 3)
      && Product(Strides(ls[..n], 0)) == Product(sh) && Product(Strides(ls[..n], 1)) == Product(sw)
  {
    var n := if |sh| >= |sw| then |sh| else |sw|;
    PadSmall(sh, n);
    PadSmall(sw, n);
    LayoutStrides(sh, sw, kernelSize, nChannels, nFinal);
  }

  /** The strides of a layout are the padded factor lists, pair by pair. */
  lemma LayoutStrides(sh: seq<nat>, sw: seq<nat>, kernelSize: int, nChannels: int, nFinal: int)
    requires Layout(sh, sw, kernelSize, nChannels, nFinal).Ok?
    ensures var ls := Layout(sh, sw, kernelSize, nChannels, nFinal).value;
      var n := if |sh| >= |sw| then |sh| else |sw|;
      && n == |ls| - (if nFinal > 0 then nFinal else 0)
      && (forall i :: 0 <= i < n ==> ls[i].strides == [PadOnes(sh, n)[i], PadOnes(sw, n)[i]])
      && Strides(ls[..n], 0) == PadOnes(sh, n) && Strides(ls[..n], 1) == PadOnes(sw, n)
  {
    var ls := Layout(sh, sw, kernelSize, nChannels, nFinal).value;
    var n := if |sh| >= |sw| then |sh| else |sw|;
    forall i | 0 <= i < n
      ensures ls[i].strides == [PadOnes(sh, n)[i], PadOnes(sw, n)[i]]
    {
      assert ls[i] == ls[..n][i];
    }
    StridesOfLayers(PadOnes(sh, n), PadOnes(sw, n), nChannels);
  }

  lemma StridesOfLayers(sh: seq<nat>, sw: seq<nat>, nChannels: int)
    requires |sh| == |sw|
    ensures Strides(StridedLayers(sh, sw, nChannels), 0) == sh
    ensures Strides(StridedLayers(sh, sw, nChannels), 1) == sw
  {
  }

  lemma FactorsOfSmallSides()
    ensures PrimeFactors(2) == [2] && PrimeFactors(4) == [2, 2] && PrimeFactors(3) == [3]
    ensures PrimeFactors(6) == [2, 3]
  {
    assert SmallestDivisor(2, 2) == 2 && SmallestDivisor(4, 2) == 2;
    assert SmallestDivisor(3, 2) == 3 && SmallestDivisor(6, 2) == 2;
  }

  /** Cells of 4 by 6 pixels: two halvings down, a halving and a third
      across, then the final layers. */
  lemma BackboneExample()
    ensures BackboneLayout((4, 6), 3, 64, 2).Ok?
    ensures |BackboneLayout((4, 6), 3, 64, 2).value| == 4
    ensures BackboneLayout((4, 6), 3, 64, 2).value[1].strides == [2, 3]
  {
    FactorsOfSmallSides();
  }

  /** A side of 5 pixels has a factor too large for the layout; a side of
      one pixel has none at all. */
  lemma BackboneRejects()
    ensures BackboneLayout((5, 4), 3, 64, 2) == Err("AssertionError")
    ensures BackboneLayout((1, 4), 3, 64, 2) == Err("ValueError")
  {
    assert SmallestDivisor(5, 4) == 5;
    assert SmallestDivisor(5, 2) == 5;
    assert PrimeFactors(5) == [5];
  }

  // ---------------------------------------------------------------------
  // Grid sizes and the order of the program's parts.

  datatype Grid = Grid(H: int, W: int, B: nat)

  /** `H = ceil(image_height / pixels_per_cell[0])`,
      `W = ceil(image_width / pixels_per_cell[1])`, `B = len(anchor_boxes)`;
      a zero cell side divides by zero. */
  function GridSizes(imageHeight: int, imageWidth: int, ppc: (int, int), nAnchors: nat): (r: Result<Grid>)
    ensures r.Err? <==> ppc.0 == 0 || ppc.1 == 0
    ensures r.Err? ==> r.error == "ZeroDivisionError"
    ensures r.Ok? ==> r.value.B == nAnchors
    ensures r.Ok? && ppc.0 > 0 ==> (r.value.H - 1) * ppc.0 < imageHeight <= r.value.H * ppc.0
    ensures r.Ok? && ppc.1 > 0 ==> (r.value.W - 1) * ppc.1 < imageWidth <= r.value.W * ppc.1
  {
    if ppc.0 == 0 || ppc.1 == 0 then Err("ZeroDivisionError")
    else Ok(Grid(ConvShapes.CeilQuot(imageHeight, ppc.0), ConvShapes.CeilQuot(imageWidth, ppc.1), nAnchors))
  }

  /** The grid covers the image with at most one partial cell per axis: a
      positive image gives a positive grid. */
  lemma GridCovers(imageHeight: int, imageWidth: int, ppc: (int, int), nAnchors: nat)
    requires imageHeight > 0 && imageWidth > 0 && ppc.0 > 0 && ppc.1 > 0
    ensures var g := GridSizes(imageHeight, imageWidth, ppc, nAnchors).value;
      g.H >= 1 && g.W >= 1 && (g.H - 1) * ppc.0 < imageHeight && (g.W - 1) * ppc.1 < imageWidth
  {
  }

  /** `order` as configured: a space-separated string or a list of kinds. */
  datatype OrderParam = OrderText(text: string) | OrderList(kinds: seq<string>)

  /** `order.split()` when it is a string, then `set(order) == kinds` is
      asserted. */
  function CheckOrder(order: OrderParam, kinds: set<string>): (r: Result<seq<string>>)
    ensures r.Ok? ==> (set k | k in r.value) == kinds
    ensures r.Err? ==> r.error == "AssertionError"
    ensures order.OrderList? ==> (r.Ok? <==> (set k | k in order.kinds) == kinds)
    ensures order.OrderText? && r.Ok? ==> r.value == Words(order.text)
  {
    var ks := if order.OrderText? then Words(order.text) else order.kinds;
    if (set k | k in ks) == kinds then Ok(ks) else Err("AssertionError")
  }

  /** The parts of a YOLO-RL program. */
  const RLKinds: set<string> := {"box", "obj", "z", "attr"}

  /** Every kind once, in any order, is accepted; a missing kind is not. */
  lemma CheckOrderExamples()
    ensures CheckOrder(OrderList(["obj", "box", "attr", "z"]), RLKinds).Ok?
    ensures CheckOrder(OrderList(["box", "obj", "z"]), RLKinds).Err?
  {
    assert (set k | k in ["obj", "box", "attr", "z"]) == RLKinds;
    assert "attr" !in (set k | k in ["box", "obj", "z"]);
  }

  // ---------------------------------------------------------------------
  // The look-back context of `_get_sequential_input`.

  datatype Offset = Offset(i: int, j: int, k: int)

  /** The offsets `(i, j, k)` for `k < n2`, in order, without the origin. */
  function OffsetsK(i: int, j: int, n2: int): (os: seq<Offset>)
    decreases n2
  {
    if n2 <= 0 then []
    else OffsetsK(i, j, n2 - 1) + (if i == 0 && j == 0 && n2 - 1 == 0 then [] else [Offset(i, j, n2 - 1)])
  }

  /** The offsets `(i, j, k)` for `j < n1`, `k < l2`, row-major. */
  function OffsetsJ(i: int, n1: int, l2: int): (os: seq<Offset>)
    decreases n1
  {
    if n1 <= 0 then [] else OffsetsJ(i, n1 - 1, l2) + OffsetsK(i, n1 - 1, l2)
  }

  /** The look-back offsets of a `lookback_shape` of `(n0, l1, l2)`, in the
      order the three nested loops visit them, without `(0, 0, 0)`. */
  function Offsets(n0: int, l1: int, l2: int): (os: seq<Offset>)
    decreases n0
  {
    if n0 <= 0 then [] else Offsets(n0 - 1, l1, l2) + OffsetsJ(n0 - 1, l1, l2)
  }

  /** The input piece of one offset: the edge element when the cell it
      points at has a negative coordinate, else that cell of the program. */
  function Piece(program: (int, int, int) -> seq<real>, h: int, w: int, b: int, edge: seq<real>, o: Offset): seq<real>
  {
    if h - o.i < 0 || w - o.j < 0 || b - o.k < 0 then edge else program(h - o.i, w - o.j, b - o.k)
  }

  function Pieces(program: (int, int, int) -> seq<real>, h: int, w: int, b: int, edge: seq<real>, os: seq<Offset>): (ps: seq<seq<real>>)
    ensures |ps| == |os| && forall n :: 0 <= n < |os| ==> ps[n] == Piece(program, h, w, b, edge, os[n])
  {
    seq(|os|, n requires 0 <= n < |os| => Piece(program, h, w, b, edge, os[n]))
  }

  lemma PiecesAppend(program: (int, int, int) -> seq<real>, h: int, w: int, b: int, edge: seq<real>, a: seq<Offset>, c: seq<Offset>)
    ensures Pieces(program, h, w, b, edge, a + c) == Pieces(program, h, w, b, edge, a) + Pieces(program, h, w, b, edge, c)
  {
  }

  /** `tf.concat(pieces, axis=1)` on feature vectors. */
  function Concat(ps: seq<seq<real>>): seq<real>
  {
    if ps == [] then [] else Concat(ps[..|ps| - 1]) + ps[|ps| - 1]
  }

  /** `_get_sequential_input(program, h, w, b, edge_element)`: the pieces of
      every look-back offset, in loop order, concatenated. With no offsets
      (a look-back of one cell) there is nothing to concatenate and
      `tf.concat` raises ValueError. */
  method SequentialInput(program: (int, int, int) -> seq<real>, lookback: (int, int, int),
                         h: int, w: int, b: int, edge: seq<real>) returns (r: Result<seq<real>>)
    ensures var os := Offsets(lookback.0, lookback.1, lookback.2);
      && (os == [] ==> r == Err("ValueError"))
      && (os != [] ==> r == Ok(Concat(Pieces(program, h, w, b, edge, os))))
  {
    var inp: seq<seq<real>> := [];
    var n0 := if lookback.0 > 0 then lookback.0 else 0;
    for i := 0 to n0
      invariant inp == Pieces(program, h, w, b, edge, Offsets(i, lookback.1, lookback.2))
    {
      var row := LookbackRow(program, lookback.1, lookback.2, h, w, b, edge, i);
      assert Offsets(i + 1, lookback.1, lookback.2) == Offsets(i, lookback.1, lookback.2) + OffsetsJ(i, lookback.1, lookback.2);
      PiecesAppend(program, h, w, b, edge, Offsets(i, lookback.1, lookback.2), OffsetsJ(i, lookback.1, lookback.2));
      inp := inp + row;
    }
    assert Offsets(n0, lookback.1, lookback.2) == Offsets(lookback.0, lookback.1, lookback.2);
    if inp == [] {
      return Err("ValueError");
    }
    return Ok(Concat(inp));
  }

  /** The middle loop of `_get_sequential_input`, over `j` for one `i`. */
  method LookbackRow(program: (int, int, int) -> seq<real>, l1: int, l2: int,
                     h: int, w: int, b: int, edge: seq<real>, i: int) returns (row: seq<seq<real>>)
    ensures row == Pieces(program, h, w, b, edge, OffsetsJ(i, l1, l2))
  {
    row := [];
    var n1 := if l1 > 0 then l1 else 0;
    for j := 0 to n1
      invariant row == Pieces(program, h, w, b, edge, OffsetsJ(i, j, l2))
    {
      var cells := LookbackCells(program, l2, h, w, b, edge, i, j);
      assert OffsetsJ(i, j + 1, l2) == OffsetsJ(i, j, l2) + OffsetsK(i, j, l2);
      PiecesAppend(program, h, w, b, edge, OffsetsJ(i, j, l2), OffsetsK(i, j, l2));
      row := row + cells;
    }
    assert OffsetsJ(i, n1, l2) == OffsetsJ(i, l1, l2);
  }

  /** The innermost loop of `_get_sequential_input`, over `k` for one
      `(i, j)`: the origin is skipped, and an offset that leaves the
      program through a negative coordinate gives the edge element. */
  method LookbackCells(program: (int, int, int) -> seq<real>, l2: int,
                       h: int, w: int, b: int, edge: seq<real>, i: int, j: int) returns (cells: seq<seq<real>>)
    ensures cells == Pieces(program, h, w, b, edge, OffsetsK(i, j, l2))
  {
    cells := [];
    var n2 := if l2 > 0 then l2 else 0;
    for k := 0 to n2
      invariant cells == Pieces(program, h, w, b, edge, OffsetsK(i, j, k))
    {
      if i == 0 && j == 0 && k == 0 {
        assert OffsetsK(i, j, k + 1) == OffsetsK(i, j, k);
        continue;
      }
      assert OffsetsK(i, j, k + 1) == OffsetsK(i, j, k) + [Offset(i, j, k)];
      PiecesAppend(program, h, w, b, edge, OffsetsK(i, j, k), [Offset(i, j, k)]);
      if h - i < 0 || w - j < 0 || b - k < 0 {
        cells := cells + [edge];
      } else {
        cells := cells + [program(h - i, w - j, b - k)];
      }
    }
    assert OffsetsK(i, j, n2) == OffsetsK(i, j, l2);
  }

  /** Every look-back offset lies in the look-back box and is not the origin. */
  predicate InBox(o: Offset, l0: int, l1: int, l2: int)
  {
    0 <= o.i < l0 && 0 <= o.j < l1 && 0 <= o.k < l2 && o != Offset(0, 0, 0)
  }

  lemma {:induction false} OffsetsKInBox(i: int, j: int, n2: int, l0: int, l1: int)
    requires 0 <= i < l0 && 0 <= j < l1
    ensures forall o :: o in OffsetsK(i, j, n2) ==> InBox(o, l0, l1, n2) && o.i == i && o.j == j
    decreases n2
  {
    if n2 > 0 {
      OffsetsKInBox(i, j, n2 - 1, l0, l1);
    }
  }

  lemma {:induction false} OffsetsKCount(i: int, j: int, n2: int)
    requires i >= 0 && j >= 0
    ensures |OffsetsK(i, j, n2)| == if n2 <= 0 then 0 else if i == 0 && j == 0 then n2 - 1 else n2
    decreases n2
  {
    if n2 > 0 {
      OffsetsKCount(i, j, n2 - 1);
    }
  }

  lemma {:induction false} OffsetsJInBox(i: int, n1: int, l2: int, l0: int)
    requires 0 <= i < l0
    ensures forall o :: o in OffsetsJ(i, n1, l2) ==> InBox(o, l0, n1, l2)
    decreases n1
  {
    if n1 > 0 {
      OffsetsJInBox(i, n1 - 1, l2, l0);
      OffsetsKInBox(i, n1 - 1, l2, l0, n1);
    }
  }

  lemma {:induction false} OffsetsJCount(i: int, n1: int, l2: int)
    requires i >= 0 && l2 > 0
    ensures |OffsetsJ(i, n1, l2)| == if n1 <= 0 then 0 else if i == 0 then n1 * l2 - 1 else n1 * l2
    decreases n1
  {
    if n1 > 0 {
      OffsetsJCount(i, n1 - 1, l2);
      OffsetsKCount(i, n1 - 1, l2);
      Arith.MulSucc(n1 - 1, l2);
    }
  }

  /** Every look-back offset lies in the look-back box and is not the
      origin. */
  lemma {:induction false} OffsetsInBox(n0: int, l1: int, l2: int)
    ensures forall o :: o in Offsets(n0, l1, l2) ==> InBox(o, n0, l1, l2)
    decreases n0
  {
    if n0 > 0 {
      OffsetsInBox(n0 - 1, l1, l2);
      OffsetsJInBox(n0 - 1, l1, l2, n0);
    }
  }

  /** A `lookback_shape` of positive sides has one piece per cell of the box
      except the origin. */
  lemma {:induction false} OffsetsCount(n0: int, l1: int, l2: int)
    requires l1 > 0 && l2 > 0
    ensures |Offsets(n0, l1, l2)| == if n0 <= 0 then 0 else n0 * l1 * l2 - 1
    decreases n0
  {
    if n0 > 0 {
      OffsetsCount(n0 - 1, l1, l2);
      OffsetsJCount(n0 - 1, l1, l2);
      Arith.MulSucc(n0 - 1, l1);
      Arith.MulAddRight((n0 - 1) * l1, l1, l2);
    }
  }

  /** Row-major order of cells. */
  predicate Before(a: (int, int, int), c: (int, int, int))
  {
    a.0 < c.0 || (a.0 == c.0 && (a.1 < c.1 || (a.1 == c.1 && a.2 < c.2)))
  }

  /** The context of cell `(h, w, b)` only reads cells that come before it in
      the row-major order the generator fills the program in, so every
      program cell it reads was already built. */
  lemma ContextReadsEarlierCells(l0: int, l1: int, l2: int, h: int, w: int, b: int)
    requires l1 > 0 && l2 > 0
    ensures forall o :: o in Offsets(l0, l1, l2) ==> Before((h - o.i, w - o.j, b - o.k), (h, w, b))
  {
    OffsetsInBox(l0, l1, l2);
  }

  lemma {:induction false} ConcatWidth(ps: seq<seq<real>>, e: nat)
    requires forall n :: 0 <= n < |ps| ==> |ps[n]| == e
    ensures |Concat(ps)| == |ps| * e
  {
    if ps != [] {
      var init := ps[..|ps| - 1];
      ConcatWidth(init, e);
      assert |Concat(ps)| == |Concat(init)| + e;
      Arith.MulSucc(|init|, e);
    }
  }

  /** When the edge element and every program cell have the same width, the
      context is `prod(lookback_shape) - 1` times that width. */
  lemma ContextWidth(program: (int, int, int) -> seq<real>, lookback: (int, int, int),
                     h: int, w: int, b: int, edge: seq<real>)
    requires lookback.0 > 0 && lookback.1 > 0 && lookback.2 > 0
    requires forall x, y, z :: |program(x, y, z)| == |edge|
    ensures |Concat(Pieces(program, h, w, b, edge, Offsets(lookback.0, lookback.1, lookback.2)))|
         == (lookback.0 * lookback.1 * lookback.2 - 1) * |edge|
  {
    var os := Offsets(lookback.0, lookback.1, lookback.2);
    OffsetsCount(lookback.0, lookback.1, lookback.2);
    ConcatWidth(Pieces(program, h, w, b, edge, os), |edge|);
  }

  // ---------------------------------------------------------------------
  // The evaluator's fetch tree.

  /** A nested dictionary of tensors: a tensor (named by an id) or a
      dictionary of named subtrees. */
  datatype Tree = Leaf(tensor: int) | Node(kids: map<string, Tree>)

  /** The subtree at a path of keys, if every key on the way is there. */
  function Get(t: Tree, p: seq<string>): Option<Tree>
    decreases |p|
  {
    if p == [] then Some(t)
    else if t.Leaf? || p[0] !in t.kids then None
    else Get(t.kids[p[0]], p[1..])
  }

  /** `t` is `u` with some keys left out: every tensor of `t` is the tensor
      at the same place in `u`. */
  predicate Sub(t: Tree, u: Tree)
  {
    match t
    case Leaf(_) => t == u
    case Node(kids) => u.Node? && forall k :: k in kids ==> k in u.kids && Sub(kids[k], u.kids[k])
  }

  /** One key of `Evaluator.__init__`: walk `dst` and `src` down the
      `:`-separated path, creating empty dictionaries in `dst` on the way,
      and copy the last entry of `src` into `dst`. Looking up a missing key
      is a KeyError; subscripting a tensor, or asking a tensor whether it
      holds a key, is a TypeError. The right-hand side `src[_key]` is
      evaluated before the assignment into `dst`. */
  function Insert(dst: Tree, src: Tree, p: seq<string>): (r: Result<Tree>)
    requires |p| > 0
    ensures r.Ok? ==> r.value.Node?
    decreases |p|
  {
    var k := p[0];
    if |p| == 1 then
      if src.Leaf? then Err("TypeError")
      else if k !in src.kids then Err("KeyError")
      else if dst.Leaf? then Err("TypeError")
      else Ok(Node(dst.kids[k := src.kids[k]]))
    else if dst.Leaf? then Err("TypeError")
    else
      var child := if k in dst.kids then dst.kids[k] else Node(map[]);
      if src.Leaf? then Err("TypeError")
      else if k !in src.kids then Err("KeyError")
      else
        match Insert(child, src.kids[k], p[1..])
        case Ok(c) => Ok(Node(dst.kids[k := c]))
        case Err(e) => Err(e)
  }

  lemma {:induction false} SubRefl(t: Tree)
    ensures Sub(t, t)
  {
    match t
    case Leaf(_) =>
    case Node(kids) =>
      forall k | k in kids
        ensures Sub(kids[k], kids[k])
      {
        SubRefl(kids[k]);
      }
  }

  lemma {:induction false} SubAntisymmetric(a: Tree, b: Tree)
    requires Sub(a, b) && Sub(b, a)
    ensures a == b
  {
    match a
    case Leaf(_) =>
    case Node(kids) =>
      forall k | k in kids
        ensures kids[k] == b.kids[k]
      {
        SubAntisymmetric(kids[k], b.kids[k]);
      }
      assert kids == b.kids;
  }

  /** What a tree holds at a path, a larger tree holds too, and more. */
  lemma {:induction false} SubGet(a: Tree, b: Tree, p: seq<string>)
    requires Sub(a, b) && Get(a, p).Some?
    ensures Get(b, p).Some? && Sub(Get(a, p).value, Get(b, p).value)
    decreases |p|
  {
    if p != [] {
      SubGet(a.kids[p[0]], b.kids[p[0]], p[1..]);
    }
  }

  /** Inserting a path of `src` into a tree that only holds what `src`
      holds succeeds exactly when `src` has that path, copies what `src`
      holds there, keeps everything `dst` had, and adds nothing `src` does
      not hold. */
  lemma {:induction false} InsertSpec(dst: Tree, src: Tree, p: seq<string>)
    requires |p| > 0 && Sub(dst, src)
    ensures Insert(dst, src, p).Ok? <==> Get(src, p).Some?
    ensures Insert(dst, src, p).Ok? ==>
      var r := Insert(dst, src, p).value;
      Get(r, p) == Get(src, p) && Sub(dst, r) && Sub(r, src)
    decreases |p|
  {
    var k := p[0];
    if src.Node? && dst.Node? && k in src.kids {
      var r := Insert(dst, src, p);
      var c := src.kids[k];
      if |p| == 1 {
        SubRefl(c);
        assert Get(c, p[1..]) == Some(c);
      } else if src.kids[k].Leaf? {
        var child := if k in dst.kids then dst.kids[k] else Node(map[]);
        assert Insert(child, src.kids[k], p[1..]).Err?;
        assert Get(src.kids[k], p[1..]).None?;
      } else {
        var child := if k in dst.kids then dst.kids[k] else Node(map[]);
        InsertSpec(child, src.kids[k], p[1..]);
        if r.Ok? {
          c := Insert(child, src.kids[k], p[1..]).value;
        }
      }
      if r.Ok? {
        var kids := dst.kids[k := c];
        assert r.value == Node(kids);
        forall k' | k' in dst.kids
          ensures Sub(dst.kids[k'], kids[k'])
        {
          if k' != k {
            SubRefl(dst.kids[k']);
          }
        }
        assert Sub(r.value, src);
      }
    }
  }

  /** The fetch tree of `Evaluator.__init__` for the accessed keys, in the
      order `list(fetch_keys)` gives them: every key names a tensor, or a
      dictionary, of `tensors` reached along its `:`-separated path. */
  method BuildFetches(tensors: Tree, keys: seq<string>) returns (r: Result<Tree>)
    requires tensors.Node?
    ensures r.Ok? <==> forall i :: 0 <= i < |keys| ==> Get(tensors, Split(keys[i], ':')).Some?
    ensures r.Ok? ==> r.value.Node? && Sub(r.value, tensors)
    ensures r.Ok? ==> forall i :: 0 <= i < |keys| ==> Get(r.value, Split(keys[i], ':')) == Get(tensors, Split(keys[i], ':'))
    ensures r.Err? ==> r.error in {"KeyError", "TypeError"}
  {
    var fetches := Node(map[]);
    for i := 0 to |keys|
      invariant fetches.Node? && Sub(fetches, tensors)
      invariant forall j :: 0 <= j < i ==> Get(fetches, Split(keys[j], ':')) == Get(tensors, Split(keys[j], ':'))
      invariant forall j :: 0 <= j < i ==> Get(tensors, Split(keys[j], ':')).Some?
    {
      var path := Split(keys[i], ':');
      InsertSpec(fetches, tensors, path);
      var step := Insert(fetches, tensors, path);
      if step.Err? {
        InsertErrors(fetches, tensors, path);
        return Err(step.error);
      }
      var next := step.value;
      forall j | 0 <= j < i
        ensures Get(next, Split(keys[j], ':')) == Get(tensors, Split(keys[j], ':'))
      {
        var q := Split(keys[j], ':');
        SubGet(fetches, next, q);
        SubGet(next, tensors, q);
        SubAntisymmetric(Get(next, q).value, Get(tensors, q).value);
      }
      fetches := next;
    }
    return Ok(fetches);
  }

  lemma {:induction false} InsertErrors(dst: Tree, src: Tree, p: seq<string>)
    requires |p| > 0 && Insert(dst, src, p).Err?
    ensures Insert(dst, src, p).error in {"KeyError", "TypeError"}
    decreases |p|
  {
    if |p| > 1 && dst.Node? && src.Node? && p[0] in src.kids {
      var child := if p[0] in dst.kids then dst.kids[p[0]] else Node(map[]);
      InsertErrors(child, src.kids[p[0]], p[1..]);
    }
  }

  // ---------------------------------------------------------------------
  // `_evaluate`: the batch-size-weighted mean of the per-batch records.

  /** One batch's record: the recorded tensors updated with the evaluator's
      own values. */
  type Record = map<string, real>

  predicate HasBatchSizes(bs: seq<Record>)
  {
    forall i :: 0 <= i < |bs| ==> "batch_size" in bs[i]
  }

  /** The keys any batch records. */
  function KeysOf(bs: seq<Record>): set<string>
  {
    if bs == [] then {} else KeysOf(bs[..|bs| - 1]) + bs[|bs| - 1].Keys
  }

  /** `n_points`: the sum of the batch sizes. */
  function Points(bs: seq<Record>): real
    requires HasBatchSizes(bs)
  {
    if bs == [] then 0.0 else Points(bs[..|bs| - 1]) + bs[|bs| - 1]["batch_size"]
  }

  /** The sum of `batch_size * v` over the batches that record `k`. */
  function Weighted(bs: seq<Record>, k: string): (s: real)
    requires HasBatchSizes(bs)
    ensures k !in KeysOf(bs) ==> s == 0.0
  {
    if bs == [] then 0.0
    else
      var b := bs[|bs| - 1];
      Weighted(bs[..|bs| - 1], k) + (if k in b then b["batch_size"] * b[k] else 0.0)
  }

  /** `_evaluate(batch_size, mode)` over the batches of one pass through the
      validation set. Only the mode "val" is accepted; a batch that records
      no `batch_size` is a KeyError. The result maps every recorded key to
      its weighted sum divided by `n_points`; `None` stands for the NaN and
      infinite values numpy yields when the batch sizes sum to zero. */
  method Evaluate(mode: string, batches: seq<Record>) returns (r: Result<Option<Record>>)
    ensures mode != "val" ==> r == Err("AssertionError")
    ensures mode == "val" && !HasBatchSizes(batches) ==> r == Err("KeyError")
    ensures mode == "val" && HasBatchSizes(batches) ==>
      r.Ok? && (r.value.None? <==> batches != [] && Points(batches) == 0.0)
    ensures r.Ok? && r.value.Some? ==>
      && HasBatchSizes(batches)
      && (batches == [] ==> r.value.value == map[])
      && (batches != [] ==>
            && Points(batches) != 0.0 && r.value.value.Keys == KeysOf(batches)
            && forall k :: k in r.value.value ==> r.value.value[k] == Weighted(batches, k) / Points(batches))
  {
    if mode != "val" {
      return Err("AssertionError");
    }
    var sums := SumBatches(batches);
    if sums.None? {
      return Err("KeyError");
    }
    var (record, nPoints) := sums.value;
    if batches == [] {
      return Ok(Some(map[]));
    }
    if nPoints == 0.0 {
      return Ok(None);
    }
    return Ok(Some(map k | k in record :: record[k] / nPoints));
  }

  /** The loop of `_evaluate`: the weighted sums of every recorded key and
      `n_points`, or `None` when a batch records no `batch_size`. */
  method SumBatches(batches: seq<Record>) returns (r: Option<(Record, real)>)
    ensures r.Some? <==> HasBatchSizes(batches)
    ensures r.Some? ==>
      && r.value.0.Keys == KeysOf(batches)
      && (forall k :: k in r.value.0 ==> r.value.0[k] == Weighted(batches, k))
      && r.value.1 == Points(batches)
  {
    var record: Record := map[];
    var nPoints := 0.0;
    for i := 0 to |batches|
      invariant HasBatchSizes(batches[..i])
      invariant record.Keys == KeysOf(batches[..i])
      invariant forall k :: k in record ==> record[k] == Weighted(batches[..i], k)
      invariant nPoints == Points(batches[..i])
    {
      var b := batches[i];
      if "batch_size" !in b {
        return None;
      }
      var size := b["batch_size"];
      ghost var prev := batches[..i];
      assert batches[..i + 1] == prev + [b];
      ghost var before := record;
      record := AddBatch(record, b, size);
      SumsStep(prev, b, batches[..i + 1], before, record);
      nPoints := nPoints + size;
    }
    assert batches[..|batches|] == batches;
    return Some((record, nPoints));
  }

  /** `record[k] += batch_size * v` for every item of one batch, into a
      record that starts every missing key at 0.0. */
  method AddBatch(record: Record, b: Record, size: real) returns (next: Record)
    ensures next.Keys == record.Keys + b.Keys
    ensures forall k :: k in next ==>
      next[k] == (if k in record then record[k] else 0.0) + (if k in b then size * b[k] else 0.0)
  {
    next := record;
    var todo := b.Keys;
    while todo != {}
      invariant todo <= b.Keys
      invariant next.Keys == record.Keys + (b.Keys - todo)
      invariant forall k :: k in next ==>
        next[k] == (if k in record then record[k] else 0.0) + (if k in b && k !in todo then size * b[k] else 0.0)
      decreases todo
    {
      var k :| k in todo;
      next := next[k := (if k in next then next[k] else 0.0) + size * b[k]];
      todo := todo - {k};
    }
  }

  /** Adding a batch to the sums of the earlier batches gives the sums of
      all of them. */
  lemma SumsStep(prev: seq<Record>, b: Record, bs: seq<Record>, before: Record, after: Record)
    requires bs == prev + [b] && HasBatchSizes(bs)
    requires before.Keys == KeysOf(prev) && HasBatchSizes(prev)
    requires forall k :: k in before ==> before[k] == Weighted(prev, k)
    requires after.Keys == before.Keys + b.Keys && "batch_size" in b
    requires forall k :: k in after ==>
      after[k] == (if k in before then before[k] else 0.0) + (if k in b then b["batch_size"] * b[k] else 0.0)
    ensures after.Keys == KeysOf(bs) && Points(bs) == Points(prev) + b["batch_size"]
    ensures forall k :: k in after ==> after[k] == Weighted(bs, k)
  {
    WeightedSnoc(prev, b, bs);
    forall k | k in after
      ensures after[k] == Weighted(bs, k)
    {
      if k !in before {
        assert k !in KeysOf(prev) && Weighted(prev, k) == 0.0;
      }
    }
  }

  lemma WeightedSnoc(prev: seq<Record>, b: Record, bs: seq<Record>)
    requires bs == prev + [b] && HasBatchSizes(bs)
    ensures HasBatchSizes(prev) && bs[..|bs| - 1] == prev
    ensures KeysOf(bs) == KeysOf(prev) + b.Keys
    ensures Points(bs) == Points(prev) + b["batch_size"]
    ensures forall k :: Weighted(bs, k) == Weighted(prev, k) + (if k in b then b["batch_size"] * b[k] else 0.0)
  {
    assert bs[..|bs| - 1] == prev;
    assert bs[|bs| - 1] == b;
    forall i | 0 <= i < |prev|
      ensures "batch_size" in prev[i]
    {
      assert prev[i] == bs[i];
    }
    forall k
      ensures Weighted(bs, k) == Weighted(prev, k) + (if k in b then b["batch_size"] * b[k] else 0.0)
    {
    }
  }

  lemma ScaleBetween(size: real, lo: real, v: real, hi: real)
    requires size >= 0.0 && lo <= v <= hi
    ensures size * lo <= size * v <= size * hi
  {
  }

  /** With non-negative batch sizes, a key every batch records at least at
      `lo` has a weighted sum of at least `lo` times `n_points`. */
  lemma {:induction false} WeightedAbove(bs: seq<Record>, k: string, lo: real)
    requires HasBatchSizes(bs)
    requires forall i :: 0 <= i < |bs| ==> bs[i]["batch_size"] >= 0.0 && k in bs[i] && lo <= bs[i][k]
    ensures lo * Points(bs) <= Weighted(bs, k)
  {
    if bs != [] {
      var init, b := bs[..|bs| - 1], bs[|bs| - 1];
      WeightedAbove(init, k, lo);
      StepAbove(lo, Points(init), Weighted(init, k), b["batch_size"], b[k], Points(bs), Weighted(bs, k));
    }
  }

  /** ... and one recorded at most at `hi` has a weighted sum of at most
      `hi` times `n_points`. */
  lemma {:induction false} WeightedBelow(bs: seq<Record>, k: string, hi: real)
    requires HasBatchSizes(bs)
    requires forall i :: 0 <= i < |bs| ==> bs[i]["batch_size"] >= 0.0 && k in bs[i] && bs[i][k] <= hi
    ensures Weighted(bs, k) <= hi * Points(bs)
  {
    if bs != [] {
      var init, b := bs[..|bs| - 1], bs[|bs| - 1];
      WeightedBelow(init, k, hi);
      StepBelow(hi, Points(init), Weighted(init, k), b["batch_size"], b[k], Points(bs), Weighted(bs, k));
    }
  }

  lemma StepBelow(hi: real, p0: real, w0: real, s: real, v: real, p: real, w: real)
    requires w0 <= hi * p0 && s >= 0.0 && v <= hi
    requires p == p0 + s && w == w0 + s * v
    ensures w <= hi * p
  {
    assert s * v <= s * hi;
    Distribute(hi, p0, s);
  }

  /** One more batch of size `s` and value `v >= lo` keeps the weighted sum
      at least `lo` times the points. */
  lemma StepAbove(lo: real, p0: real, w0: real, s: real, v: real, p: real, w: real)
    requires lo * p0 <= w0 && s >= 0.0 && lo <= v
    requires p == p0 + s && w == w0 + s * v
    ensures lo * p <= w
  {
    assert s * lo <= s * v;
    Distribute(lo, p0, s);
  }

  lemma Distribute(a: real, x: real, y: real)
    ensures a * (x + y) == a * x + y * a
  {
  }

  /** The evaluated mean of a metric lies between its smallest and largest
      per-batch values; in particular a metric that is the same on every
      batch evaluates to that value. */
  lemma MeanBetween(batches: seq<Record>, k: string, lo: real, hi: real)
    requires HasBatchSizes(batches) && batches != [] && Points(batches) != 0.0
    requires forall i :: 0 <= i < |batches| ==> batches[i]["batch_size"] >= 0.0 && k in batches[i] && lo <= batches[i][k] <= hi
    ensures Points(batches) > 0.0
    ensures lo <= Weighted(batches, k) / Points(batches) <= hi
  {
    PointsNonNegative(batches);
    var p := Points(batches);
    WeightedAbove(batches, k, lo);
    WeightedBelow(batches, k, hi);
    MeanFromBounds(lo, hi, Weighted(batches, k), p);
  }

  lemma MeanFromBounds(lo: real, hi: real, w: real, p: real)
    requires p > 0.0 && lo * p <= w <= hi * p
    ensures lo <= w / p <= hi
  {
    DivideBetween(lo * p, w, hi * p, p);
    Cancel(lo, p);
    Cancel(hi, p);
  }

  lemma Cancel(a: real, p: real)
    requires p != 0.0
    ensures a * p / p == a
  {
  }

  lemma DivideBetween(a: real, x: real, c: real, p: real)
    requires p > 0.0 && a <= x <= c
    ensures a / p <= x / p <= c / p
  {
  }

  lemma {:induction false} PointsNonNegative(bs: seq<Record>)
    requires HasBatchSizes(bs) && forall i :: 0 <= i < |bs| ==> bs[i]["batch_size"] >= 0.0
    ensures Points(bs) >= 0.0
  {
    if bs != [] {
      PointsNonNegative(bs[..|bs| - 1]);
    }
  }

  // ---------------------------------------------------------------------
  // The RL cost accumulators.

  /** An entry of `COST_funcs`: its weight, the cost it yields at one cell,
      and the accumulator it feeds. */
  datatype CostFunc = CostFunc(name: string, weight: real, cost: real, kind: string)

  /** The weighted costs of the entries of one kind. */
  function KindTotal(fs: seq<CostFunc>, kind: string): real
  {
    if fs == [] then 0.0
    else KindTotal(fs[..|fs| - 1], kind) + (if fs[|fs| - 1].kind == kind then fs[|fs| - 1].weight * fs[|fs| - 1].cost else 0.0)
  }

  /** The weighted costs of all entries. */
  function WeightedTotal(fs: seq<CostFunc>): real
  {
    if fs == [] then 0.0 else WeightedTotal(fs[..|fs| - 1]) + fs[|fs| - 1].weight * fs[|fs| - 1].cost
  }

  predicate KnownKind(f: CostFunc)
  {
    f.kind in {"both", "obj", "z"}
  }

  /** The loop over `COST_funcs` in `build_graph`: each weighted cost is
      added to `COST`, `COST_obj` or `COST_z` by its kind; any other kind
      raises. The result is `(COST, COST_obj, COST_z)` at one cell. */
  method AccumulateCosts(fs: seq<CostFunc>) returns (r: Result<(real, real, real)>)
    ensures r.Ok? <==> forall i :: 0 <= i < |fs| ==> KnownKind(fs[i])
    ensures r.Err? ==> r.error == "Exception"
    ensures r.Ok? ==> r.value == (KindTotal(fs, "both"), KindTotal(fs, "obj"), KindTotal(fs, "z"))
  {
    var cost, costObj, costZ := 0.0, 0.0, 0.0;
    for i := 0 to |fs|
      invariant forall j :: 0 <= j < i ==> KnownKind(fs[j])
      invariant cost == KindTotal(fs[..i], "both") && costObj == KindTotal(fs[..i], "obj") && costZ == KindTotal(fs[..i], "z")
    {
      assert fs[..i + 1][..i] == fs[..i];
      var weighted := fs[i].weight * fs[i].cost;
      if fs[i].kind == "both" {
        cost := cost + weighted;
      } else if fs[i].kind == "obj" {
        costObj := costObj + weighted;
      } else if fs[i].kind == "z" {
        costZ := costZ + weighted;
      } else {
        return Err("Exception");
      }
    }
    assert fs[..|fs|] == fs;
    return Ok((cost, costObj, costZ));
  }

  /** `TOTAL_COST`: when every kind is known, the three accumulators
      together hold every weighted cost exactly once. */
  lemma {:induction false} TotalCost(fs: seq<CostFunc>)
    requires forall i :: 0 <= i < |fs| ==> KnownKind(fs[i])
    ensures KindTotal(fs, "both") + KindTotal(fs, "obj") + KindTotal(fs, "z") == WeightedTotal(fs)
  {
    if fs != [] {
      TotalCost(fs[..|fs| - 1]);
    }
  }

  /** The network's own `COST_funcs`: the reconstruction cost with weight 1
      feeds `COST`, the nonzero and area costs feed `COST_obj`, and nothing
      feeds `COST_z`. */
  function DefaultCostFuncs(reconstruction: real, nonzeroWeight: real, nonzero: real, areaWeight: real, area: real): seq<CostFunc>
  {
    [CostFunc("reconstruction", 1.0, reconstruction, "both"),
     CostFunc("nonzero", nonzeroWeight, nonzero, "obj"),
     CostFunc("area", areaWeight, area, "obj")]
  }

  lemma DefaultCosts(reconstruction: real, nonzeroWeight: real, nonzero: real, areaWeight: real, area: real)
    ensures var fs := DefaultCostFuncs(reconstruction, nonzeroWeight, nonzero, areaWeight, area);
      && (forall i :: 0 <= i < |fs| ==> KnownKind(fs[i]))
      && KindTotal(fs, "both") == reconstruction
      && KindTotal(fs, "obj") == nonzeroWeight * nonzero + areaWeight * area
      && KindTotal(fs, "z") == 0.0
  {
    var fs := DefaultCostFuncs(reconstruction, nonzeroWeight, nonzero, areaWeight, area);
    var f0, f1, f2 := fs[0], fs[1], fs[2];
    var e: seq<CostFunc> := [];
    assert fs == ((e + [f0]) + [f1]) + [f2];
    KindTotalsSnoc(e, f0);
    KindTotalsSnoc(e + [f0], f1);
    KindTotalsSnoc((e + [f0]) + [f1], f2);
  }

  /** Appending an entry adds its weighted cost to its own kind's total only. */
  lemma KindTotalsSnoc(fs: seq<CostFunc>, f: CostFunc)
    ensures KindTotal(fs + [f], "both") == KindTotal(fs, "both") + (if f.kind == "both" then f.weight * f.cost else 0.0)
    ensures KindTotal(fs + [f], "obj") == KindTotal(fs, "obj") + (if f.kind == "obj" then f.weight * f.cost else 0.0)
    ensures KindTotal(fs + [f], "z") == KindTotal(fs, "z") + (if f.kind == "z" then f.weight * f.cost else 0.0)
  {
    assert (fs + [f])[..|fs|] == fs;
  }

  // ---------------------------------------------------------------------
  // The box lists handed to mAP by `yolo_rl_mAP`.

  /** An annotation row `(cls, *rest)`. */
  datatype Annotation = Annotation(cls: real, rest: seq<real>)

  /** `[[0, *rest] for (cls, *rest), _ in zip(annotations[idx],
      range(n_annotations[idx]))]`. */
  function GroundTruth(ann: seq<Annotation>, n: int): (r: seq<seq<real>>)
    ensures |r| == if n <= 0 then 0 else if n < |ann| then n else |ann|
    ensures forall i :: 0 <= i < |r| ==> r[i] == [0.0] + ann[i].rest
  {
    if ann == [] || n <= 0 then []
    else [[0.0] + ann[0].rest] + GroundTruth(ann[1..], n - 1)
  }

  /** The network's output at one cell: objectness and box edges. */
  datatype CellOut = CellOut(obj: real, top: real, bottom: real, left: real, right: real)

  /** A cell of the grid: row, column and anchor box. */
  datatype Cell = Cell(i: int, j: int, b: int)

  function Box(c: CellOut): seq<real>
  {
    [0.0, c.obj, c.top, c.bottom, c.left, c.right]
  }

  /** The cells `(i, j, b)` for `b < nb`. */
  function CellsB(i: int, j: int, nb: int): seq<Cell>
    decreases nb
  {
    if nb <= 0 then [] else CellsB(i, j, nb - 1) + [Cell(i, j, nb - 1)]
  }

  function CellsW(i: int, nw: int, nb: int): seq<Cell>
    decreases nw
  {
    if nw <= 0 then [] else CellsW(i, nw - 1, nb) + CellsB(i, nw - 1, nb)
  }

  /** The cells of an `nh` by `nw` by `nb` grid in the order of three
      nested loops over `H`, `W` and `B`. */
  function Cells(nh: int, nw: int, nb: int): seq<Cell>
    decreases nh
  {
    if nh <= 0 then [] else Cells(nh - 1, nw, nb) + CellsW(nh - 1, nw, nb)
  }

  /** The boxes of the cells whose objectness is positive, in order: no more
      boxes than cells, each of six entries with a positive confidence. */
  function Positive(out: Cell -> CellOut, cs: seq<Cell>): (r: seq<seq<real>>)
    ensures |r| <= |cs|
    ensures forall i :: 0 <= i < |r| ==> |r[i]| == 6 && r[i][1] > 0.0
  {
    if cs == [] then []
    else Positive(out, cs[..|cs| - 1]) + (if out(cs[|cs| - 1]).obj > 0.0 then [Box(out(cs[|cs| - 1]))] else [])
  }

  lemma PositiveAppend(out: Cell -> CellOut, a: seq<Cell>, c: seq<Cell>)
    ensures Positive(out, a + c) == Positive(out, a) + Positive(out, c)
    decreases |c|
  {
    if c != [] {
      PositiveAppend(out, a, c[..|c| - 1]);
      assert (a + c)[..|a + c| - 1] == a + c[..|c| - 1];
    } else {
      assert a + c == a;
    }
  }

  /** The predicted boxes of one image in `yolo_rl_mAP`: the cells are
      visited row by row, anchor by anchor, and only cells with positive
      objectness give a box. */
  method PredictedBoxes(out: Cell -> CellOut, H: int, W: int, B: int) returns (boxes: seq<seq<real>>)
    ensures boxes == Positive(out, Cells(H, W, B))
  {
    boxes := [];
    var nh := if H > 0 then H else 0;
    for i := 0 to nh
      invariant boxes == Positive(out, Cells(i, W, B))
    {
      var row := RowBoxes(out, i, W, B);
      PositiveGridStep(out, i, W, B);
      boxes := boxes + row;
    }
    assert Cells(nh, W, B) == Cells(H, W, B);
  }

  /** The middle loop of `yolo_rl_mAP`, over the cells of one row. */
  method RowBoxes(out: Cell -> CellOut, i: int, W: int, B: int) returns (boxes: seq<seq<real>>)
    ensures boxes == Positive(out, CellsW(i, W, B))
  {
    boxes := [];
    var nw := if W > 0 then W else 0;
    for j := 0 to nw
      invariant boxes == Positive(out, CellsW(i, j, B))
    {
      var anchors := AnchorBoxes(out, i, j, B);
      PositiveRowStep(out, i, j, B);
      boxes := boxes + anchors;
    }
    assert CellsW(i, nw, B) == CellsW(i, W, B);
  }

  lemma PositiveGridStep(out: Cell -> CellOut, i: nat, W: int, B: int)
    ensures Positive(out, Cells(i + 1, W, B)) == Positive(out, Cells(i, W, B)) + Positive(out, CellsW(i, W, B))
  {
    assert Cells(i + 1, W, B) == Cells(i, W, B) + CellsW(i, W, B);
    PositiveAppend(out, Cells(i, W, B), CellsW(i, W, B));
  }

  lemma PositiveRowStep(out: Cell -> CellOut, i: int, j: nat, B: int)
    ensures Positive(out, CellsW(i, j + 1, B)) == Positive(out, CellsW(i, j, B)) + Positive(out, CellsB(i, j, B))
  {
    assert CellsW(i, j + 1, B) == CellsW(i, j, B) + CellsB(i, j, B);
    PositiveAppend(out, CellsW(i, j, B), CellsB(i, j, B));
  }

  lemma PositiveAnchorStep(out: Cell -> CellOut, i: int, j: int, b: nat)
    ensures Positive(out, CellsB(i, j, b + 1))
      == Positive(out, CellsB(i, j, b)) + (if out(Cell(i, j, b)).obj > 0.0 then [Box(out(Cell(i, j, b)))] else [])
  {
    CellsBCount(i, j, b);
    assert CellsB(i, j, b + 1)[..b] == CellsB(i, j, b);
  }

  /** The innermost loop of `yolo_rl_mAP`, over the anchor boxes of one
      cell of the grid. */
  method AnchorBoxes(out: Cell -> CellOut, i: int, j: int, B: int) returns (boxes: seq<seq<real>>)
    ensures boxes == Positive(out, CellsB(i, j, B))
  {
    boxes := [];
    var nb := if B > 0 then B else 0;
    for b := 0 to nb
      invariant boxes == Positive(out, CellsB(i, j, b))
    {
      PositiveAnchorStep(out, i, j, b);
      var o := out(Cell(i, j, b)).obj;
      if o > 0.0 {
        boxes := boxes + [Box(out(Cell(i, j, b)))];
      }
    }
    assert CellsB(i, j, nb) == CellsB(i, j, B);
  }

  /** A box is listed exactly when a visited cell has positive objectness,
      and there are never more boxes than cells. */
  lemma PositiveSpec(out: Cell -> CellOut, cs: seq<Cell>)
    ensures |Positive(out, cs)| <= |cs|
    ensures forall x :: x in Positive(out, cs) ==> |x| == 6 && x[1] > 0.0 && exists c :: c in cs && x == Box(out(c))
    ensures forall c :: c in cs && out(c).obj > 0.0 ==> Box(out(c)) in Positive(out, cs)
  {
    PositiveSound(out, cs);
    PositiveComplete(out, cs);
    forall x | x in Positive(out, cs)
      ensures |x| == 6 && x[1] > 0.0 && exists c :: c in cs && x == Box(out(c))
    {
      var c :| c in cs && out(c).obj > 0.0 && x == Box(out(c));
    }
  }

  /** Every listed box is the box of a visited cell with positive objectness. */
  lemma {:induction false} PositiveSound(out: Cell -> CellOut, cs: seq<Cell>)
    ensures forall x :: x in Positive(out, cs) ==> exists c :: c in cs && out(c).obj > 0.0 && x == Box(out(c))
  {
    if cs != [] {
      var init, last := cs[..|cs| - 1], cs[|cs| - 1];
      PositiveSound(out, init);
      assert cs == init + [last];
      forall x | x in Positive(out, cs)
        ensures exists c :: c in cs && out(c).obj > 0.0 && x == Box(out(c))
      {
        if x in Positive(out, init) {
          var c :| c in init && out(c).obj > 0.0 && x == Box(out(c));
          assert c in cs;
        } else {
          assert last in cs && x == Box(out(last));
        }
      }
    }
  }

  /** The box of every visited cell with positive objectness is listed. */
  lemma {:induction false} PositiveComplete(out: Cell -> CellOut, cs: seq<Cell>)
    ensures forall c :: c in cs && out(c).obj > 0.0 ==> Box(out(c)) in Positive(out, cs)
  {
    if cs != [] {
      var init, last := cs[..|cs| - 1], cs[|cs| - 1];
      PositiveComplete(out, init);
      assert cs == init + [last];
    }
  }

  lemma {:induction false} CellsBCount(i: int, j: int, nb: int)
    ensures |CellsB(i, j, nb)| == if nb <= 0 then 0 else nb
    ensures forall c :: c in CellsB(i, j, nb) ==> c.i == i && c.j == j && 0 <= c.b < nb
    decreases nb
  {
    if nb > 0 {
      CellsBCount(i, j, nb - 1);
    }
  }

  lemma {:induction false} CellsWCount(i: int, nw: int, nb: int)
    requires nb >= 0
    ensures |CellsW(i, nw, nb)| == if nw <= 0 then 0 else nw * nb
    ensures forall c :: c in CellsW(i, nw, nb) ==> c.i == i && 0 <= c.j < nw && 0 <= c.b < nb
    decreases nw
  {
    if nw > 0 {
      CellsWCount(i, nw - 1, nb);
      CellsBCount(i, nw - 1, nb);
      Arith.MulSucc(nw - 1, nb);
    }
  }

  /** The loops visit `H * W * B` cells, all inside the grid. */
  lemma {:induction false} CellsCount(nh: int, nw: int, nb: int)
    requires nw >= 0 && nb >= 0
    ensures |Cells(nh, nw, nb)| == if nh <= 0 then 0 else nh * nw * nb
    decreases nh
  {
    if nh > 0 {
      CellsCount(nh - 1, nw, nb);
      CellsWCount(nh - 1, nw, nb);
      Arith.MulSucc(nh - 1, nw);
      Arith.MulAddRight((nh - 1) * nw, nw, nb);
    }
  }

  lemma {:induction false} CellsInGrid(nh: int, nw: int, nb: int)
    requires nw >= 0 && nb >= 0
    ensures forall c :: c in Cells(nh, nw, nb) ==> 0 <= c.i < nh && 0 <= c.j < nw && 0 <= c.b < nb
    decreases nh
  {
    if nh > 0 {
      CellsInGrid(nh - 1, nw, nb);
      CellsWCount(nh - 1, nw, nb);
      forall c | c in Cells(nh, nw, nb)
        ensures 0 <= c.i < nh && 0 <= c.j < nw && 0 <= c.b < nb
      {
        if c !in Cells(nh - 1, nw, nb) {
          assert c in CellsW(nh - 1, nw, nb);
        }
      }
    }
  }
}
