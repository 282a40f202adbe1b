/** The discrete parts of `YOLO_AIR_Network` in dps/env/advanced/yolo_air.py:
    the grid and its `HWB` cells, the `{box, obj}` order check, the width of
    the edge element and of every built program cell in the sequential
    generator, and the object-count metrics. The grid arithmetic, the order
    check, `_get_sequential_input` and the `Evaluator` fetch tree are the same
    code as in yolo_rl.py and are taken from `YoloRL`. */
module YoloAir {
  import opened Wrappers
  import YoloRL
  import Arith

  /** The parts of a YOLO-AIR program: the keys of `layer_params`. */
  const AirKinds: set<string> := {"box", "obj"}

  /** `H * W * B`, the number of program cells. */
  function HWB(g: YoloRL.Grid): int
  {
    g.H * g.W * g.B
  }

  /** The triple loop over `range(H)`, `range(W)`, `range(B)` that builds the
      program visits `HWB` cells, the value `n_objects` is filled with. */
  lemma HWBIsCellCount(imageHeight: int, imageWidth: int, ppc: (int, int), nAnchors: nat)
    requires imageHeight > 0 && imageWidth > 0 && ppc.0 > 0 && ppc.1 > 0
    ensures var g := YoloRL.GridSizes(imageHeight, imageWidth, ppc, nAnchors).value;
      |YoloRL.Cells(g.H, g.W, g.B)| == HWB(g) && HWB(g) >= 0
      && (nAnchors > 0 ==> HWB(g) > 0)
  {
    var g := YoloRL.GridSizes(imageHeight, imageWidth, ppc, nAnchors).value;
    YoloRL.GridCovers(imageHeight, imageWidth, ppc, nAnchors);
    YoloRL.CellsCount(g.H, g.W, g.B);
    assert g.H * g.W >= 1 by { Arith.MulMonotone(1, g.H, g.W); }
    Arith.MulMonotone(0, g.H * g.W, g.B);
    if nAnchors > 0 {
      Arith.MulMonotone(1, g.H * g.W, g.B);
    }
  }

  /** `order` as `__init__` leaves it: split when a string, and its set of
      kinds asserted to be `{box, obj}`. */
  function CheckAirOrder(order: YoloRL.OrderParam): (r: Result<seq<string>>)
  {
    YoloRL.CheckOrder(order, AirKinds)
  }

  /** The default `"box obj"` passes; so does a kind listed twice, since only
      the set of kinds is compared; a missing kind does not. */
  lemma CheckAirOrderExamples()
    ensures CheckAirOrder(YoloRL.OrderList(["box", "obj"])) == Ok(["box", "obj"])
    ensures CheckAirOrder(YoloRL.OrderList(["obj", "box", "obj"])).Ok?
    ensures CheckAirOrder(YoloRL.OrderList(["box"])) == Err("AssertionError")
  {
    assert (set k | k in ["box", "obj"]) == AirKinds;
    assert (set k | k in ["obj", "box", "obj"]) == AirKinds;
    assert "obj" !in (set k | k in ["box"]);
  }

  /** `layer_params[kind]['sample_size']`: 4 for a box, 1 for an
      objectness flag; any other kind is not a key. */
  function SampleSize(kind: string): (r: Result<nat>)
  {
    if kind == "box" then Ok(4) else if kind == "obj" then Ok(1) else Err("KeyError")
  }

  predicate KnownKinds(order: seq<string>)
  {
    forall i :: 0 <= i < |order| ==> order[i] in AirKinds
  }

  /** `total_sample_size`: the sample sizes of the kinds of `order`, summed. */
  function EdgeWidth(order: seq<string>): (r: Result<nat>)
    ensures r.Ok? <==> KnownKinds(order)
    ensures r.Err? ==> r.error == "KeyError"
    decreases |order|
  {
    if order == [] then Ok(0)
    else
      var init := order[..|order| - 1];
      assert forall i :: 0 <= i < |init| ==> init[i] == order[i];
      match EdgeWidth(init)
      case Err(e) => Err(e)
      case Ok(w) =>
        match SampleSize(order[|order| - 1])
        case Err(e) => Err(e)
        case Ok(s) => Ok(w + s)
  }

  /** How often `kind` occurs in `order`. */
  function Occurrences(order: seq<string>, kind: string): nat
    decreases |order|
  {
    if order == [] then 0
    else Occurrences(order[..|order| - 1], kind) + (if order[|order| - 1] == kind then 1 else 0)
  }

  /** The edge element is four values per `box` and one per `obj` in the order. */
  lemma {:induction false} EdgeWidthCounts(order: seq<string>)
    requires KnownKinds(order)
    ensures EdgeWidth(order) == Ok(4 * Occurrences(order, "box") + Occurrences(order, "obj"))
    decreases |order|
  {
    if order != [] {
      var init := order[..|order| - 1];
      assert KnownKinds(init) by {
        assert forall i :: 0 <= i < |init| ==> init[i] == order[i];
      }
      EdgeWidthCounts(init);
    }
  }

  /** Every kind occurs in an order the check accepts, so the edge element
      is at least five wide. */
  lemma AcceptedOrderWidth(order: YoloRL.OrderParam)
    requires CheckAirOrder(order).Ok?
    ensures var ks := CheckAirOrder(order).value;
      KnownKinds(ks) && EdgeWidth(ks).Ok? && EdgeWidth(ks).value >= 5
  {
    var ks := CheckAirOrder(order).value;
    assert (set k | k in ks) == AirKinds;
    assert KnownKinds(ks) by {
      forall i | 0 <= i < |ks| ensures ks[i] in AirKinds {
        assert ks[i] in (set k | k in ks);
      }
    }
    EdgeWidthCounts(ks);
    assert "box" in ks && "obj" in ks by {
      assert "box" in (set k | k in ks) && "obj" in (set k | k in ks);
    }
    OccursPositive(ks, "box");
    OccursPositive(ks, "obj");
  }

  lemma {:induction false} OccursPositive(order: seq<string>, kind: string)
    requires kind in order
    ensures Occurrences(order, kind) >= 1
    decreases |order|
  {
    if order[|order| - 1] != kind {
      var init := order[..|order| - 1];
      assert order == init + [order[|order| - 1]];
      assert kind in init;
      OccursPositive(init, kind);
    }
  }

  lemma DefaultOrderWidth()
    ensures EdgeWidth(["box", "obj"]) == Ok(5)
  {
    assert ["box", "obj"][..1] == ["box"];
    assert ["box"][..0] == [];
  }

  /** The four values `_build_box` samples for a cell: `cell_y`, `cell_x`, `h`, `w`. */
  datatype BoxSample = BoxSample(cellY: real, cellX: real, h: real, w: real)

  /** `built['program']` of the builder of `kind`: `_build_box` concatenates
      its four samples, `_build_obj` gives the one objectness sample. */
  function KindProgram(kind: string, box: BoxSample, obj: real): seq<real>
    requires kind in AirKinds
  {
    if kind == "box" then [box.cellY, box.cellX, box.h, box.w] else [obj]
  }

  /** `program[h, w, b]`: the built programs of the kinds of `order`,
      concatenated in order; `boxes(i)` and `objs(i)` are what the builder
      at position `i` samples. */
  function CellProgram(order: seq<string>, boxes: nat -> BoxSample, objs: nat -> real): seq<real>
    requires KnownKinds(order)
    decreases |order|
  {
    if order == [] then []
    else
      var n := |order| - 1;
      var init := order[..n];
      assert forall i :: 0 <= i < |init| ==> init[i] == order[i];
      CellProgram(init, boxes, objs) + KindProgram(order[n], boxes(n), objs(n))
  }

  /** Every built program cell is exactly as wide as the edge element: the
      `assert program[h, w, b].shape[1] == total_sample_size` never fails. */
  lemma {:induction false} CellProgramWidth(order: seq<string>, boxes: nat -> BoxSample, objs: nat -> real)
    requires KnownKinds(order)
    ensures |CellProgram(order, boxes, objs)| == EdgeWidth(order).value
    decreases |order|
  {
    if order != [] {
      var n := |order| - 1;
      var init := order[..n];
      assert KnownKinds(init) by {
        assert forall i :: 0 <= i < |init| ==> init[i] == order[i];
      }
      CellProgramWidth(init, boxes, objs);
    }
  }

  /** The inner loop of `_build_program_generator_sequential` over `order`
      for one cell: look up each kind's parameters, append what its builder
      returns to the partial program, then check the width. An unknown kind
      is a `KeyError` (raised by `total_sample_size` before the loop). With
      no kinds, splitting the edge weights into no pieces and concatenating
      none fail before any cell is built (`ValueError`). */
  method BuildCellProgram(order: seq<string>, boxes: nat -> BoxSample, objs: nat -> real)
    returns (r: Result<seq<real>>)
    ensures !KnownKinds(order) ==> r == Err("KeyError")
    ensures KnownKinds(order) && order == [] ==> r == Err("ValueError")
    ensures KnownKinds(order) && order != [] ==>
      r == Ok(CellProgram(order, boxes, objs)) && |r.value| == EdgeWidth(order).value
  {
    var total := EdgeWidth(order);
    if total.Err? {
      return Err(total.error);
    }
    if order == [] {
      return Err("ValueError");
    }
    var partial: seq<real> := [];
    for i := 0 to |order|
      invariant partial == CellProgram(order[..i], boxes, objs)
    {
      assert order[..i + 1][..i] == order[..i];
      partial := partial + KindProgram(order[i], boxes(i), objs(i));
    }
    assert order[..|order|] == order;
    CellProgramWidth(order, boxes, objs);
    assert |partial| == total.value;
    r := Ok(partial);
  }

  /** With every cell of the program and the edge element `total_sample_size`
      wide, the context `_get_sequential_input` builds is
      `prod(lookback_shape) - 1` times that width. */
  lemma SequentialContextWidth(order: seq<string>, cell: (int, int, int) -> seq<real>, lookback: (int, int, int),
                               h: int, w: int, b: int, edge: seq<real>)
    requires KnownKinds(order) && lookback.0 > 0 && lookback.1 > 0 && lookback.2 > 0
    requires |edge| == EdgeWidth(order).value
    requires forall x, y, z :: |cell(x, y, z)| == EdgeWidth(order).value
    ensures |YoloRL.Concat(YoloRL.Pieces(cell, h, w, b, edge, YoloRL.Offsets(lookback.0, lookback.1, lookback.2)))|
         == (lookback.0 * lookback.1 * lookback.2 - 1) * EdgeWidth(order).value
  {
    YoloRL.ContextWidth(cell, lookback, h, w, b, edge);
  }

  // ---------------------------------------------------------------------
  // Object counts.

  /** `hard_n_objects` of one image: the cells whose `obj` exceeds one half,
      so never more than there are cells. */
  function HardCount(objs: seq<real>): (c: nat)
    ensures c <= |objs|
    decreases |objs|
  {
    if objs == [] then 0
    else HardCount(objs[..|objs| - 1]) + (if objs[|objs| - 1] > 0.5 then 1 else 0)
  }

  /** `soft_n_objects` of one image: the `obj` values summed. With every
      `obj` in [0, 1] it lies between 0 and the number of cells. */
  function SoftCount(objs: seq<real>): (c: real)
    ensures (forall i :: 0 <= i < |objs| ==> 0.0 <= objs[i] <= 1.0) ==> 0.0 <= c <= |objs| as real
    decreases |objs|
  {
    if objs == [] then 0.0
    else
      var init := objs[..|objs| - 1];
      assert forall i :: 0 <= i < |init| ==> init[i] == objs[i];
      SoftCount(init) + objs[|objs| - 1]
  }

  /** At most every cell is counted; every cell exactly when every `obj`
      exceeds one half, and none exactly when none does. */
  lemma {:induction false} HardCountBounds(objs: seq<real>)
    ensures HardCount(objs) <= |objs|
    ensures HardCount(objs) == |objs| <==> forall i :: 0 <= i < |objs| ==> objs[i] > 0.5
    ensures HardCount(objs) == 0 <==> forall i :: 0 <= i < |objs| ==> objs[i] <= 0.5
    decreases |objs|
  {
    if objs != [] {
      var init := objs[..|objs| - 1];
      HardCountBounds(init);
      assert forall i :: 0 <= i < |init| ==> init[i] == objs[i];
    }
  }

  /** With every `obj` in [0, 1] (a sigmoid output), the soft count is more
      than half the hard count and at most the hard count plus half of the
      other cells. */
  lemma {:induction false} SoftHardBounds(objs: seq<real>)
    requires forall i :: 0 <= i < |objs| ==> 0.0 <= objs[i] <= 1.0
    ensures HardCount(objs) as real / 2.0 <= SoftCount(objs)
    ensures SoftCount(objs) <= HardCount(objs) as real + (|objs| - HardCount(objs)) as real / 2.0
    ensures HardCount(objs) > 0 ==> HardCount(objs) as real / 2.0 < SoftCount(objs)
    decreases |objs|
  {
    if objs != [] {
      var init := objs[..|objs| - 1];
      assert forall i :: 0 <= i < |init| ==> init[i] == objs[i];
      HardCountBounds(init);
      SoftHardBounds(init);
    }
  }

  /** `count_1norm` of one image: `|hard_n_objects - n_annotations|` as a float. */
  function Count1Norm(hard: int, nAnnotations: int): real
  {
    (if hard >= nAnnotations then hard - nAnnotations else nAnnotations - hard) as real
  }

  /** `count_error` of one image: `count_1norm > 0.5` as a float. */
  function CountError(hard: int, nAnnotations: int): real
  {
    if Count1Norm(hard, nAnnotations) > 0.5 then 1.0 else 0.0
  }

  /** On integer counts the threshold is a mismatch test: `count_error` is 1
      exactly when the counts differ, the form yolo_rl.py writes as
      `n_objects != n_annotations`, and it never exceeds `count_1norm`. */
  lemma CountErrorIsMismatch(hard: int, nAnnotations: int)
    ensures CountError(hard, nAnnotations) == (if hard != nAnnotations then 1.0 else 0.0)
    ensures CountError(hard, nAnnotations) <= Count1Norm(hard, nAnnotations)
    ensures Count1Norm(hard, nAnnotations) == 0.0 <==> hard == nAnnotations
  {
  }

  function SumErrors(hards: seq<int>, anns: seq<int>): real
    requires |hards| == |anns|
    decreases |hards|
  {
    if hards == [] then 0.0
    else
      var n := |hards| - 1;
      SumErrors(hards[..n], anns[..n]) + CountError(hards[n], anns[n])
  }

  /** `tf.reduce_mean` of the per-image `count_error` over the batch; the
      mean of an empty batch is NaN, here `None`. */
  function MeanCountError(hards: seq<int>, anns: seq<int>): (m: Option<real>)
    requires |hards| == |anns|
    ensures m.None? <==> hards == []
    ensures m.Some? ==> 0.0 <= m.value <= 1.0
    ensures m.Some? ==> (m.value == 0.0 <==> forall i :: 0 <= i < |hards| ==> hards[i] == anns[i])
  {
    SumErrorsBounds(hards, anns);
    if hards == [] then None
    else
      RatioBounds(SumErrors(hards, anns), |hards| as real);
      Some(SumErrors(hards, anns) / |hards| as real)
  }

  /** A share of a positive whole lies in [0, 1], and is 0 only for nothing. */
  lemma RatioBounds(part: real, whole: real)
    requires 0.0 <= part <= whole && whole > 0.0
    ensures 0.0 <= part / whole <= 1.0 && (part / whole == 0.0 <==> part == 0.0)
  {
    var q := part / whole;
    assert q * whole == part;
  }

  /** The recorded `count_error` is the fraction of images whose hard count
      misses the annotation count: 1 exactly when every count is wrong. */
  lemma MeanCountErrorRange(hards: seq<int>, anns: seq<int>)
    requires |hards| == |anns| && hards != []
    ensures var m := MeanCountError(hards, anns).value;
      m == 1.0 <==> forall i :: 0 <= i < |hards| ==> hards[i] != anns[i]
  {
    SumErrorsBounds(hards, anns);
  }

  lemma {:induction false} SumErrorsBounds(hards: seq<int>, anns: seq<int>)
    requires |hards| == |anns|
    ensures 0.0 <= SumErrors(hards, anns) <= |hards| as real
    ensures SumErrors(hards, anns) == 0.0 <==> forall i :: 0 <= i < |hards| ==> hards[i] == anns[i]
    ensures SumErrors(hards, anns) == |hards| as real <==> forall i :: 0 <= i < |hards| ==> hards[i] != anns[i]
    decreases |hards|
  {
    if hards != [] {
      var n := |hards| - 1;
      SumErrorsBounds(hards[..n], anns[..n]);
      assert forall i :: 0 <= i < n ==> hards[..n][i] == hards[i] && anns[..n][i] == anns[i];
      CountErrorIsMismatch(hards[n], anns[n]);
    }
  }
}
