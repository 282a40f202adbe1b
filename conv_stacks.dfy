/** Layer-stack computations of dps/utils/pytorch.py: the receptive field of a
    stack of convolutions (`GridConvNet.compute_receptive_field_info`) and the
    layer specs `SimpleConvNet` builds.  numpy applies the receptive-field
    arithmetic to every spatial axis independently, so one axis is modelled;
    sizes are Python ints. */
module ConvStacks {
  import opened Wrappers
  import opened Arith
  import opened Digits

  /** One entry of `layers`, along one axis: `layer.get('kind', 'conv')`,
      `layer['kernel_size']`, `layer['stride']`. */
  datatype ConvLayer = ConvLayer(kind: string, kernelSize: int, stride: int)

  predicate PositiveStrides(ls: seq<ConvLayer>)
  {
    forall i :: 0 <= i < |ls| ==> ls[i].stride > 0
  }

  predicate AllConv(ls: seq<ConvLayer>)
  {
    forall i :: 0 <= i < |ls| ==> ls[i].kind == "conv"
  }

  /** Receptive-field size of a cell after the layers `ls`, in image cells. */
  function RfSize(ls: seq<ConvLayer>): int
    decreases |ls|
  {
    if ls == [] then 1
    else RfSize(ls[..|ls| - 1]) + (ls[|ls| - 1].kernelSize - 1) * GridCellSize(ls[..|ls| - 1])
  }

  /** Distance between neighbouring cells after the layers `ls`, in image cells. */
  function GridCellSize(ls: seq<ConvLayer>): (g: int)
    ensures PositiveStrides(ls) ==> g > 0
    decreases |ls|
  {
    if ls == [] then 1
    else
      GridCellSize(ls[..|ls| - 1]) * ls[|ls| - 1].stride
  }

  /** The input size from which the layers `ls` produce exactly `n` cells with
      no input cell left over: a transposed convolution per layer, last layer
      first. */
  function Cells(ls: seq<ConvLayer>, n: int): int
    decreases |ls|
  {
    if ls == [] then n else (Cells(ls[1..], n) - 1) * ls[0].stride + ls[0].kernelSize
  }

  /** Splitting the stack after layer `i`: the first `i` layers' field and
      grid, with the input the remaining layers need for `n` cells, give the
      whole stack's required size. */
  lemma {:induction false} RequiredSplit(ls: seq<ConvLayer>, n: int, i: nat)
    requires i <= |ls|
    ensures RfSize(ls[..i]) + (Cells(ls[i..], n) - 1) * GridCellSize(ls[..i])
         == RfSize(ls) + (n - 1) * GridCellSize(ls)
    decreases |ls| - i
  {
    if i == |ls| {
      assert ls[..i] == ls;
    } else {
      RequiredSplit(ls, n, i + 1);
      var r, g, l := RfSize(ls[..i]), GridCellSize(ls[..i]), ls[i];
      var c := Cells(ls[i + 1..], n);
      assert ls[..i + 1][..i] == ls[..i];
      assert ls[i..][1..] == ls[i + 1..];
      assert RfSize(ls[..i + 1]) == r + (l.kernelSize - 1) * g;
      assert GridCellSize(ls[..i + 1]) == g * l.stride;
      assert Cells(ls[i..], n) == (c - 1) * l.stride + l.kernelSize;
      calc {
        r + (Cells(ls[i..], n) - 1) * g;
        r + ((c - 1) * l.stride + (l.kernelSize - 1)) * g;
        { MulAddRight((c - 1) * l.stride, l.kernelSize - 1, g); }
        r + (l.kernelSize - 1) * g + (c - 1) * l.stride * g;
        { MulRotate(c - 1, l.stride, g); }
        RfSize(ls[..i + 1]) + (c - 1) * GridCellSize(ls[..i + 1]);
      }
    }
  }

  /** The required image size, `rf_size + (n - 1) * grid_cell_size`, is the
      input from which the stack produces exactly `n` cells. */
  lemma RequiredIsCells(ls: seq<ConvLayer>, n: int)
    ensures RfSize(ls) + (n - 1) * GridCellSize(ls) == Cells(ls, n)
  {
    RequiredSplit(ls, n, 0);
    assert ls[..0] == [] && ls[0..] == ls;
  }

  /** `int(x / s + 1)` for a positive `s`: numpy's cast truncates toward zero. */
  function TruncQuotPlusOne(x: int, s: int): int
    requires s > 0
  {
    var a := x + s;
    if a >= 0 then a / s else -((-a) / s)
  }

  lemma ExactQuot(c: int, s: int)
    requires s > 0
    ensures TruncQuotPlusOne((c - 1) * s, s) == c
  {
    assert (c - 1) * s + s == c * s;
    if c >= 0 {
      DivModUnique(c * s, s, c, 0);
    } else {
      assert -(c * s) == (-c) * s;
      DivModUnique((-c) * s, s, -c, 0);
    }
  }

  /** What `compute_receptive_field_info` records for one layer. The grid
      offset, a multiple of one half in the source, is kept doubled; the
      sizes normalised by the largest image axis are floating point and are
      not kept. */
  datatype LayerInfo = LayerInfo(
    kernelSize: int, stride: int, rfSize: int, gridCellSize: int,
    twiceGridOffset: int, nGridCells: int, virtualImageSize: int)

  datatype FieldInfo = FieldInfo(info: seq<LayerInfo>, requiredImageSize: int, prePadding: int, postPadding: int)

  /** The first pass's record of layer `i`. */
  predicate FirstPass(ls: seq<ConvLayer>, i: nat, l: LayerInfo)
    requires i < |ls|
  {
    && l.kernelSize == ls[i].kernelSize && l.stride == ls[i].stride
    && l.rfSize == RfSize(ls[..i + 1]) && l.gridCellSize == GridCellSize(ls[..i + 1])
  }

  /** The first loop of `compute_receptive_field_info`: every layer must be a
      convolution; each record gets the layer's kernel and stride and the
      field and grid reached after it. */
  method FirstPassInfo(layers: seq<ConvLayer>) returns (r: Result<seq<LayerInfo>>)
    requires PositiveStrides(layers)
    ensures AllConv(layers) <==> r.Ok?
    ensures r.Err? ==> r.error == "AssertionError"
    ensures r.Ok? ==>
      |r.value| == |layers| && forall i :: 0 <= i < |layers| ==> FirstPass(layers, i, r.value[i])
  {
    var rf, grid := 1, 1;
    var info: seq<LayerInfo> := [];
    for i := 0 to |layers|
      invariant AllConv(layers[..i])
      invariant rf == RfSize(layers[..i]) && grid == GridCellSize(layers[..i])
      invariant |info| == i && forall j :: 0 <= j < i ==> FirstPass(layers, j, info[j])
    {
      if layers[i].kind != "conv" {
        return Err("AssertionError");
      }
      assert layers[..i + 1][..i] == layers[..i];
      rf := rf + (layers[i].kernelSize - 1) * grid;
      grid := grid * layers[i].stride;
      info := info + [LayerInfo(layers[i].kernelSize, layers[i].stride, rf, grid, 0, 0, 0)];
    }
    assert layers[..|layers|] == layers;
    return Ok(info);
  }

  /** The second loop: starting from the required image, each layer maps the
      volume to `int((v - k) / s + 1)` cells, and its record gets that count,
      the virtual image size and the doubled grid offset. Starting from the
      input the stack needs for `n` cells, every division is exact. */
  method SecondPassInfo(layers: seq<ConvLayer>, info0: seq<LayerInfo>, required: int, n: int, pre: int)
    returns (info: seq<LayerInfo>)
    requires PositiveStrides(layers) && |info0| == |layers| && required == Cells(layers, n)
    requires forall i :: 0 <= i < |layers| ==> FirstPass(layers, i, info0[i])
    ensures |info| == |layers|
    ensures forall i :: 0 <= i < |layers| ==>
      && FirstPass(layers, i, info[i])
      && info[i].nGridCells == Cells(layers[i + 1..], n)
      && info[i].twiceGridOffset == info[i].rfSize - info[i].gridCellSize - 2 * pre
      && info[i].virtualImageSize == info[i].nGridCells * info[i].gridCellSize
  {
    info := info0;
    var volume := required;
    assert layers[0..] == layers;
    for j := 0 to |info|
      invariant |info| == |layers|
      invariant volume == Cells(layers[j..], n)
      invariant forall i :: 0 <= i < |layers| ==> FirstPass(layers, i, info[i])
      invariant forall i :: 0 <= i < j ==>
        && info[i].nGridCells == Cells(layers[i + 1..], n)
        && info[i].twiceGridOffset == info[i].rfSize - info[i].gridCellSize - 2 * pre
        && info[i].virtualImageSize == info[i].nGridCells * info[i].gridCellSize
    {
      var l := info[j];
      assert layers[j..][1..] == layers[j + 1..];
      ExactQuot(Cells(layers[j + 1..], n), l.stride);
      var next := TruncQuotPlusOne(volume - l.kernelSize, l.stride);
      info := info[j := l.(twiceGridOffset := -2 * pre + l.rfSize - l.gridCellSize,
                           nGridCells := next, virtualImageSize := next * l.gridCellSize)];
      volume := next;
    }
  }

  /** Each layer's windows tile the previous layer's cells (the required image
      for the first layer) with nothing left over. */
  lemma CellsChain(layers: seq<ConvLayer>, n: int, i: nat)
    requires i < |layers|
    ensures (Cells(layers[i + 1..], n) - 1) * layers[i].stride + layers[i].kernelSize == Cells(layers[i..], n)
  {
    assert layers[i..][1..] == layers[i + 1..];
  }

  /** What `compute_receptive_field_info` returns for a non-empty stack of
      convolutions, with `n = ceil(image / grid_cell_size)`: the required image
      is `rf_size + (n - 1) * grid_cell_size`, split into the image and the
      padding around it, with `floor((rf_size - grid_cell_size) / 2)` before;
      every layer's windows tile the previous layer's cells (the required
      image for the first) with nothing left over, so the last layer has
      exactly `n` cells; and the last grid offset is 0 or one half. */
  predicate ReceptiveField(imageSize: int, layers: seq<ConvLayer>, f: FieldInfo)
    requires PositiveStrides(layers) && layers != []
  {
    var n := CeilDiv(imageSize, GridCellSize(layers));
    && |f.info| == |layers|
    && FieldPadding(imageSize, layers, f, n)
    && FieldCellCounts(layers, f, n)
    && FieldRecords(layers, f)
  }

  /** The required image is `rf_size + (n - 1) * grid_cell_size`, split into
      the image and the two paddings, with the pre-padding half the overhang
      rounded down. */
  predicate FieldPadding(imageSize: int, layers: seq<ConvLayer>, f: FieldInfo, n: int)
  {
    var g := GridCellSize(layers);
    && f.requiredImageSize == RfSize(layers) + (n - 1) * g
    && f.prePadding + imageSize + f.postPadding == f.requiredImageSize
    && 2 * f.prePadding <= RfSize(layers) - g < 2 * f.prePadding + 2
  }

  /** The last layer produces `n` cells, and each layer's windows tile the
      previous layer's cells (the required image for the first layer). */
  predicate FieldCellCounts(layers: seq<ConvLayer>, f: FieldInfo, n: int)
    requires layers != [] && |f.info| == |layers|
  {
    && f.info[|layers| - 1].nGridCells == n
    && (f.info[0].nGridCells - 1) * layers[0].stride + layers[0].kernelSize == f.requiredImageSize
    && (forall i :: 0 < i < |layers| ==>
          (f.info[i].nGridCells - 1) * layers[i].stride + layers[i].kernelSize == f.info[i - 1].nGridCells)
  }

  /** Every record holds the first pass's values, the doubled grid offset
      (zero or one half at the last layer) and the virtual image size. */
  predicate FieldRecords(layers: seq<ConvLayer>, f: FieldInfo)
    requires layers != [] && |f.info| == |layers|
  {
    && 0 <= f.info[|layers| - 1].twiceGridOffset <= 1
    && (forall i :: 0 <= i < |layers| ==>
          && FirstPass(layers, i, f.info[i])
          && f.info[i].twiceGridOffset == f.info[i].rfSize - f.info[i].gridCellSize - 2 * f.prePadding
          && f.info[i].virtualImageSize == f.info[i].nGridCells * f.info[i].gridCellSize)
  }

  /** The records of both passes make up the receptive field. */
  lemma ReceptiveFieldHolds(imageSize: int, layers: seq<ConvLayer>, f: FieldInfo, n: int)
    requires PositiveStrides(layers) && layers != [] && |f.info| == |layers|
    requires n == CeilDiv(imageSize, GridCellSize(layers))
    requires f.requiredImageSize == RfSize(layers) + (n - 1) * GridCellSize(layers)
    requires f.prePadding == (RfSize(layers) - GridCellSize(layers)) / 2
    requires f.postPadding == f.requiredImageSize - imageSize - f.prePadding
    requires forall i :: 0 <= i < |layers| ==>
      && FirstPass(layers, i, f.info[i])
      && f.info[i].nGridCells == Cells(layers[i + 1..], n)
      && f.info[i].twiceGridOffset == f.info[i].rfSize - f.info[i].gridCellSize - 2 * f.prePadding
      && f.info[i].virtualImageSize == f.info[i].nGridCells * f.info[i].gridCellSize
    ensures ReceptiveField(imageSize, layers, f)
    ensures f.info[|layers| - 1].nGridCells == n && 0 <= f.info[|layers| - 1].twiceGridOffset <= 1
  {
    HalfBounds(RfSize(layers) - GridCellSize(layers), f.prePadding);
    assert FieldPadding(imageSize, layers, f, n);
    FirstCells(layers, n, f.info[0].nGridCells, f.requiredImageSize);
    CellCountsHold(layers, f, n);
    LastOffset(layers, f.info[|layers| - 1], f.prePadding);
    RecordsHold(layers, f);
  }

  lemma CellCountsHold(layers: seq<ConvLayer>, f: FieldInfo, n: int)
    requires layers != [] && |f.info| == |layers|
    requires forall i :: 0 <= i < |layers| ==> f.info[i].nGridCells == Cells(layers[i + 1..], n)
    requires (f.info[0].nGridCells - 1) * layers[0].stride + layers[0].kernelSize == f.requiredImageSize
    ensures FieldCellCounts(layers, f, n)
  {
    var last := |layers| - 1;
    assert layers[last + 1..] == [];
    CellCountsChain(layers, f.info, n);
  }

  lemma RecordsHold(layers: seq<ConvLayer>, f: FieldInfo)
    requires layers != [] && |f.info| == |layers|
    requires 0 <= f.info[|layers| - 1].twiceGridOffset <= 1
    requires forall i :: 0 <= i < |layers| ==>
      && FirstPass(layers, i, f.info[i])
      && f.info[i].twiceGridOffset == f.info[i].rfSize - f.info[i].gridCellSize - 2 * f.prePadding
      && f.info[i].virtualImageSize == f.info[i].nGridCells * f.info[i].gridCellSize
    ensures FieldRecords(layers, f)
  {
  }

  /** The last record's doubled grid offset is the overhang's remainder
      after halving: zero or one. */
  lemma LastOffset(layers: seq<ConvLayer>, l: LayerInfo, pre: int)
    requires layers != [] && FirstPass(layers, |layers| - 1, l)
    requires pre == (RfSize(layers) - GridCellSize(layers)) / 2
    requires l.twiceGridOffset == l.rfSize - l.gridCellSize - 2 * pre
    ensures 0 <= l.twiceGridOffset <= 1
  {
    assert layers[..|layers|] == layers;
  }

  /** The first layer's windows tile the required image. */
  lemma FirstCells(layers: seq<ConvLayer>, n: int, c: int, required: int)
    requires layers != [] && c == Cells(layers[1..], n)
    requires required == RfSize(layers) + (n - 1) * GridCellSize(layers)
    ensures (c - 1) * layers[0].stride + layers[0].kernelSize == required
  {
    RequiredIsCells(layers, n);
    CellsChain(layers, n, 0);
    assert layers[0..] == layers;
  }

  /** Consecutive records' cell counts are linked by the layer between them. */
  lemma CellCountsChain(layers: seq<ConvLayer>, info: seq<LayerInfo>, n: int)
    requires |info| == |layers|
    requires forall i :: 0 <= i < |layers| ==> info[i].nGridCells == Cells(layers[i + 1..], n)
    ensures forall i :: 0 < i < |layers| ==>
      (info[i].nGridCells - 1) * layers[i].stride + layers[i].kernelSize == info[i - 1].nGridCells
  {
    forall i | 0 < i < |layers|
      ensures (info[i].nGridCells - 1) * layers[i].stride + layers[i].kernelSize == info[i - 1].nGridCells
    {
      CellsChain(layers, n, i);
    }
  }

  lemma HalfBounds(d: int, h: int)
    requires h == d / 2
    ensures 2 * h <= d < 2 * h + 2
  {
  }

  /** `compute_receptive_field_info` along one axis. Every layer must be a
      convolution, and an empty stack fails at `info[-1]`; the two closing
      assertions of the source never fail. */
  method ComputeReceptiveFieldInfo(imageSize: int, layers: seq<ConvLayer>) returns (r: Result<FieldInfo>)
    requires PositiveStrides(layers)
    ensures !AllConv(layers) ==> r == Err("AssertionError")
    ensures AllConv(layers) && layers == [] ==> r == Err("IndexError")
    ensures AllConv(layers) && layers != [] ==> r.Ok? && ReceptiveField(imageSize, layers, r.value)
  {
    var first := FirstPassInfo(layers);
    if first.Err? {
      return Err(first.error);
    }
    var rf, grid := RfSize(layers), GridCellSize(layers);
    var n := CeilDiv(imageSize, grid);
    var required := rf + (n - 1) * grid;
    var pre := (rf - grid) / 2;
    var post := required - imageSize - pre;
    RequiredIsCells(layers, n);
    var info := SecondPassInfo(layers, first.value, required, n, pre);
    if |info| == 0 {
      return Err("IndexError");
    }
    var f := FieldInfo(info, required, pre, post);
    ReceptiveFieldHolds(imageSize, layers, f, n);
    if info[|info| - 1].nGridCells != n || !(-1 <= info[|info| - 1].twiceGridOffset <= 1) {
      return Err("AssertionError");
    }
    return Ok(f);
  }

  /** The parameters `SimpleConvNet` reads. */
  datatype SimpleConvParams = SimpleConvParams(
    nLayersInBetween: nat, nConvBlocks: nat, stride: int, baseNFilters: int, maxNFilters: int,
    kernelSize: int, nFcLayers: nat, nFcUnits: int, batchNorm: bool)

  datatype LayerSpec =
    | Conv(nFilters: int, stride: int, kernelSize: int, batchNorm: bool)
    | Fc(nUnits: int, batchNorm: bool)

  function Min(a: int, b: int): int
  {
    if a <= b then a else b
  }

  /** `add_conv_layer(n_filters, stride)`. */
  function ConvSpec(p: SimpleConvParams, nFilters: int, stride: int): LayerSpec
  {
    Conv(Min(nFilters, p.maxNFilters), stride, p.kernelSize, p.batchNorm)
  }

  /** Number of convolutional specs. */
  function NConv(p: SimpleConvParams): nat
  {
    p.nLayersInBetween + p.nConvBlocks * (1 + p.nLayersInBetween)
  }

  /** The spec at position `j`, found from the position alone: the leading
      stride-1 layers belong to block 0, and each later block opens with a
      strided layer followed by stride-1 layers; block `b` has
      `stride^b * base_n_filters` filters, capped. */
  function SpecAt(p: SimpleConvParams, j: nat): LayerSpec
  {
    var m := p.nLayersInBetween;
    if j < m then ConvSpec(p, p.baseNFilters, 1)
    else if j < NConv(p) then
      var b := (j - m) / (1 + m) + 1;
      ConvSpec(p, Pow(p.stride, b) * p.baseNFilters, if (j - m) % (1 + m) == 0 then p.stride else 1)
    else Fc(p.nFcUnits, p.batchNorm)
  }

  /** Offset `t` in block `b` is position `m + (b - 1) * (1 + m) + t`. */
  lemma BlockPosition(p: SimpleConvParams, b: nat, t: nat)
    requires 1 <= b <= p.nConvBlocks && t <= p.nLayersInBetween
    ensures var m := p.nLayersInBetween;
      m + (b - 1) * (1 + m) + t < NConv(p) &&
      SpecAt(p, m + (b - 1) * (1 + m) + t)
        == ConvSpec(p, Pow(p.stride, b) * p.baseNFilters, if t == 0 then p.stride else 1)
  {
    var m := p.nLayersInBetween;
    DivModUnique((b - 1) * (1 + m) + t, 1 + m, b - 1, t);
    MulMonotone(b, p.nConvBlocks, 1 + m);
    MulSucc(b - 1, 1 + m);
  }

  /** The `SimpleConvNet` constructor's spec list, appended layer by layer:
      `n_layers_in_between` stride-1 layers, then per block one strided layer
      and `n_layers_in_between` stride-1 layers, then the fully connected ones. */
  method BuildSimpleConvSpecs(p: SimpleConvParams) returns (specs: seq<LayerSpec>)
    ensures |specs| == NConv(p) + p.nFcLayers
    ensures forall j :: 0 <= j < |specs| ==> specs[j] == SpecAt(p, j)
  {
    var m := p.nLayersInBetween;
    specs := [];
    for j := 0 to m
      invariant |specs| == j && forall i :: 0 <= i < j ==> specs[i] == SpecAt(p, i)
    {
      specs := specs + [ConvSpec(p, p.baseNFilters, 1)];
    }
    for b := 1 to p.nConvBlocks + 1
      invariant |specs| == m + (b - 1) * (1 + m)
      invariant forall i :: 0 <= i < |specs| ==> specs[i] == SpecAt(p, i)
    {
      var nFilters := Pow(p.stride, b) * p.baseNFilters;
      BlockPosition(p, b, 0);
      specs := specs + [ConvSpec(p, nFilters, p.stride)];
      for t := 1 to m + 1
        invariant |specs| == m + (b - 1) * (1 + m) + t
        invariant forall i :: 0 <= i < |specs| ==> specs[i] == SpecAt(p, i)
      {
        BlockPosition(p, b, t);
        specs := specs + [ConvSpec(p, nFilters, 1)];
      }
      MulSucc(b - 1, 1 + m);
    }
    for f := 0 to p.nFcLayers
      invariant |specs| == NConv(p) + f
      invariant forall i :: 0 <= i < |specs| ==> specs[i] == SpecAt(p, i)
    {
      specs := specs + [Fc(p.nFcUnits, p.batchNorm)];
    }
  }

  lemma {:induction false} PowMonotone(s: int, a: nat, b: nat)
    requires s >= 1 && a <= b
    ensures 1 <= Pow(s, a) <= Pow(s, b)
    decreases b
  {
    if b > a {
      PowMonotone(s, a, b - 1);
      MulMonotone(1, s, Pow(s, b - 1));
    } else if a > 0 {
      PowPositive(s, a);
    }
  }

  /** The block number of a convolutional position never decreases along the list. */
  lemma BlockMonotone(m: nat, i: nat, j: nat)
    requires m <= i <= j
    ensures (i - m) / (1 + m) <= (j - m) / (1 + m)
  {
    var qi, qj := (i - m) / (1 + m), (j - m) / (1 + m);
    if qi > qj {
      MulMonotone(qj + 1, qi, 1 + m);
    }
  }

  /** Every convolutional spec has at most `max_n_filters` filters, and with
      a stride of at least 1 and a non-negative base the filter counts never
      decrease from one convolutional layer to the next; the fully connected
      specs follow them. */
  lemma SimpleConvFilters(p: SimpleConvParams, i: nat, j: nat)
    requires p.stride >= 1 && p.baseNFilters >= 0 && i <= j < NConv(p)
    ensures SpecAt(p, i).Conv? && SpecAt(p, j).Conv? && SpecAt(p, NConv(p)).Fc?
    ensures SpecAt(p, i).nFilters <= SpecAt(p, j).nFilters <= p.maxNFilters
  {
    var m := p.nLayersInBetween;
    var bi, bj := BlockOf(m, i), BlockOf(m, j);
    if m <= i {
      BlockMonotone(m, i, j);
    }
    PowMonotone(p.stride, bi, bj);
    MulMonotone(Pow(p.stride, bi), Pow(p.stride, bj), p.baseNFilters);
    SpecFilters(p, i);
    SpecFilters(p, j);
  }

  /** The block holding convolutional position `j`. */
  function BlockOf(m: nat, j: nat): nat
  {
    if j < m then 0 else (j - m) / (1 + m) + 1
  }

  /** A convolutional spec has `stride^b * base_n_filters` filters for its
      block `b`, capped at `max_n_filters`. */
  lemma SpecFilters(p: SimpleConvParams, j: nat)
    requires j < NConv(p)
    ensures SpecAt(p, j).Conv?
    ensures SpecAt(p, j).nFilters == Min(Pow(p.stride, BlockOf(p.nLayersInBetween, j)) * p.baseNFilters, p.maxNFilters)
  {
    assert Pow(p.stride, 0) == 1;
  }
}
