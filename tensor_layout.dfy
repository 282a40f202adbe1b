/** Index bookkeeping of two tensor helpers in dps/utils/pytorch.py:
    `repeat_along_axis`, and the axis permutations and shapes of
    `reshape_and_apply`. Arrays are modelled by their nesting (a sequence of
    sub-arrays) or by their shape (a sequence of axis lengths). */
module TensorLayout {
  import opened Wrappers
  import opened Arith

  /** Row-major flattening of a list of rows: numpy's `reshape` of the
      leading two axes into one. */
  function Flatten<T>(rows: seq<seq<T>>): seq<T>
  {
    if rows == [] then [] else rows[0] + Flatten(rows[1..])
  }

  predicate Uniform<T>(rows: seq<seq<T>>, n: nat)
  {
    forall i :: 0 <= i < |rows| ==> |rows[i]| == n
  }

  lemma {:induction false} FlattenLength<T>(rows: seq<seq<T>>, n: nat)
    requires Uniform(rows, n)
    ensures |Flatten(rows)| == |rows| * n
  {
    if rows != [] {
      FlattenLength(rows[1..], n);
      MulSucc(|rows| - 1, n);
    }
  }

  /** In a flattened list of rows of length `n`, position `i` holds entry
      `i % n` of row `i / n`. */
  lemma {:induction false} FlattenAt<T>(rows: seq<seq<T>>, n: nat, i: nat)
    requires Uniform(rows, n) && i < |rows| * n
    ensures i / n < |rows| && |Flatten(rows)| == |rows| * n && Flatten(rows)[i] == rows[i / n][i % n]
    decreases |rows|
  {
    FlattenLength(rows, n);
    if i < n {
      DivModUnique(i, n, 0, i);
    } else {
      MulSucc(|rows| - 1, n);
      FlattenAt(rows[1..], n, i - n);
      DivStep(i, n);
    }
  }

  /** Stepping back one row of `n` lowers the row by one and keeps the column. */
  lemma DivStep(i: int, n: int)
    requires n > 0 && i >= n
    ensures (i - n) / n + 1 == i / n && (i - n) % n == i % n
  {
    var q, r := (i - n) / n, (i - n) % n;
    assert i - n == q * n + r;
    MulSucc(q, n);
    DivModUnique(i, n, q + 1, r);
  }

  /** `repeat_along_axis(a, 0, n)`: `expand_dims(a, 1)` gives one row per
      element, `tile` repeats each row's entry `n` times, and `reshape` joins
      the rows. Entries are the sub-arrays below axis 0, whatever their shape.
      Each element is repeated in place: position `i` holds `a[i div n]`, as in
      `(0, 1, 2) -> (0, 0, 1, 1, 2, 2)`. */
  function RepeatAlongAxis0<T>(a: seq<T>, n: nat): (r: seq<T>)
    ensures |r| == |a| * n
    ensures forall i :: 0 <= i < |r| ==> i / n < |a| && r[i] == a[i / n]
  {
    TiledFlatIndex(a, n);
    Flatten(Tiled(a, n))
  }

  /** `tile(expand_dims(a, 1), (1, n))`: row `i` holds `n` copies of `a[i]`. */
  function Tiled<T>(a: seq<T>, n: nat): (rows: seq<seq<T>>)
    ensures |rows| == |a| && Uniform(rows, n)
    ensures forall i, j :: 0 <= i < |a| && 0 <= j < n ==> rows[i][j] == a[i]
  {
    seq(|a|, i requires 0 <= i < |a| => seq(n, _ => a[i]))
  }

  /** Flattening the tiled rows puts `a[i div n]` at position `i`. */
  lemma TiledFlatIndex<T>(a: seq<T>, n: nat)
    ensures |Flatten(Tiled(a, n))| == |a| * n
    ensures forall i :: 0 <= i < |a| * n ==> i / n < |a| && Flatten(Tiled(a, n))[i] == a[i / n]
  {
    FlattenLength(Tiled(a, n), n);
    forall i | 0 <= i < |a| * n
      ensures i / n < |a| && Flatten(Tiled(a, n))[i] == a[i / n]
    {
      var rows := Tiled(a, n);
      FlattenAt(rows, n, i);
      assert rows[i / n][i % n] == a[i / n];
    }
  }

  /** Taking every `n`th element of the result gives the input back. */
  lemma RepeatAlongAxis0Collapse<T>(a: seq<T>, n: nat)
    requires n > 0
    ensures var r := RepeatAlongAxis0(a, n);
      |r| == |a| * n && seq(|a|, i requires 0 <= i < |a| => r[i * n]) == a
  {
    var r := RepeatAlongAxis0(a, n);
    forall i | 0 <= i < |a|
      ensures i * n < |a| * n && r[i * n] == a[i]
    {
      MulMonotone(i + 1, |a|, n);
      DivModUnique(i * n, n, i, 0);
    }
  }

  /** `repeat` in torch, which the docstring contrasts: the whole array is
      repeated, `(0, 1, 2) -> (0, 1, 2, 0, 1, 2)`. */
  function Tile<T>(a: seq<T>, n: nat): seq<T>
  {
    Flatten(seq(n, _ => a))
  }

  lemma RepeatIsNotTile()
    ensures RepeatAlongAxis0([0, 1, 2], 2) == [0, 0, 1, 1, 2, 2]
    ensures Tile([0, 1, 2], 2) == [0, 1, 2, 0, 1, 2]
  {
    var a := [0, 1, 2];
    var r := RepeatAlongAxis0(a, 2);
    assert r[1] == a[0] && r[3] == a[1] && r[5] == a[2];
    var tiles := seq(2, _ => a);
    assert tiles == [a, a];
    var none: seq<seq<int>> := [];
    assert tiles[1..] == [a] && tiles[1..][1..] == none;
    assert Flatten(tiles[1..]) == a + Flatten(none);
  }

  /** `repeat_along_axis` on a 2-D array: axis 0 repeats rows, axis 1 repeats
      the entries of every row; any other axis is past the end of the list of
      repeats (IndexError). */
  function RepeatAlongAxis<T>(a: seq<seq<T>>, dim: nat, n: nat): (r: Result<seq<seq<T>>>)
    ensures dim >= 2 <==> r.Err?
  {
    if dim == 0 then Ok(RepeatAlongAxis0(a, n))
    else if dim == 1 then Ok(seq(|a|, i requires 0 <= i < |a| => RepeatAlongAxis0(a[i], n)))
    else Err("IndexError")
  }

  /** Along axis 1 row `i` of the result holds each entry of row `i` of the
      input `n` times in place. */
  lemma RepeatAlongAxis1Index<T>(a: seq<seq<T>>, n: nat, i: nat, j: nat)
    requires i < |a| && j < |a[i]| * n
    ensures var r := RepeatAlongAxis(a, 1, n).value;
      |r| == |a| && |r[i]| == |a[i]| * n && r[i][j] == a[i][j / n]
  {
  }

  /** `list(range(lo, hi))`. */
  function Range(lo: nat, hi: nat): (r: seq<nat>)
    ensures |r| == if lo <= hi then hi - lo else 0
    ensures forall i :: 0 <= i < |r| ==> r[i] == lo + i
  {
    if lo >= hi then [] else seq(hi - lo, i requires 0 <= i < hi - lo => lo + i)
  }

  /** The permutation applied to a signal with `ndim` axes: the leading batch
      axes, then the trailing batch axes, then the others; the source asserts
      `0 < n_batch_dims < ndim` first. */
  function BatchPerm(ndim: nat, lead: nat, trail: nat): (r: Result<seq<nat>>)
    ensures r.Ok? <==> 0 < lead + trail < ndim
    ensures r.Err? ==> r.error == "AssertionError"
    ensures r.Ok? ==> IsPermutation(r.value, ndim)
    ensures r.Ok? ==> forall i :: 0 <= i < ndim ==> r.value[i] == BatchAxis(ndim, lead, trail, i)
  {
    if !(0 < lead + trail < ndim) then Err("AssertionError")
    else
      BatchOrderIsPermutation(ndim, lead, trail);
      Ok(BatchOrder(ndim, lead, trail))
  }

  /** The axis that lands at position `i`: a leading batch axis, a trailing
      batch axis or one of the others, in order. */
  function BatchAxis(ndim: nat, lead: nat, trail: nat, i: nat): int
  {
    if i < lead then i else if i < lead + trail then ndim - trail + (i - lead) else i - trail
  }

  function BatchOrder(ndim: nat, lead: nat, trail: nat): seq<nat>
    requires lead + trail <= ndim
  {
    Range(0, lead) + Range(ndim - trail, ndim) + Range(lead, ndim - trail)
  }

  predicate IsPermutation(p: seq<nat>, n: nat)
  {
    && |p| == n
    && (forall i :: 0 <= i < n ==> p[i] < n)
    && (forall i, j :: 0 <= i < j < n ==> p[i] != p[j])
  }

  lemma BatchOrderAt(ndim: nat, lead: nat, trail: nat, i: nat)
    requires lead + trail <= ndim && i < ndim
    ensures var p := BatchOrder(ndim, lead, trail);
      |p| == ndim && p[i] == BatchAxis(ndim, lead, trail, i)
  {
    var a, b, c := Range(0, lead), Range(ndim - trail, ndim), Range(lead, ndim - trail);
    var p := a + b + c;
    if i < lead {
      assert p[i] == a[i];
    } else if i < lead + trail {
      assert p[i] == b[i - lead];
    } else {
      assert p[i] == c[i - lead - trail];
    }
  }

  /** The permutation `reshape_and_apply` puts on a restored output with
      `ndim` axes: leading batch axes, the output's own axes, then the
      trailing batch axes. Position `i` takes the axis `RestoreAxis` names. */
  function RestorePerm(ndim: nat, lead: nat, trail: nat): (q: seq<nat>)
    requires lead + trail <= ndim
    ensures |q| == ndim
    ensures forall i :: 0 <= i < ndim ==> q[i] == RestoreAxis(ndim, lead, trail, i)
  {
    RestoreOrder(ndim, lead, trail);
    Range(0, lead) + Range(lead + trail, ndim) + Range(lead, lead + trail)
  }

  /** The axis restored to position `i`: a leading batch axis, one of the
      output's own axes (which follow the batch axes), or a trailing batch axis. */
  function RestoreAxis(ndim: nat, lead: nat, trail: nat, i: nat): int
  {
    if i < lead then i else if i < ndim - trail then i + trail else i - (ndim - trail) + lead
  }

  lemma RestoreOrder(ndim: nat, lead: nat, trail: nat)
    requires lead + trail <= ndim
    ensures var q := Range(0, lead) + Range(lead + trail, ndim) + Range(lead, lead + trail);
      |q| == ndim && forall i :: 0 <= i < ndim ==> q[i] == RestoreAxis(ndim, lead, trail, i)
  {
    var a, b, c := Range(0, lead), Range(lead + trail, ndim), Range(lead, lead + trail);
    var q := a + b + c;
    forall i | 0 <= i < ndim
      ensures q[i] == RestoreAxis(ndim, lead, trail, i)
    {
      if i < lead {
        assert q[i] == a[i];
      } else if i < ndim - trail {
        assert q[i] == b[i - lead];
      } else {
        assert q[i] == c[i - (ndim - trail)];
      }
    }
  }

  /** The leading batch axes, then the trailing ones, then the others: a
      permutation of `range(ndim)`, each axis at its `BatchAxis` position. */
  lemma BatchOrderIsPermutation(ndim: nat, lead: nat, trail: nat)
    requires lead + trail <= ndim
    ensures IsPermutation(BatchOrder(ndim, lead, trail), ndim)
    ensures forall i :: 0 <= i < ndim ==> BatchOrder(ndim, lead, trail)[i] == BatchAxis(ndim, lead, trail, i)
  {
    var p := BatchOrder(ndim, lead, trail);
    if ndim > 0 {
      BatchOrderAt(ndim, lead, trail, 0);
    }
    forall i | 0 <= i < ndim
      ensures p[i] < ndim && p[i] == BatchAxis(ndim, lead, trail, i)
    {
      BatchOrderAt(ndim, lead, trail, i);
    }
    forall i, j | 0 <= i < j < ndim
      ensures p[i] != p[j]
    {
      BatchOrderAt(ndim, lead, trail, i);
      BatchOrderAt(ndim, lead, trail, j);
    }
  }

  /** Restoring undoes the batch permutation: axis `i` of the restored output
      is axis `i` of the original signal. */
  lemma RestoreInvertsBatchPerm(ndim: nat, lead: nat, trail: nat)
    requires BatchPerm(ndim, lead, trail).Ok?
    ensures var p, q := BatchPerm(ndim, lead, trail).value, RestorePerm(ndim, lead, trail);
      IsPermutation(q, ndim) && forall i :: 0 <= i < ndim ==> p[q[i]] == i
  {
    var p, q := BatchPerm(ndim, lead, trail).value, RestorePerm(ndim, lead, trail);
    forall i | 0 <= i < ndim
      ensures q[i] < ndim && p[q[i]] == i
    {
      assert q[i] == RestoreAxis(ndim, lead, trail, i);
      assert p[q[i]] == BatchAxis(ndim, lead, trail, q[i]);
    }
  }

  /** Without trailing batch axes the restoring permutation is the identity,
      which is why the source skips it then. */
  lemma RestoreWithoutTrailing(ndim: nat, lead: nat)
    requires lead <= ndim
    ensures RestorePerm(ndim, lead, 0) == Range(0, ndim)
  {
    forall i | 0 <= i < ndim
      ensures RestorePerm(ndim, lead, 0)[i] == i
    {
      assert RestorePerm(ndim, lead, 0)[i] == RestoreAxis(ndim, lead, 0, i);
    }
  }

  function Permute<T>(xs: seq<T>, perm: seq<nat>): seq<T>
    requires forall i :: 0 <= i < |perm| ==> perm[i] < |xs|
  {
    seq(|perm|, i requires 0 <= i < |perm| => xs[perm[i]])
  }

  function Prod(xs: seq<nat>): nat
  {
    if xs == [] then 1 else xs[0] * Prod(xs[1..])
  }

  /** The batch axes of a shape: leading ones, then trailing ones. */
  function BatchShape(shape: seq<nat>, lead: nat, trail: nat): seq<nat>
    requires lead + trail <= |shape|
  {
    shape[..lead] + shape[|shape| - trail..]
  }

  function OtherShape(shape: seq<nat>, lead: nat, trail: nat): seq<nat>
    requires lead + trail <= |shape|
  {
    shape[lead..|shape| - trail]
  }

  /** The shape the function sees: one batch axis of
      `prod(leading) * prod(trailing)` cells, then the other axes. */
  function FlatShape(shape: seq<nat>, lead: nat, trail: nat): seq<nat>
    requires lead + trail <= |shape|
  {
    [Prod(shape[..lead]) * Prod(shape[|shape| - trail..])] + OtherShape(shape, lead, trail)
  }

  /** Permuting a signal puts its batch axes first, in order. */
  lemma PermutedShape(shape: seq<nat>, lead: nat, trail: nat)
    requires BatchPerm(|shape|, lead, trail).Ok?
    ensures Permute(shape, BatchPerm(|shape|, lead, trail).value)
         == BatchShape(shape, lead, trail) + OtherShape(shape, lead, trail)
  {
    var n := |shape|;
    var p := BatchPerm(n, lead, trail).value;
    var lhs, rhs := Permute(shape, p), BatchShape(shape, lead, trail) + OtherShape(shape, lead, trail);
    forall i | 0 <= i < n
      ensures lhs[i] == rhs[i]
    {
      assert p[i] == BatchAxis(n, lead, trail, i);
    }
  }

  /** An output that keeps the signal's other axes is restored to the
      signal's own shape. */
  lemma RestoredShape(shape: seq<nat>, lead: nat, trail: nat)
    requires BatchPerm(|shape|, lead, trail).Ok?
    ensures Permute(BatchShape(shape, lead, trail) + OtherShape(shape, lead, trail), RestorePerm(|shape|, lead, trail))
         == shape
  {
    var n := |shape|;
    var p, q := BatchPerm(n, lead, trail).value, RestorePerm(n, lead, trail);
    PermutedShape(shape, lead, trail);
    RestoreInvertsBatchPerm(n, lead, trail);
    var s := Permute(shape, p);
    var lhs := Permute(s, q);
    forall i | 0 <= i < n
      ensures lhs[i] == shape[i]
    {
      assert lhs[i] == s[q[i]] == shape[p[q[i]]];
    }
  }

  /** One output restored: `o.reshape(*batch_shape, *o.shape[1:])`, which
      torch refuses (RuntimeError) unless the number of cells agrees, then the
      restoring permutation when there are trailing batch axes. */
  function Restore(batchShape: seq<nat>, o: seq<nat>, lead: nat, trail: nat): (r: Result<seq<nat>>)
    requires lead + trail == |batchShape|
    ensures r.Ok? ==> |r.value| == |batchShape| + (if o == [] then 0 else |o| - 1)
  {
    var oShape := if o == [] then [] else o[1..];
    if Prod(o) != Prod(batchShape) * Prod(oShape) then Err("RuntimeError")
    else
      var reshaped := batchShape + oShape;
      if trail == 0 then Ok(reshaped) else Ok(Permute(reshaped, RestorePerm(|reshaped|, lead, trail)))
  }

  /** The flattened shapes of all signals: what the function is given. */
  function FlatShapes(shapes: seq<seq<nat>>, lead: nat, trail: nat): seq<seq<nat>>
  {
    seq(|shapes|, i requires 0 <= i < |shapes| =>
      if lead + trail <= |shapes[i]| then FlatShape(shapes[i], lead, trail) else [])
  }

  predicate Checked(shapes: seq<seq<nat>>, lead: nat, trail: nat)
  {
    forall i :: 0 <= i < |shapes| ==> BatchPerm(|shapes[i]|, lead, trail).Ok?
  }

  /** The loop over the signals: each is checked, then permuted and
      flattened; the batch shape of the last one is kept. */
  method FlattenSignals(shapes: seq<seq<nat>>, lead: nat, trail: nat)
    returns (r: Result<(seq<seq<nat>>, Option<seq<nat>>)>)
    ensures Checked(shapes, lead, trail) <==> r.Ok?
    ensures r.Err? ==> r.error == "AssertionError"
    ensures r.Ok? ==>
      && r.value.0 == FlatShapes(shapes, lead, trail)
      && (shapes == [] <==> r.value.1.None?)
      && (shapes != [] ==> r.value.1.value == BatchShape(shapes[|shapes| - 1], lead, trail))
  {
    var signals: seq<seq<nat>> := [];
    var batch: Option<seq<nat>> := None;
    for i := 0 to |shapes|
      invariant Checked(shapes[..i], lead, trail)
      invariant signals == FlatShapes(shapes[..i], lead, trail)
      invariant i > 0 <==> batch.Some?
      invariant i > 0 ==> batch.value == BatchShape(shapes[i - 1], lead, trail)
    {
      if !(0 < lead + trail < |shapes[i]|) {
        return Err("AssertionError");
      }
      assert shapes[..i + 1] == shapes[..i] + [shapes[i]];
      signals := signals + [FlatShape(shapes[i], lead, trail)];
      batch := Some(BatchShape(shapes[i], lead, trail));
    }
    assert shapes[..|shapes|] == shapes;
    return Ok((signals, batch));
  }

  /** The loop over the outputs with `restore_shape`: each is reshaped with
      the batch shape and permuted back; without a batch shape (no signals)
      the first output raises UnboundLocalError. */
  method RestoreOutputs(outs: seq<seq<nat>>, batch: Option<seq<nat>>, lead: nat, trail: nat)
    returns (r: Result<seq<seq<nat>>>)
    requires batch.Some? ==> |batch.value| == lead + trail
    ensures outs == [] ==> r == Ok([])
    ensures outs != [] && batch.None? ==> r == Err("UnboundLocalError")
    ensures r.Ok? ==>
      |r.value| == |outs| &&
      forall i :: 0 <= i < |outs| ==> Restore(batch.value, outs[i], lead, trail) == Ok(r.value[i])
    ensures r.Err? ==> r.error in {"UnboundLocalError", "RuntimeError"}
  {
    var restored: seq<seq<nat>> := [];
    for i := 0 to |outs|
      invariant |restored| == i
      invariant i > 0 ==> batch.Some?
      invariant forall j :: 0 <= j < i ==> Restore(batch.value, outs[j], lead, trail) == Ok(restored[j])
    {
      if batch.None? {
        return Err("UnboundLocalError");
      }
      var o := Restore(batch.value, outs[i], lead, trail);
      if o.Err? {
        return Err(o.error);
      }
      restored := restored + [o.value];
    }
    return Ok(restored);
  }

  /** `reshape_and_apply` on shapes: every signal is checked, permuted and
      flattened to one batch axis; `func` (an oracle from the shapes it is
      given to the shapes of its outputs) is applied; with `restore_shape`
      every output is restored with the batch shape of the last signal. */
  method ReshapeAndApply(shapes: seq<seq<nat>>, lead: nat, trail: nat,
                         func: seq<seq<nat>> -> seq<seq<nat>>, restoreShape: bool)
    returns (r: Result<seq<seq<nat>>>)
    ensures !Checked(shapes, lead, trail) <==> r == Err("AssertionError")
    ensures r.Ok? ==>
      var outs := func(FlatShapes(shapes, lead, trail));
      && (!restoreShape ==> r.value == outs)
      && (restoreShape ==> |r.value| == |outs|)
      && (restoreShape && outs != [] ==>
            && |shapes| > 0
            && var batch := BatchShape(shapes[|shapes| - 1], lead, trail);
               forall i :: 0 <= i < |outs| ==> Restore(batch, outs[i], lead, trail) == Ok(r.value[i]))
  {
    var flat := FlattenSignals(shapes, lead, trail);
    if flat.Err? {
      return Err(flat.error);
    }
    var (signals, batch) := flat.value;
    var outs := func(signals);
    if !restoreShape {
      return Ok(outs);
    }
    r := RestoreOutputs(outs, batch, lead, trail);
  }
}
