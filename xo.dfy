/** The XO toy game of dps/datasets/xo.py: rectangle geometry of `Entity`,
    the agent's movement and collision bookkeeping of `XO_Env`, rejection
    sampling of non-overlapping entities, and the entity count of grid mode.
    Positions are Python floats, modelled as exact reals; random draws
    (entity placement, kinds, `z`) are parameters. */
module XO {
  import opened Wrappers

  /** An `Entity`: a rectangle with a liveness flag, a kind and a depth. */
  datatype Entity = Entity(top: real, left: real, h: real, w: real, alive: bool, kind: string, z: real)

  /** `Entity(y, x, h, w, kind, center, z)`. */
  function NewEntity(y: real, x: real, h: real, w: real, kind: string, center: bool, z: real): (e: Entity)
    ensures e.alive && e.h == h && e.w == w && e.kind == kind && e.z == z
    ensures !center ==> e.top == y && e.left == x
  {
    if center then Entity(y - h / 2.0, x - w / 2.0, h, w, true, kind, z)
    else Entity(y, x, h, w, true, kind, z)
  }

  function Right(e: Entity): real
  {
    e.left + e.w
  }

  function Bottom(e: Entity): real
  {
    e.top + e.h
  }

  /** `centre()`: the middle of the rectangle, `(y, x)`. */
  function Centre(e: Entity): (real, real)
  {
    (e.top + e.h / 2.0, e.left + e.w / 2.0)
  }

  /** An entity made with `center=True` is centred on the point it was given. */
  lemma CentredEntity(y: real, x: real, h: real, w: real, kind: string, z: real)
    ensures Centre(NewEntity(y, x, h, w, kind, true, z)) == (y, x)
  {
  }

  function Min(a: real, b: real): real
  {
    if a <= b then a else b
  }

  function Max(a: real, b: real): real
  {
    if a >= b then a else b
  }

  /** The overlap of the vertical extents, clipped at zero. */
  function OverlapY(a: Entity, b: Entity): (d: real)
    ensures d >= 0.0
    ensures d > 0.0 <==> Max(a.top, b.top) < Min(Bottom(a), Bottom(b))
    ensures a.h >= 0.0 ==> d <= a.h
  {
    Max(Min(Bottom(a), Bottom(b)) - Max(a.top, b.top), 0.0)
  }

  /** The overlap of the horizontal extents, clipped at zero. */
  function OverlapX(a: Entity, b: Entity): (d: real)
    ensures d >= 0.0
    ensures d > 0.0 <==> Max(a.left, b.left) < Min(Right(a), Right(b))
    ensures a.w >= 0.0 ==> d <= a.w
  {
    Max(Min(Right(a), Right(b)) - Max(a.left, b.left), 0.0)
  }

  /** `overlap_area`: the product of the overlaps along the two axes. */
  function OverlapArea(a: Entity, b: Entity): real
  {
    OverlapY(a, b) * OverlapX(a, b)
  }

  /** `intersects`: a positive overlap area. */
  predicate Intersects(a: Entity, b: Entity)
  {
    OverlapArea(a, b) > 0.0
  }

  lemma OverlapSymmetric(a: Entity, b: Entity)
    ensures OverlapArea(a, b) == OverlapArea(b, a)
    ensures Intersects(a, b) <==> Intersects(b, a)
  {
  }

  /** The area is never negative, and two rectangles intersect exactly when
      their extents overlap strictly along both axes. */
  lemma IntersectsIff(a: Entity, b: Entity)
    ensures OverlapArea(a, b) >= 0.0
    ensures Intersects(a, b) <==>
      Max(a.top, b.top) < Min(Bottom(a), Bottom(b)) && Max(a.left, b.left) < Min(Right(a), Right(b))
  {
    var dy, dx := OverlapY(a, b), OverlapX(a, b);
    ProductLe(0.0, 0.0, dy, dx);
    if dy > 0.0 && dx > 0.0 {
      ProductPositive(dy, dx);
    } else {
      assert dy == 0.0 || dx == 0.0;
    }
  }

  /** The overlap of a rectangle with non-negative sides with anything is at
      most its own area, which is its overlap with itself. */
  lemma OverlapBounded(a: Entity, b: Entity)
    requires a.h >= 0.0 && a.w >= 0.0
    ensures OverlapArea(a, b) <= a.h * a.w
    ensures OverlapArea(a, a) == a.h * a.w
  {
    ProductLe(OverlapY(a, b), OverlapX(a, b), a.h, a.w);
    assert OverlapY(a, a) == a.h && OverlapX(a, a) == a.w;
  }

  lemma ScaleLe(k: real, x: real, y: real)
    requires k >= 0.0 && x <= y
    ensures k * x <= k * y && x * k <= y * k
  {
    assert k * y - k * x == k * (y - x);
    assert k * (y - x) >= 0.0;
  }

  lemma ProductPositive(x: real, y: real)
    requires x > 0.0 && y > 0.0
    ensures x * y > 0.0
  {
  }

  lemma ProductLe(x: real, y: real, u: real, v: real)
    requires 0.0 <= x <= u && 0.0 <= y <= v
    ensures x * y <= u * v
  {
    ScaleLe(y, x, u);
    ScaleLe(u, y, v);
  }

  /** `b` is `a` with some live entities killed and nothing else changed. */
  predicate Weakens(a: seq<Entity>, b: seq<Entity>)
  {
    |a| == |b| && forall i :: 0 <= i < |a| ==> b[i] == a[i] || (a[i].alive && b[i] == a[i].(alive := false))
  }

  /** How many entities went from alive in `a` to dead in `b`. */
  function KilledCount(a: seq<Entity>, b: seq<Entity>): nat
    requires |a| == |b|
  {
    if a == [] then 0
    else (if a[0].alive && !b[0].alive then 1 else 0) + KilledCount(a[1..], b[1..])
  }

  lemma {:induction false} KilledAdds(a: seq<Entity>, b: seq<Entity>, c: seq<Entity>)
    requires Weakens(a, b) && Weakens(b, c)
    ensures Weakens(a, c)
    ensures KilledCount(a, c) == KilledCount(a, b) + KilledCount(b, c)
  {
    if a != [] {
      KilledAdds(a[1..], b[1..], c[1..]);
    }
  }

  lemma {:induction false} KilledNone(a: seq<Entity>)
    ensures Weakens(a, a) && KilledCount(a, a) == 0
  {
    if a != [] {
      KilledNone(a[1..]);
    }
  }

  /** The kinds of entity, in the order of the `entities` dict. */
  datatype Collisions = Collisions(cross: nat, circle: nat)

  /** The actions of `ACTION_LOOKUP`: 0 up, 1 right, 2 down, 3 left. */
  function Direction(action: int, step: real): (d: Option<(real, real)>)
    ensures d.Some? <==> 0 <= action <= 3
  {
    if action == 0 then Some((0.0, step))
    else if action == 1 then Some((step, 0.0))
    else if action == 2 then Some((0.0, -step))
    else if action == 3 then Some((-step, 0.0))
    else None
  }

  /** `XO_Env` with the state its steps change: the crosses, the circles and
      the agent. */
  class XOEnv {
    const height: int
    const width: int
    const entitySize: int
    const overlapFactor: real
    const stepSize: Option<real>
    var crosses: seq<Entity>
    var circles: seq<Entity>
    var agent: Entity

    /** The field `setup_field` drew: the agent and the entities of each kind. */
    constructor (height: int, width: int, entitySize: int, overlapFactor: real, stepSize: Option<real>,
                 agent: Entity, crosses: seq<Entity>, circles: seq<Entity>)
      ensures this.height == height && this.width == width && this.entitySize == entitySize
      ensures this.overlapFactor == overlapFactor && this.stepSize == stepSize
      ensures this.agent == agent && this.crosses == crosses && this.circles == circles
    {
      this.height, this.width, this.entitySize := height, width, entitySize;
      this.overlapFactor, this.stepSize := overlapFactor, stepSize;
      this.agent, this.crosses, this.circles := agent, crosses, circles;
    }

    /** `overlap_factor * entity_size ** 2`. */
    function Threshold(): real
    {
      overlapFactor * ((entitySize * entitySize) as real)
    }

    /** A live entity the agent overlaps by more than the threshold. */
    predicate Hit(a: Entity, e: Entity)
    {
      e.alive && OverlapArea(a, e) > Threshold()
    }

    /** The entities after one collision sweep with the agent at `a`. */
    function Swept(a: Entity, es: seq<Entity>): (r: seq<Entity>)
      ensures Weakens(es, r)
      ensures forall i :: 0 <= i < |r| ==> !Hit(a, r[i])
      ensures forall i :: 0 <= i < |r| ==> (!r[i].alive <==> !es[i].alive || Hit(a, es[i]))
    {
      seq(|es|, i requires 0 <= i < |es| => if Hit(a, es[i]) then es[i].(alive := false) else es[i])
    }

    /** One pass of the inner loop of `_move_agent` over the entities of one
      kind: every live entity hit is counted and marked dead, so none is
      counted twice. */
    method Sweep(a: Entity, es: seq<Entity>) returns (r: seq<Entity>, count: nat)
      ensures r == Swept(a, es)
      ensures count == KilledCount(es, r)
    {
      r := es;
      count := 0;
      for i := 0 to |es|
        invariant |r| == |es| && r[i..] == es[i..]
        invariant forall j :: 0 <= j < i ==> r[j] == Swept(a, es)[j]
        invariant count == KilledCount(es[..i], r[..i])
      {
        if r[i].alive && OverlapArea(a, r[i]) > Threshold() {
          count := count + 1;
          r := r[i := r[i].(alive := false)];
        }
        KilledSnoc(es, r, i);
      }
      assert es[..|es|] == es && r[..|r|] == r;
    }

    /** Both kinds swept with the agent where it stands. */
    method SweepAll() returns (nCross: nat, nCircle: nat)
      modifies this
      ensures agent == old(agent)
      ensures crosses == Swept(agent, old(crosses)) && circles == Swept(agent, old(circles))
      ensures Clear(agent, crosses) && Clear(agent, circles)
      ensures nCross == KilledCount(old(crosses), crosses) && nCircle == KilledCount(old(circles), circles)
    {
      crosses, nCross := Sweep(agent, crosses);
      circles, nCircle := Sweep(agent, circles);
    }

    /** The sweep after segment `i + 1` of a move from `a0`, adding its kills
      to the counts kept since the entities were `crosses0` and `circles0`. */
    method SweepCounting(ghost a0: Entity, ghost i: nat, ghost xStep: real, ghost yStep: real,
                         ghost crosses0: seq<Entity>, ghost circles0: seq<Entity>, c: Collisions)
      returns (c': Collisions)
      modifies this
      requires agent == Shifted(a0, i + 1, xStep, yStep)
      requires crosses == SweptAlong(a0, i, xStep, yStep, crosses0) && circles == SweptAlong(a0, i, xStep, yStep, circles0)
      requires Weakens(crosses0, crosses) && Weakens(circles0, circles)
      requires c.cross == KilledCount(crosses0, crosses) && c.circle == KilledCount(circles0, circles)
      ensures agent == old(agent)
      ensures crosses == Swept(agent, old(crosses)) && circles == Swept(agent, old(circles))
      ensures crosses == SweptAlong(a0, i + 1, xStep, yStep, crosses0)
      ensures circles == SweptAlong(a0, i + 1, xStep, yStep, circles0)
      ensures Weakens(crosses0, crosses) && Weakens(circles0, circles)
      ensures c'.cross == KilledCount(crosses0, crosses) && c'.circle == KilledCount(circles0, circles)
      ensures Clear(agent, crosses) && Clear(agent, circles)
    {
      ghost var crosses1, circles1 := crosses, circles;
      var nCross, nCircle := SweepAll();
      KilledAdds(crosses0, crosses1, crosses);
      KilledAdds(circles0, circles1, circles);
      c' := Collisions(c.cross + nCross, c.circle + nCircle);
    }

    /** The agent after `j` segments of a move, each a tenth of the step. */
    function Shifted(a: Entity, j: nat, xStep: real, yStep: real): Entity
    {
      if j == 0 then a
      else
        var p := Shifted(a, j - 1, xStep, yStep);
        p.(left := p.left + xStep / 10.0, top := p.top + yStep / 10.0)
    }

    /** After `j` segments the agent has moved by `j` tenths of the step and
      is otherwise unchanged. */
    lemma {:induction false} ShiftedBy(a: Entity, j: nat, xStep: real, yStep: real)
      ensures Shifted(a, j, xStep, yStep)
           == a.(left := a.left + (j as real) * (xStep / 10.0), top := a.top + (j as real) * (yStep / 10.0))
    {
      if j > 0 {
        ShiftedBy(a, j - 1, xStep, yStep);
        assert (j as real) * (xStep / 10.0) == ((j - 1) as real) * (xStep / 10.0) + xStep / 10.0;
        assert (j as real) * (yStep / 10.0) == ((j - 1) as real) * (yStep / 10.0) + yStep / 10.0;
      }
    }

    /** The entities after the sweeps of a move: one where the agent stood,
      then one after each of the first `n` segments. */
    function SweptAlong(a: Entity, n: nat, xStep: real, yStep: real, es: seq<Entity>): (r: seq<Entity>)
      ensures |r| == |es|
    {
      if n == 0 then Swept(a, es)
      else Swept(Shifted(a, n, xStep, yStep), SweptAlong(a, n - 1, xStep, yStep, es))
    }

    /** The agent hits `e` at one of the places it stands on during the first
      `n` segments of a move, the start included. */
    ghost predicate HitOnPath(a: Entity, n: nat, xStep: real, yStep: real, e: Entity)
    {
      exists j :: 0 <= j <= n && Hit(Shifted(a, j, xStep, yStep), e)
    }

    /** The sweeps of a move kill exactly the live entities the agent hits at
      one of the places it stands on, and change nothing else. */
    lemma SweptAlongKills(a: Entity, n: nat, xStep: real, yStep: real, es: seq<Entity>)
      ensures forall i :: 0 <= i < |es| ==>
        SweptAlong(a, n, xStep, yStep, es)[i]
          == if HitOnPath(a, n, xStep, yStep, es[i]) then es[i].(alive := false) else es[i]
    {
      forall i | 0 <= i < |es|
        ensures SweptAlong(a, n, xStep, yStep, es)[i]
             == if HitOnPath(a, n, xStep, yStep, es[i]) then es[i].(alive := false) else es[i]
      {
        SweptAlongAt(a, n, xStep, yStep, es, i);
      }
    }

    lemma {:induction false} SweptAlongAt(a: Entity, n: nat, xStep: real, yStep: real, es: seq<Entity>, i: nat)
      requires i < |es|
      ensures SweptAlong(a, n, xStep, yStep, es)[i]
           == if HitOnPath(a, n, xStep, yStep, es[i]) then es[i].(alive := false) else es[i]
    {
      var e := es[i];
      if n == 0 {
        assert Shifted(a, 0, xStep, yStep) == a;
        if Hit(a, e) {
          assert Hit(Shifted(a, 0, xStep, yStep), e);
        } else {
          forall j | 0 <= j <= n
            ensures !Hit(Shifted(a, j, xStep, yStep), e)
          {
            assert j == 0;
          }
        }
      } else {
        SweptAlongAt(a, n - 1, xStep, yStep, es, i);
        var prev := SweptAlong(a, n - 1, xStep, yStep, es);
        var here := Shifted(a, n, xStep, yStep);
        assert SweptAlong(a, n, xStep, yStep, es)[i] == if Hit(here, prev[i]) then prev[i].(alive := false) else prev[i];
        if HitOnPath(a, n - 1, xStep, yStep, e) {
          var j :| 0 <= j <= n - 1 && Hit(Shifted(a, j, xStep, yStep), e);
          assert 0 <= j <= n && Hit(Shifted(a, j, xStep, yStep), e);
        } else if Hit(here, e) {
          assert 0 <= n <= n && Hit(Shifted(a, n, xStep, yStep), e);
        } else {
          forall j | 0 <= j <= n
            ensures !Hit(Shifted(a, j, xStep, yStep), e)
          {
            if j < n {
              assert 0 <= j <= n - 1;
            }
          }
        }
      }
    }

    /** A second sweep where the agent already swept finds nothing, so a move
      may start from the entities swept where the agent stands. */
    lemma {:induction false} SweptAlongResweep(a: Entity, n: nat, xStep: real, yStep: real, es: seq<Entity>)
      ensures SweptAlong(a, n, xStep, yStep, Swept(a, es)) == SweptAlong(a, n, xStep, yStep, es)
    {
      if n == 0 {
        SweptTwice(a, es);
      } else {
        SweptAlongResweep(a, n - 1, xStep, yStep, es);
      }
    }

    /** Sweeping twice in one place is sweeping once. */
    lemma SweptTwice(a: Entity, es: seq<Entity>)
      ensures Swept(a, Swept(a, es)) == Swept(a, es)
    {
      SweptClear(a, Swept(a, es));
    }

    /** Entities the agent hits none of are left as they are. */
    lemma SweptClear(a: Entity, es: seq<Entity>)
      requires Clear(a, es)
      ensures Swept(a, es) == es
    {
    }

    /** No live entity of `es` is hit by an agent at `a`. */
    predicate Clear(a: Entity, es: seq<Entity>)
      reads this
    {
      forall k :: 0 <= k < |es| ==> !Hit(a, es[k])
    }

    /** Inside the image: the wall test of `_move_agent` fails. */
    predicate InImage(a: Entity)
    {
      !(a.top + a.h > height as real || a.top < 0.0 || a.left + a.w > width as real || a.left < 0.0)
    }

    /** `_move_agent(x_step, y_step)`: a sweep where the agent stands; then,
      unless both steps are zero, up to ten segments of a tenth of the step,
      stopping before the first that would leave the image, with a sweep
      after each. Every entity is counted at most once, the counts are the
      entities killed, no live entity is left under the agent, and an agent
      inside the image stays inside. */
    method MoveAgent(xStep: real, yStep: real) returns (c: Collisions, ghost segments: nat)
      modifies this
      ensures segments <= 10 && agent == Shifted(old(agent), segments, xStep, yStep)
      ensures xStep == 0.0 && yStep == 0.0 ==>
        segments == 0 && crosses == Swept(old(agent), old(crosses)) && circles == Swept(old(agent), old(circles))
      ensures forall j :: 1 <= j <= segments ==> InImage(Shifted(old(agent), j, xStep, yStep))
      ensures (xStep != 0.0 || yStep != 0.0) && segments < 10 ==>
        !InImage(Shifted(old(agent), segments + 1, xStep, yStep))
      ensures InImage(old(agent)) ==> InImage(agent)
      ensures crosses == SweptAlong(old(agent), segments, xStep, yStep, old(crosses))
      ensures circles == SweptAlong(old(agent), segments, xStep, yStep, old(circles))
      ensures Weakens(old(crosses), crosses) && Weakens(old(circles), circles)
      ensures c.cross == KilledCount(old(crosses), crosses) && c.circle == KilledCount(old(circles), circles)
      ensures Clear(agent, crosses) && Clear(agent, circles)
    {
      var nCross, nCircle := SweepAll();
      c := Collisions(nCross, nCircle);
      segments := 0;
      if xStep == 0.0 && yStep == 0.0 {
        return;
      }
      KilledNone(crosses);
      KilledNone(circles);
      var d;
      d, segments := MoveSegments(xStep, yStep);
      SweptAlongResweep(old(agent), segments, xStep, yStep, old(crosses));
      SweptAlongResweep(old(agent), segments, xStep, yStep, old(circles));
      KilledAdds(old(crosses), Swept(old(agent), old(crosses)), crosses);
      KilledAdds(old(circles), Swept(old(agent), old(circles)), circles);
      c := Collisions(c.cross + d.cross, c.circle + d.circle);
    }

    /** The segments of a move that is not zero, each followed by a sweep,
      with the kills counted since the first segment. */
    method MoveSegments(xStep: real, yStep: real) returns (c: Collisions, ghost segments: nat)
      modifies this
      requires xStep != 0.0 || yStep != 0.0
      requires Clear(agent, crosses) && Clear(agent, circles)
      ensures segments <= 10 && agent == Shifted(old(agent), segments, xStep, yStep)
      ensures forall j :: 1 <= j <= segments ==> InImage(Shifted(old(agent), j, xStep, yStep))
      ensures segments < 10 ==> !InImage(Shifted(old(agent), segments + 1, xStep, yStep))
      ensures crosses == SweptAlong(old(agent), segments, xStep, yStep, old(crosses))
      ensures circles == SweptAlong(old(agent), segments, xStep, yStep, old(circles))
      ensures Weakens(old(crosses), crosses) && Weakens(old(circles), circles)
      ensures c.cross == KilledCount(old(crosses), crosses) && c.circle == KilledCount(old(circles), circles)
      ensures Clear(agent, crosses) && Clear(agent, circles)
    {
      ghost var a0, crosses0, circles0 := agent, crosses, circles;
      SweptClear(a0, crosses0);
      SweptClear(a0, circles0);
      KilledNone(crosses);
      KilledNone(circles);
      c := Collisions(0, 0);
      segments := 0;
      var i := 0;
      while i < 10
        invariant segments == i <= 10 && agent == Shifted(a0, i, xStep, yStep)
        invariant forall j :: 1 <= j <= i ==> InImage(Shifted(a0, j, xStep, yStep))
        invariant crosses == SweptAlong(a0, i, xStep, yStep, crosses0)
        invariant circles == SweptAlong(a0, i, xStep, yStep, circles0)
        invariant Weakens(crosses0, crosses) && Weakens(circles0, circles)
        invariant c.cross == KilledCount(crosses0, crosses) && c.circle == KilledCount(circles0, circles)
        invariant Clear(agent, crosses) && Clear(agent, circles)
      {
        var newX := agent.left + xStep / 10.0;
        var newY := agent.top + yStep / 10.0;
        assert Shifted(a0, i + 1, xStep, yStep) == agent.(left := newX, top := newY);
        if newY + agent.h > height as real || newY < 0.0 || newX + agent.w > width as real || newX < 0.0 {
          break;
        }
        agent := agent.(left := newX, top := newY);
        c := SweepCounting(a0, i, xStep, yStep, crosses0, circles0, c);
        i := i + 1;
        segments := i;
      }
    }

    /** `overlap / entity_size ** 2 > max_overlap_factor` on numpy numbers:
      with a zero size a positive overlap divides to infinity and a zero one
      to NaN, which compares false. */
    predicate TooClose(a: Entity, b: Entity, factor: real)
      reads this
    {
      var sq := (entitySize * entitySize) as real;
      if sq > 0.0 then OverlapArea(a, b) / sq > factor else OverlapArea(a, b) > 0.0
    }

    /** A rectangle `_sample_entities` may return for patch shape `(m, n)`:
      that size, alive, and inside the image. */
    predicate Placed(e: Entity, shape: (int, int))
      reads this
    {
      && e.h == shape.0 as real && e.w == shape.1 as real && e.alive
      && 0.0 <= e.top && e.top + e.h <= height as real
      && 0.0 <= e.left && e.left + e.w <= width as real
    }

    /** Every rectangle is within the overlap limit of all earlier ones. */
    predicate Spread(rects: seq<Entity>, factor: real)
      reads this
    {
      forall i, j :: 0 <= j < i < |rects| ==> !TooClose(rects[i], rects[j], factor)
    }

    /** The patch fits: both `randint` ranges are non-empty. */
    predicate Fits(shape: (int, int))
      reads this
    {
      height - shape.0 + 1 > 0 && width - shape.1 + 1 > 0
    }

    /** The rejection loop of `_sample_entities` for the `i`-th patch: draw a
      position (and a depth) with `draw(i, t)` on try `t`, and accept it if no
      earlier rectangle is too close; after 10001 draws give up. */
    method Place(shape: (int, int), maxOverlap: Option<real>, rects: seq<Entity>,
                 i: nat, draw: (nat, nat) -> (int, int, real)) returns (e: Option<Entity>)
      requires Fits(shape)
      ensures e.Some? ==> Placed(e.value, shape)
      ensures e.Some? && maxOverlap.Some? ==>
        forall k :: 0 <= k < |rects| ==> !TooClose(e.value, rects[k], maxOverlap.value)
      ensures maxOverlap.None? ==> e.Some?
    {
      var (m, n) := shape;
      for t := 0 to 10001
        invariant t == 0 || maxOverlap.Some?
      {
        var (dy, dx, z) := draw(i, t);
        var rect := Entity((dy % (height - m + 1)) as real, (dx % (width - n + 1)) as real,
                           m as real, n as real, true, "", z);
        if maxOverlap.None? {
          return Some(rect);
        }
        var violation := false;
        for k := 0 to |rects|
          invariant !violation ==> forall l :: 0 <= l < k ==> !TooClose(rect, rects[l], maxOverlap.value)
        {
          if TooClose(rect, rects[k], maxOverlap.value) {
            violation := true;
            break;
          }
        }
        if !violation {
          return Some(rect);
        }
      }
      return None;
    }

    /** `_sample_entities(patch_shapes, max_overlap_factor)` without
      `size_std`: one rectangle per patch shape, each inside the image and,
      when a factor is given, within it of every earlier one. A patch larger
      than the image is a ValueError from `randint`; a patch that cannot be
      placed in 10001 draws raises `Exception`, which only a factor can cause. */
    method SampleEntities(shapes: seq<(int, int)>, maxOverlap: Option<real>,
                          draw: (nat, nat) -> (int, int, real)) returns (r: Result<seq<Entity>>)
      ensures shapes == [] ==> r == Ok([])
      ensures r.Ok? ==>
        && |r.value| == |shapes|
        && (forall i :: 0 <= i < |shapes| ==> Placed(r.value[i], shapes[i]))
        && (maxOverlap.Some? ==> Spread(r.value, maxOverlap.value))
      ensures r.Err? ==> r.error == "ValueError" || (r.error == "Exception" && maxOverlap.Some?)
      ensures r == Err("ValueError") ==> exists i :: 0 <= i < |shapes| && !Fits(shapes[i])
      ensures (exists i :: 0 <= i < |shapes| && !Fits(shapes[i])) ==> r.Err?
      ensures maxOverlap.None? ==> (r.Ok? <==> forall i :: 0 <= i < |shapes| ==> Fits(shapes[i]))
    {
      var rects: seq<Entity> := [];
      for i := 0 to |shapes|
        invariant |rects| == i
        invariant forall k :: 0 <= k < i ==> Placed(rects[k], shapes[k]) && Fits(shapes[k])
        invariant maxOverlap.Some? ==> Spread(rects, maxOverlap.value)
      {
        if !Fits(shapes[i]) {
          return Err("ValueError");
        }
        var e := Place(shapes[i], maxOverlap, rects, i, draw);
        if e.None? {
          return Err("Exception");
        }
        rects := rects + [e.value];
      }
      return Ok(rects);
    }

    /** The step used by `step`: `step_size`, or `entity_size / 2 +
      entity_size % 2` when it is None. */
    function StepLength(): real
    {
      match stepSize
      case Some(s) => s
      case None => (entitySize as real) / 2.0 + ((entitySize % 2) as real)
    }

    /** `step(action)`: the move of `ACTION_LOOKUP[action]` (an unknown
      action is a KeyError and changes nothing); the reward is the crosses
      collected minus the circles collected, and the episode never ends. */
    method Step(action: int) returns (r: Result<(int, bool)>, ghost segments: nat)
      modifies this
      ensures Direction(action, StepLength()).None? ==>
        r == Err("KeyError") && crosses == old(crosses) && circles == old(circles) && agent == old(agent)
      ensures Direction(action, StepLength()).Some? ==> r.Ok?
      ensures r.Ok? ==>
        var (dx, dy) := Direction(action, StepLength()).value;
        && segments <= 10 && agent == Shifted(old(agent), segments, dx, dy)
        && (forall j :: 1 <= j <= segments ==> InImage(Shifted(old(agent), j, dx, dy)))
        && (dx == 0.0 && dy == 0.0 ==> segments == 0)
        && ((dx != 0.0 || dy != 0.0) && segments < 10 ==> !InImage(Shifted(old(agent), segments + 1, dx, dy)))
        && crosses == SweptAlong(old(agent), segments, dx, dy, old(crosses))
        && circles == SweptAlong(old(agent), segments, dx, dy, old(circles))
        && Weakens(old(crosses), crosses) && Weakens(old(circles), circles)
        && r.value == (KilledCount(old(crosses), crosses) - KilledCount(old(circles), circles), false)
    {
      var d := Direction(action, StepLength());
      if d.None? {
        return Err("KeyError"), 0;
      }
      var c;
      c, segments := MoveAgent(d.value.0, d.value.1);
      r := Ok((c.cross - c.circle, false));
    }

    /** The end of `setup_field`: entities under the agent's starting place
      are cleared without a move. */
    method ClearUnderAgent() returns (c: Collisions)
      modifies this
      ensures agent == old(agent)
      ensures Weakens(old(crosses), crosses) && Weakens(old(circles), circles)
      ensures crosses == Swept(agent, old(crosses)) && circles == Swept(agent, old(circles))
    {
      ghost var segments;
      c, segments := MoveAgent(0.0, 0.0);
    }
  }

  lemma {:induction false} KilledSnoc(es: seq<Entity>, r: seq<Entity>, i: nat)
    requires |es| == |r| && i < |es|
    ensures KilledCount(es[..i + 1], r[..i + 1])
         == KilledCount(es[..i], r[..i]) + (if es[i].alive && !r[i].alive then 1 else 0)
    decreases i
  {
    if i > 0 {
      KilledSnoc(es[1..], r[1..], i - 1);
      assert es[1..][..i] == es[..i + 1][1..] && r[1..][..i] == r[..i + 1][1..];
      assert es[1..][..i - 1] == es[..i][1..] && r[1..][..i - 1] == r[..i][1..];
    }
  }

  /** `int(round(np.sqrt(n)))` for a count `n`: the `k` with
      `|sqrt(n) - k| < 1/2`, i.e. `k*k - k < n <= k*k + k` (an integer's root
      is never half-way between two integers). */
  predicate IsRoundSqrt(n: nat, k: nat)
  {
    if k == 0 then n == 0 else k * k - k < n <= k * k + k
  }

  function RoundSqrt(n: nat): (k: nat)
    ensures IsRoundSqrt(n, k)
  {
    if n == 0 then 0
    else
      var k := RoundSqrt(n - 1);
      if k > 0 && n <= k * k + k then k
      else
        assert (k + 1) * (k + 1) == k * k + 2 * k + 1;
        k + 1
  }

  /** The rounded root is the only one. */
  lemma RoundSqrtUnique(n: nat, k: nat)
    requires IsRoundSqrt(n, k)
    ensures k == RoundSqrt(n)
  {
    var r := RoundSqrt(n);
    if k < r {
      SquareStep(k, r);
    } else if r < k {
      SquareStep(r, k);
    }
  }

  /** Consecutive intervals `(k*k - k, k*k + k]` do not overlap. */
  lemma SquareStep(k: nat, r: nat)
    requires k < r
    ensures k * k + k <= r * r - r
  {
    var d := r - k;
    assert r * r - r == (k + d) * (k + d) - (k + d);
    assert (k + d) * (k + d) == k * k + 2 * k * d + d * d;
    assert 2 * k * d >= 2 * k && d * d >= d;
  }

  /** Grid mode: `round(sqrt(n)) ** 2` entities, which is within `round(sqrt(n))`
      of `n`. */
  function GridCount(n: nat): (count: nat)
    ensures var k := RoundSqrt(n); count == k * k && n - k <= count < n + k + (if n == 0 then 1 else 0)
  {
    RoundSqrt(n) * RoundSqrt(n)
  }

  /** The centre of grid cell `i` along an axis of `size` with `k` cells per
      row: `spacing / 2 + spacing * i`. */
  function GridCentre(size: real, k: nat, i: nat): real
    requires k > 0
  {
    size / (k as real) / 2.0 + size / (k as real) * (i as real)
  }

  /** Every grid centre is strictly inside the axis. */
  lemma GridCentreInside(size: real, k: nat, i: nat)
    requires k > 0 && i < k && size > 0.0
    ensures 0.0 < GridCentre(size, k, i) < size
  {
    var sp := size / (k as real);
    assert sp > 0.0;
    assert sp * (i as real) >= 0.0;
    assert sp * (i as real) <= sp * ((k - 1) as real);
    assert sp * ((k - 1) as real) == size - sp;
  }
}
