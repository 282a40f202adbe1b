/** `_iter_graph` of dps/utils/pytorch.py: a walk over an autograd graph that
    pops functions from the end of a queue, skips those already seen, and
    calls the callback once on every function reachable from the root through
    `next_functions` entries that are not None. */
module GradGraph {
  import opened Wrappers

  /** `next_functions` of every function in the graph, `None` for the empty
      slots. */
  type Graph<N> = map<N, seq<Option<N>>>

  predicate Edge<N>(g: Graph<N>, a: N, b: N)
  {
    a in g && Some(b) in g[a]
  }

  /** Every function the graph mentions has its own `next_functions`. */
  predicate Closed<N>(g: Graph<N>)
  {
    forall a, j :: a in g && 0 <= j < |g[a]| && g[a][j].Some? ==> g[a][j].value in g
  }

  /** `p` leads from `root` to `n` along edges. */
  predicate IsPath<N>(g: Graph<N>, p: seq<N>, root: N, n: N)
  {
    && |p| > 0 && p[0] == root && p[|p| - 1] == n
    && forall i :: 0 <= i < |p| - 1 ==> Edge(g, p[i], p[i + 1])
  }

  ghost predicate Reachable<N(!new)>(g: Graph<N>, root: N, n: N)
  {
    exists p :: IsPath(g, p, root, n)
  }

  /** A set holding the root and every successor of its members holds every
      node a path reaches. */
  lemma {:induction false} PathInClosedSet<N>(g: Graph<N>, s: set<N>, p: seq<N>, root: N, n: N)
    requires IsPath(g, p, root, n) && root in s
    requires forall a, b :: a in s && Edge(g, a, b) ==> b in s
    ensures n in s
    decreases |p|
  {
    if |p| > 1 {
      var q := p[..|p| - 1];
      assert IsPath(g, q, root, q[|q| - 1]);
      PathInClosedSet(g, s, q, root, q[|q| - 1]);
      assert Edge(g, p[|p| - 2], p[|p| - 1]);
    }
  }

  predicate Distinct<N(==)>(xs: seq<N>)
  {
    forall i, j :: 0 <= i < j < |xs| ==> xs[i] != xs[j]
  }

  /** `_iter_graph(root, callback)`: the functions the callback receives, in
      order. Each is called on once, and the calls are exactly the functions
      reachable from the root. */
  method IterGraph<N(==, !new)>(g: Graph<N>, root: N) returns (calls: seq<N>)
    requires root in g && Closed(g)
    ensures Distinct(calls)
    ensures |calls| > 0 && calls[0] == root
    ensures forall n :: n in calls ==> Reachable(g, root, n)
    ensures forall n :: Reachable(g, root, n) ==> n in calls
  {
    var queue := [root];
    var seen: set<N> := {};
    calls := [];
    ghost var paths: map<N, seq<N>> := map[root := [root]];
    assert IsPath(g, [root], root, root);
    while queue != []
      invariant seen <= g.Keys && (forall i :: 0 <= i < |queue| ==> queue[i] in g)
      invariant Distinct(calls) && seen == set n | n in calls
      invariant calls == [] ==> queue == [root]
      invariant calls != [] ==> calls[0] == root
      invariant forall n :: n in paths ==> IsPath(g, paths[n], root, n)
      invariant seen <= paths.Keys && forall i :: 0 <= i < |queue| ==> queue[i] in paths
      invariant forall a, b :: a in seen && Edge(g, a, b) ==> b in seen || b in queue
      decreases g.Keys - seen, |queue|
    {
      var fn := queue[|queue| - 1];
      queue := queue[..|queue| - 1];
      if fn in seen {
        continue;
      }
      seen := seen + {fn};
      var next := g[fn];
      for j := 0 to |next|
        invariant forall i :: 0 <= i < |queue| ==> queue[i] in g
        invariant forall n :: n in paths ==> IsPath(g, paths[n], root, n)
        invariant seen <= paths.Keys && forall i :: 0 <= i < |queue| ==> queue[i] in paths
        invariant forall k :: 0 <= k < j && next[k].Some? ==> next[k].value in queue
        invariant forall a, b :: a in seen - {fn} && Edge(g, a, b) ==> b in seen || b in queue
      {
        if next[j].Some? {
          var m := next[j].value;
          queue := queue + [m];
          if m !in paths {
            assert IsPath(g, paths[fn] + [m], root, m);
            paths := paths[m := paths[fn] + [m]];
          }
        }
      }
      calls := calls + [fn];
    }
    forall n | n in calls
      ensures Reachable(g, root, n)
    {
      assert IsPath(g, paths[n], root, n);
    }
    forall n | Reachable(g, root, n)
      ensures n in calls
    {
      var p :| IsPath(g, p, root, n);
      PathInClosedSet(g, seen, p, root, n);
    }
  }
}
