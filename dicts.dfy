/** Python `dict` built from a list of `(key, value)` pairs, and `sorted(d)` on its
    string keys. */
module Dicts {
  import opened Sorting
  import opened Strings

  function Firsts<V>(pairs: seq<(string, V)>): (r: seq<string>)
    ensures |r| == |pairs| && forall i :: 0 <= i < |pairs| ==> r[i] == pairs[i].0
  {
    seq(|pairs|, i requires 0 <= i < |pairs| => pairs[i].0)
  }

  /** `dict(pairs)`: a key repeated later overrides the earlier value. */
  function Dict<V>(pairs: seq<(string, V)>): (d: map<string, V>)
    ensures forall k :: k in d <==> k in Firsts(pairs)
  {
    if pairs == [] then map[]
    else
      var last := pairs[|pairs| - 1];
      assert Firsts(pairs) == Firsts(pairs[..|pairs| - 1]) + [last.0];
      Dict(pairs[..|pairs| - 1])[last.0 := last.1]
  }

  /** Each key once, in order of first appearance. */
  function Dedup(ks: seq<string>): (r: seq<string>)
    ensures Distinct(r) && |r| <= |ks|
    ensures forall k :: k in r <==> k in ks
  {
    if ks == [] then []
    else
      var rest := Dedup(ks[..|ks| - 1]);
      assert forall k :: k in ks <==> k in ks[..|ks| - 1] || k == ks[|ks| - 1];
      if ks[|ks| - 1] in rest then rest else rest + [ks[|ks| - 1]]
  }

  /** `sorted(d)` for `d = dict(pairs)`: every key once, in code-point order. */
  function SortedKeys<V>(pairs: seq<(string, V)>): (r: seq<string>)
    ensures Distinct(r) && SortedBy(r, Codes) && |r| <= |pairs|
    ensures forall k :: k in r <==> k in Dict(pairs)
  {
    var ks := Dedup(Firsts(pairs));
    var r := SortStrings(ks);
    DistinctPermutation(ks, r);
    assert forall k :: k in r <==> k in multiset(r);
    r
  }

  /** The value `dict(pairs)` keeps for a key is the one paired with it last. */
  lemma {:induction false} DictLastWins<V>(pairs: seq<(string, V)>, i: nat)
    requires i < |pairs|
    requires forall j :: i < j < |pairs| ==> pairs[j].0 != pairs[i].0
    ensures pairs[i].0 in Dict(pairs) && Dict(pairs)[pairs[i].0] == pairs[i].1
  {
    if i < |pairs| - 1 {
      DictLastWins(pairs[..|pairs| - 1], i);
    }
  }
}
