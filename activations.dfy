/** Action activation vectors. The core networks of the arithmetic tasks update
    every register as a blend weighted by the activations; a one-hot vector
    selects one action. */
module Activations {

  function OneHot(n: nat, k: nat): (a: seq<real>)
    ensures |a| == n
    ensures forall i :: 0 <= i < n ==> a[i] == (if i == k then 1.0 else 0.0)
  {
    seq(n, i => if i == k then 1.0 else 0.0)
  }
}
