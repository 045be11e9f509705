/**
 * Lists of positions in a sequence, as used to say which elements of one
 * sequence a function picked out into another, and in what order.
 */
module Positions {

  /** The positions are strictly increasing, so each appears once and in order. */
  ghost predicate Increasing(idx: seq<nat>)
  {
    forall j, k :: 0 <= j < k < |idx| ==> idx[j] < idx[k]
  }

  /** Every position one place further down. */
  function Shift(idx: seq<nat>): (r: seq<nat>)
    ensures |r| == |idx|
    ensures forall k :: 0 <= k < |idx| ==> r[k] == idx[k] + 1
    ensures forall x :: x in idx ==> x + 1 in r
  {
    if idx == [] then [] else [idx[0] + 1] + Shift(idx[1..])
  }

  /** Shifting keeps the order, and a position 0 in front keeps it too. */
  lemma ConsIncreasing(tail: seq<nat>)
    requires Increasing(tail)
    ensures Increasing(Shift(tail)) && Increasing([0] + Shift(tail))
  {
    var shifted := Shift(tail);
    assert forall k :: 0 < k < |[0] + shifted| ==> ([0] + shifted)[k] == shifted[k - 1];
  }
}
