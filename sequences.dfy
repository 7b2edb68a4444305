/**
 * Facts about a node sequence with one element left out, the order in
 * which an intrusive list or queue holds its nodes after an unlink.
 */
module Sequences {

  /** The sequence with its k-th element left out: the rest, shifted down past k. */
  lemma RemovedAt(L: seq<nat>, k: nat, L': seq<nat>)
    requires k < |L| && L' == L[..k] + L[k + 1..]
    ensures |L'| == |L| - 1
    ensures forall i :: 0 <= i < |L'| ==> L'[i] == L[if i < k then i else i + 1]
  {
  }

  /** Leaving out the k-th element keeps every other element. */
  lemma RemovedKeepsOthers(L: seq<nat>, k: nat, L': seq<nat>, y: nat)
    requires k < |L| && L' == L[..k] + L[k + 1..] && y in L && y != L[k]
    ensures y in L'
  {
    var i :| 0 <= i < |L| && L[i] == y;
    RemovedAt(L, k, L');
    assert L'[if i < k then i else i - 1] == y;
  }
}
