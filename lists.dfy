/**
 * `listlink`: a doubly linked list hanging from a single root pointer.  A
 * node holds `next`, the following node or null, and `prevnp`, the
 * address of the pointer that points to it: the root pointer for the first
 * node, the `next` field of the node before it otherwise, and null while
 * the node is unlinked.
 *
 * The nodes live in an arena and are named by their index.  A `next` of -1
 * is null; a `prevnp` of -1 is null, ROOT_LINK stands for the address of
 * the root pointer and a node index k for the address of node k's `next`.
 * The ghost sequence `elems` lists the nodes from the root onwards.
 */
module Lists {
  import opened Sequences

  const NULL: int := -1
  const ROOT_LINK: int := -2

  /** The listed nodes are distinct nodes of the arena. */
  ghost predicate ListShape(next: seq<int>, prevnp: seq<int>, L: seq<nat>)
  {
    |next| == |prevnp|
    && (forall i :: 0 <= i < |L| ==> L[i] < |next|)
    && (forall i, j :: 0 <= i < j < |L| ==> L[i] != L[j])
  }

  /** Each listed node's `next` is the node after it, null for the last one. */
  ghost predicate ForwardLinks(next: seq<int>, L: seq<nat>)
    requires forall i :: 0 <= i < |L| ==> L[i] < |next|
  {
    forall i {:trigger next[L[i]]} :: 0 <= i < |L| ==> next[L[i]] == if i + 1 < |L| then L[i + 1] else NULL
  }

  /** Each listed node's `prevnp` is the root pointer for the first node, the previous node's `next` otherwise. */
  ghost predicate BackLinks(prevnp: seq<int>, L: seq<nat>)
    requires forall i :: 0 <= i < |L| ==> L[i] < |prevnp|
  {
    forall i {:trigger prevnp[L[i]]} :: 0 <= i < |L| ==> prevnp[L[i]] == if i == 0 then ROOT_LINK else L[i - 1]
  }

  /** Every node not in the list is unlinked: both its links are null. */
  ghost predicate Detached(next: seq<int>, prevnp: seq<int>, L: seq<nat>)
    requires |next| == |prevnp|
  {
    forall y :: 0 <= y < |next| && y !in L ==> next[y] == NULL && prevnp[y] == NULL
  }

  /** The root and the links of the nodes represent the list L. */
  ghost predicate ListLinks(next: seq<int>, prevnp: seq<int>, root: int, L: seq<nat>)
  {
    ListShape(next, prevnp, L) && root == (if L == [] then NULL else L[0])
    && ForwardLinks(next, L) && BackLinks(prevnp, L) && Detached(next, prevnp, L)
  }

  /** `addto(root)` for an unlinked node x: x becomes the first node. */
  lemma AddToLinks(next: seq<int>, prevnp: seq<int>, root: int, L: seq<nat>, x: nat)
    requires ListLinks(next, prevnp, root, L) && x < |next| && x !in L
    ensures var prevnp1 := if root != NULL then prevnp[root := x] else prevnp;
      ListLinks(next[x := root], prevnp1[x := ROOT_LINK], x, [x] + L)
  {
    var next' := next[x := root];
    var prevnp1 := if root != NULL then prevnp[root := x] else prevnp;
    var prevnp' := prevnp1[x := ROOT_LINK];
    var L' := [x] + L;
    assert forall i :: 1 <= i < |L'| ==> L'[i] == L[i - 1];
    assert ListShape(next', prevnp', L');
    forall i | 0 <= i < |L'|
      ensures next'[L'[i]] == if i + 1 < |L'| then L'[i + 1] else NULL
      ensures prevnp'[L'[i]] == if i == 0 then ROOT_LINK else L'[i - 1]
    {
      if i > 0 {
        assert L'[i] == L[i - 1] != x;
        assert next[L[i - 1]] == if i < |L| then L[i] else NULL;
        assert prevnp[L[i - 1]] == if i == 1 then ROOT_LINK else L[i - 2];
        if i > 1 {
          assert L[i - 1] != L[0];
        }
      }
    }
    assert ForwardLinks(next', L');
    assert BackLinks(prevnp', L');
    assert Detached(next', prevnp', L');
  }

  /**
   * The links after `unlink()` of the k-th node: the pointer that pointed
   * to it (the root or the previous node's `next`) now points to its
   * successor, the successor's `prevnp` takes over its `prevnp`, and both
   * of its own links become null.
   */
  function UnlinkedNext(next: seq<int>, prevnp: seq<int>, x: nat): seq<int>
    requires x < |next| == |prevnp|
  {
    (if 0 <= prevnp[x] < |next| then next[prevnp[x] := next[x]] else next)[x := NULL]
  }

  function UnlinkedPrevnp(next: seq<int>, prevnp: seq<int>, x: nat): seq<int>
    requires x < |next| == |prevnp|
  {
    (if 0 <= next[x] < |prevnp| then prevnp[next[x] := prevnp[x]] else prevnp)[x := NULL]
  }

  lemma UnlinkForward(next: seq<int>, prevnp: seq<int>, L: seq<nat>, k: nat)
    requires ListShape(next, prevnp, L) && ForwardLinks(next, L) && BackLinks(prevnp, L) && k < |L|
    ensures var L' := L[..k] + L[k + 1..];
      (forall i :: 0 <= i < |L'| ==> L'[i] < |next|) && ForwardLinks(UnlinkedNext(next, prevnp, L[k]), L')
  {
    var x := L[k];
    var L' := L[..k] + L[k + 1..];
    RemovedAt(L, k, L');
    assert prevnp[x] == if k == 0 then ROOT_LINK else L[k - 1];
    assert next[x] == if k + 1 < |L| then L[k + 1] else NULL;
    var next' := UnlinkedNext(next, prevnp, x);
    forall i | 0 <= i < |L'|
      ensures next'[L'[i]] == if i + 1 < |L'| then L'[i + 1] else NULL
    {
      var j := if i < k then i else i + 1;
      assert L'[i] == L[j] && j != k;
      if i + 1 < |L'| {
        assert L'[i + 1] == L[if i + 1 < k then i + 1 else i + 2];
      }
      if j != k - 1 {
        assert L[j] != x;
        assert next[L[j]] == if j + 1 < |L| then L[j + 1] else NULL;
        assert k == 0 || L[j] != L[k - 1];
      }
    }
    assert ForwardLinks(next', L');
  }

  lemma UnlinkBack(next: seq<int>, prevnp: seq<int>, L: seq<nat>, k: nat)
    requires ListShape(next, prevnp, L) && ForwardLinks(next, L) && BackLinks(prevnp, L) && k < |L|
    ensures var L' := L[..k] + L[k + 1..];
      (forall i :: 0 <= i < |L'| ==> L'[i] < |prevnp|) && BackLinks(UnlinkedPrevnp(next, prevnp, L[k]), L')
  {
    var x := L[k];
    var L' := L[..k] + L[k + 1..];
    RemovedAt(L, k, L');
    assert prevnp[x] == if k == 0 then ROOT_LINK else L[k - 1];
    assert next[x] == if k + 1 < |L| then L[k + 1] else NULL;
    var prevnp' := UnlinkedPrevnp(next, prevnp, x);
    forall i | 0 <= i < |L'|
      ensures prevnp'[L'[i]] == if i == 0 then ROOT_LINK else L'[i - 1]
    {
      var j := if i < k then i else i + 1;
      assert L'[i] == L[j] && j != k;
      if i > 0 {
        assert L'[i - 1] == L[if i - 1 < k then i - 1 else i];
      }
      if j != k + 1 {
        assert L[j] != x;
        assert prevnp[L[j]] == if j == 0 then ROOT_LINK else L[j - 1];
        assert k + 1 >= |L| || L[j] != L[k + 1];
      }
    }
    assert BackLinks(prevnp', L');
  }

  lemma UnlinkDetached(next: seq<int>, prevnp: seq<int>, root: int, L: seq<nat>, k: nat)
    requires ListLinks(next, prevnp, root, L) && k < |L|
    ensures var x := L[k];
      Detached(UnlinkedNext(next, prevnp, x), UnlinkedPrevnp(next, prevnp, x), L[..k] + L[k + 1..])
  {
    var x := L[k];
    var L' := L[..k] + L[k + 1..];
    RemovedAt(L, k, L');
    assert prevnp[x] == if k == 0 then ROOT_LINK else L[k - 1];
    assert next[x] == if k + 1 < |L| then L[k + 1] else NULL;
    var next', prevnp' := UnlinkedNext(next, prevnp, x), UnlinkedPrevnp(next, prevnp, x);
    forall y | 0 <= y < |next'| && y !in L'
      ensures next'[y] == NULL && prevnp'[y] == NULL
    {
      if y != x {
        if y in L {
          RemovedKeepsOthers(L, k, L', y);
          assert false;
        }
        assert y != prevnp[x] && y != next[x];
      }
    }
  }

  /** The links of a node are null, the root or nodes; an unlisted node has null links. */
  lemma LinksOfNode(next: seq<int>, prevnp: seq<int>, root: int, L: seq<nat>, x: nat)
    requires ListLinks(next, prevnp, root, L) && x < |next|
    ensures x !in L ==> next[x] == NULL && prevnp[x] == NULL
    ensures prevnp[x] == NULL || prevnp[x] == ROOT_LINK || 0 <= prevnp[x] < |next|
    ensures next[x] == NULL || 0 <= next[x] < |next|
  {
    if x in L {
      var k :| 0 <= k < |L| && L[k] == x;
      assert prevnp[L[k]] == if k == 0 then ROOT_LINK else L[k - 1];
      assert next[L[k]] == if k + 1 < |L| then L[k + 1] else NULL;
    }
  }

  /** `unlink()` of the k-th node: the list loses that node and keeps the order of the rest. */
  lemma UnlinkLinks(next: seq<int>, prevnp: seq<int>, root: int, L: seq<nat>, k: nat)
    requires ListLinks(next, prevnp, root, L) && k < |L|
    ensures var x := L[k];
      var root' := if prevnp[x] == ROOT_LINK then next[x] else root;
      ListLinks(UnlinkedNext(next, prevnp, x), UnlinkedPrevnp(next, prevnp, x), root', L[..k] + L[k + 1..])
  {
    var x := L[k];
    var L' := L[..k] + L[k + 1..];
    RemovedAt(L, k, L');
    assert ForwardLinks(next, L) && BackLinks(prevnp, L);
    assert prevnp[x] == if k == 0 then ROOT_LINK else L[k - 1];
    assert next[x] == if k + 1 < |L| then L[k + 1] else NULL;
    assert ListShape(UnlinkedNext(next, prevnp, x), UnlinkedPrevnp(next, prevnp, x), L');
    UnlinkForward(next, prevnp, L, k);
    UnlinkBack(next, prevnp, L, k);
    UnlinkDetached(next, prevnp, root, L, k);
  }

  /** The list without node x when x is listed, the list itself otherwise. */
  ghost function Without(L: seq<nat>, x: nat): seq<nat>
  {
    if x in L then var k :| 0 <= k < |L| && L[k] == x; L[..k] + L[k + 1..] else L
  }

  /** In a list of distinct nodes, leaving out x is leaving out its one position. */
  lemma WithoutAt(L: seq<nat>, x: nat, k: nat)
    requires forall i, j :: 0 <= i < j < |L| ==> L[i] != L[j]
    requires k < |L| && L[k] == x
    ensures Without(L, x) == L[..k] + L[k + 1..]
  {
    var k' :| 0 <= k' < |L| && L[k'] == x && Without(L, x) == L[..k'] + L[k' + 1..];
    assert k' == k;
  }

  /** `unlink()` of a node that is not listed changes no link. */
  lemma UnlinkUnlisted(next: seq<int>, prevnp: seq<int>, root: int, L: seq<nat>, x: nat)
    requires ListLinks(next, prevnp, root, L) && x < |next| && x !in L
    ensures prevnp[x] == NULL && next[x] == NULL
    ensures UnlinkedNext(next, prevnp, x) == next && UnlinkedPrevnp(next, prevnp, x) == prevnp
  {
  }

  /**
   * `unlink()` of any node x: a listed node leaves the list in order, an
   * unlisted one changes nothing, and x ends up with null links.
   */
  lemma UnlinkState(next: seq<int>, prevnp: seq<int>, root: int, L: seq<nat>, x: nat)
    requires ListLinks(next, prevnp, root, L) && x < |next|
    ensures prevnp[x] == NULL || prevnp[x] == ROOT_LINK || 0 <= prevnp[x] < |next|
    ensures next[x] == NULL || 0 <= next[x] < |next|
    ensures var root' := if prevnp[x] == ROOT_LINK then next[x] else root;
      ListLinks(UnlinkedNext(next, prevnp, x), UnlinkedPrevnp(next, prevnp, x), root', Without(L, x))
    ensures UnlinkedNext(next, prevnp, x)[x] == NULL && UnlinkedPrevnp(next, prevnp, x)[x] == NULL
    ensures x !in L ==>
      (prevnp[x] == NULL && Without(L, x) == L
       && UnlinkedNext(next, prevnp, x) == next && UnlinkedPrevnp(next, prevnp, x) == prevnp)
    ensures forall k :: 0 <= k < |L| && L[k] == x ==> Without(L, x) == L[..k] + L[k + 1..]
  {
    LinksOfNode(next, prevnp, root, L, x);
    if x in L {
      var k :| 0 <= k < |L| && L[k] == x;
      WithoutAt(L, x, k);
      forall j | 0 <= j < |L| && L[j] == x
        ensures Without(L, x) == L[..j] + L[j + 1..]
      {
        WithoutAt(L, x, j);
      }
      UnlinkLinks(next, prevnp, root, L, k);
    } else {
      UnlinkUnlisted(next, prevnp, root, L, x);
    }
  }

  class ListArena {
    var root: int
    const next: array<int>
    const prevnp: array<int>
    /** The listed nodes, from the root onwards. */
    ghost var elems: seq<nat>

    ghost predicate Valid()
      reads this, next, prevnp
    {
      next != prevnp && ListLinks(next[..], prevnp[..], root, elems)
    }

    /** An arena of `size` unlinked nodes (`listlink()` resets both links) and an empty root. */
    constructor(size: nat)
      ensures Valid() && fresh(next) && fresh(prevnp)
      ensures next.Length == size && elems == [] && root == NULL
    {
      next := new int[size](_ => NULL);
      prevnp := new int[size](_ => NULL);
      root := NULL;
      elems := [];
    }

    /** `linked()`: either link is set. */
    predicate Linked(x: nat)
      reads this, next, prevnp
      requires x < next.Length && x < prevnp.Length
    {
      next[x] != NULL || prevnp[x] != NULL
    }

    /** A node is linked exactly when it is in the list. */
    lemma LinkedIffListed(x: nat)
      requires Valid() && x < next.Length
      ensures Linked(x) <==> x in elems
    {
      if x in elems {
        var i :| 0 <= i < |elems| && elems[i] == x;
        assert BackLinks(prevnp[..], elems);
        assert prevnp[..][elems[i]] != NULL;
      }
    }

    /** `x.addto(root)` for an unlinked node: x becomes the first node. */
    method AddTo(x: nat)
      requires Valid() && x < next.Length && !Linked(x)
      modifies this, next, prevnp
      ensures Valid() && elems == [x] + old(elems) && root == x
    {
      LinkedIffListed(x);
      ghost var n0: seq<int>, p0: seq<int> := next[..], prevnp[..];
      AddToLinks(n0, p0, root, elems, x);
      next[x] := root;
      if root != NULL {
        prevnp[root] := x;
      }
      root := x;
      prevnp[x] := ROOT_LINK;
      elems := [x] + elems;
      assert next[..] == n0[x := old(root)];
      assert prevnp[..] == (if old(root) != NULL then p0[old(root) := x] else p0)[x := ROOT_LINK];
    }

    /**
     * The pointer updates of `unlink()`: the pointer that pointed to x (the
     * root or a node's `next`) takes x's `next`, the node after x takes x's
     * `prevnp`, and both links of x become null.
     */
    method SpliceOut(x: nat)
      requires next != prevnp && next.Length == prevnp.Length && x < next.Length
      requires prevnp[x] == NULL || prevnp[x] == ROOT_LINK || 0 <= prevnp[x] < next.Length
      requires next[x] == NULL || 0 <= next[x] < next.Length
      modifies this, next, prevnp
      ensures elems == old(elems)
      ensures root == if old(prevnp[x]) == ROOT_LINK then old(next[x]) else old(root)
      ensures next[..] == UnlinkedNext(old(next[..]), old(prevnp[..]), x)
      ensures prevnp[..] == UnlinkedPrevnp(old(next[..]), old(prevnp[..]), x)
    {
      var p, n := prevnp[x], next[x];
      if p != NULL {
        if p == ROOT_LINK {
          root := n;
        } else {
          next[p] := n;
        }
      }
      if n != NULL {
        prevnp[n] := p;
      }
      prevnp[x] := NULL;
      next[x] := NULL;
    }

    /**
     * `x.unlink()`: a listed node leaves the list, the others keep their
     * order, and both links of x become null; an unlinked node is left as
     * it is.  The result is the node itself.
     */
    method Unlink(x: nat) returns (data: nat)
      requires Valid() && x < next.Length
      modifies this, next, prevnp
      ensures Valid() && !Linked(x) && data == x
      ensures x !in old(elems) ==>
        elems == old(elems) && root == old(root) && next[..] == old(next[..]) && prevnp[..] == old(prevnp[..])
      ensures forall k :: 0 <= k < |old(elems)| && old(elems)[k] == x ==>
        elems == old(elems)[..k] + old(elems)[k + 1..]
    {
      ghost var n0: seq<int>, p0: seq<int> := next[..], prevnp[..];
      UnlinkState(n0, p0, root, elems, x);
      SpliceOut(x);
      elems := Without(elems, x);
      data := x;
      assert next[..][x] == NULL && prevnp[..][x] == NULL;
    }
  }
}
