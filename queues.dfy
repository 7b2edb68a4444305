/**
 * `selfqueuelink` and `queuelink`: circular doubly linked queues threaded
 * through their own nodes, with a root node that is not part of the queue.
 * An unlinked node points to itself both ways, so unlinking it again has
 * no effect.
 *
 * The nodes live in an arena and are named by their index; `next` and
 * `prev` hold each node's links.  One node of the arena is the root of the
 * queue, and the ghost sequence `elems` lists the queued nodes from head to
 * tail.  `queuelink<T>` links its nodes exactly like `selfqueuelink` and
 * differs only in `removehead`/`removetail`, which it does without checking
 * for an empty queue; its data pointer is not part of this model.
 */
module Queues {
  import opened Sequences

  /** The queued nodes are distinct nodes of the arena other than the root, and every link is a node. */
  ghost predicate Shape(next: seq<nat>, prev: seq<nat>, root: nat, L: seq<nat>)
  {
    |next| == |prev| && root < |next|
    && (forall y :: 0 <= y < |next| ==> next[y] < |next| && prev[y] < |next|)
    && (forall i :: 0 <= i < |L| ==> L[i] < |next| && L[i] != root)
    && (forall i, j :: 0 <= i < j < |L| ==> L[i] != L[j])
  }

  /** The root links to the head and the tail, or to itself when the queue is empty. */
  ghost predicate RootLinks(next: seq<nat>, prev: seq<nat>, root: nat, L: seq<nat>)
    requires root < |next| == |prev|
  {
    next[root] == (if L == [] then root else L[0])
    && prev[root] == (if L == [] then root else L[|L| - 1])
  }

  /** Each queued node links forward to its successor, the last one to the root. */
  ghost predicate NextLinks(next: seq<nat>, root: nat, L: seq<nat>)
    requires forall i :: 0 <= i < |L| ==> L[i] < |next|
  {
    forall i {:trigger next[L[i]]} :: 0 <= i < |L| ==> next[L[i]] == if i + 1 < |L| then L[i + 1] else root
  }

  /** Each queued node links back to its predecessor, the first one to the root. */
  ghost predicate PrevLinks(prev: seq<nat>, root: nat, L: seq<nat>)
    requires forall i :: 0 <= i < |L| ==> L[i] < |prev|
  {
    forall i {:trigger prev[L[i]]} :: 0 <= i < |L| ==> prev[L[i]] == if i == 0 then root else L[i - 1]
  }

  /** Every other node points to itself both ways. */
  ghost predicate FreeLinks(next: seq<nat>, prev: seq<nat>, root: nat, L: seq<nat>)
    requires |next| == |prev|
  {
    forall y :: 0 <= y < |next| && y != root && y !in L ==> next[y] == y && prev[y] == y
  }

  /** The links of the nodes represent the queue L (head first) behind root. */
  ghost predicate QueueLinks(next: seq<nat>, prev: seq<nat>, root: nat, L: seq<nat>)
  {
    Shape(next, prev, root, L) && RootLinks(next, prev, root, L)
    && NextLinks(next, root, L) && PrevLinks(prev, root, L) && FreeLinks(next, prev, root, L)
  }

  /**
   * `addlink(root, root.next)` (`addhead`) for a node x that is not queued:
   * x is spliced in right after the root and becomes the head.
   */
  lemma AddLinkHead(next: seq<nat>, prev: seq<nat>, root: nat, L: seq<nat>, x: nat)
    requires QueueLinks(next, prev, root, L) && x < |next| && x != root && x !in L
    ensures var p, n := root, next[root];
      QueueLinks(next[x := n][p := x], prev[n := x][x := p], root, [x] + L)
  {
    var p, n := root, next[root];
    var next', prev' := next[x := n][p := x], prev[n := x][x := p];
    var L' := [x] + L;
    assert forall i :: 1 <= i < |L'| ==> L'[i] == L[i - 1];
    assert Shape(next', prev', root, L');
    assert RootLinks(next', prev', root, L');
    AddHeadNext(next, root, L, x);
    AddHeadPrev(prev, root, L, x, n);
    assert FreeLinks(next', prev', root, L');
  }

  lemma AddHeadNext(next: seq<nat>, root: nat, L: seq<nat>, x: nat)
    requires root < |next| && x < |next| && x != root && x !in L
    requires forall i :: 0 <= i < |L| ==> L[i] < |next| && L[i] != root
    requires NextLinks(next, root, L) && next[root] == (if L == [] then root else L[0])
    ensures NextLinks(next[x := next[root]][root := x], root, [x] + L)
  {
    var next' := next[x := next[root]][root := x];
    var L' := [x] + L;
    assert forall i :: 0 <= i < |L'| ==> L'[i] < |next'|;
    forall i | 0 <= i < |L'|
      ensures next'[L'[i]] == if i + 1 < |L'| then L'[i + 1] else root
    {
      if i > 0 {
        assert L'[i] == L[i - 1];
        assert next[L[i - 1]] == if i < |L| then L[i] else root;
        if i + 1 < |L'| {
          assert L'[i + 1] == L[i];
        }
      }
    }
    assert NextLinks(next', root, L');
  }

  lemma AddHeadPrev(prev: seq<nat>, root: nat, L: seq<nat>, x: nat, n: nat)
    requires root < |prev| && x < |prev| && x != root && x !in L
    requires forall i :: 0 <= i < |L| ==> L[i] < |prev| && L[i] != root
    requires forall i, j :: 0 <= i < j < |L| ==> L[i] != L[j]
    requires PrevLinks(prev, root, L) && n == (if L == [] then root else L[0])
    ensures PrevLinks(prev[n := x][x := root], root, [x] + L)
  {
    var prev' := prev[n := x][x := root];
    var L' := [x] + L;
    assert forall i :: 0 <= i < |L'| ==> L'[i] < |prev'|;
    forall i | 0 <= i < |L'|
      ensures prev'[L'[i]] == if i == 0 then root else L'[i - 1]
    {
      if i > 1 {
        assert L'[i] == L[i - 1] != L[0];
      }
    }
    assert PrevLinks(prev', root, L');
  }

  /**
   * `addlink(root.prev, root)` (`addtail`) for a node x that is not queued:
   * x is spliced in right before the root and becomes the tail.
   */
  lemma AddLinkTail(next: seq<nat>, prev: seq<nat>, root: nat, L: seq<nat>, x: nat)
    requires QueueLinks(next, prev, root, L) && x < |next| && x != root && x !in L
    ensures var p, n := prev[root], root;
      QueueLinks(next[x := n][p := x], prev[n := x][x := p], root, L + [x])
  {
    var p, n := prev[root], root;
    var next', prev' := next[x := n][p := x], prev[n := x][x := p];
    var L' := L + [x];
    assert forall i :: 0 <= i < |L| ==> L'[i] == L[i];
    assert Shape(next', prev', root, L');
    assert RootLinks(next', prev', root, L');
    AddTailNext(next, root, L, x, p);
    AddTailPrev(prev, root, L, x);
    assert FreeLinks(next', prev', root, L');
  }

  lemma AddTailNext(next: seq<nat>, root: nat, L: seq<nat>, x: nat, p: nat)
    requires root < |next| && x < |next| && x != root && x !in L
    requires forall i :: 0 <= i < |L| ==> L[i] < |next| && L[i] != root
    requires forall i, j :: 0 <= i < j < |L| ==> L[i] != L[j]
    requires NextLinks(next, root, L) && p == (if L == [] then root else L[|L| - 1])
    ensures NextLinks(next[x := root][p := x], root, L + [x])
  {
    var next' := next[x := root][p := x];
    var L' := L + [x];
    assert forall i :: 0 <= i < |L'| ==> L'[i] < |next'|;
    forall i | 0 <= i < |L'|
      ensures next'[L'[i]] == if i + 1 < |L'| then L'[i + 1] else root
    {
      if i < |L| {
        assert L'[i] == L[i];
        if i < |L| - 1 {
          assert L[i] != L[|L| - 1];
        }
      }
    }
    assert NextLinks(next', root, L');
  }

  lemma AddTailPrev(prev: seq<nat>, root: nat, L: seq<nat>, x: nat)
    requires root < |prev| && x < |prev| && x != root && x !in L
    requires forall i :: 0 <= i < |L| ==> L[i] < |prev| && L[i] != root
    requires PrevLinks(prev, root, L) && prev[root] == (if L == [] then root else L[|L| - 1])
    ensures PrevLinks(prev[root := x][x := prev[root]], root, L + [x])
  {
    var prev' := prev[root := x][x := prev[root]];
    var L' := L + [x];
    assert forall i :: 0 <= i < |L'| ==> L'[i] < |prev'|;
    forall i | 0 <= i < |L'|
      ensures prev'[L'[i]] == if i == 0 then root else L'[i - 1]
    {
      if i < |L| {
        assert L'[i] == L[i];
        assert prev[L[i]] == if i == 0 then root else L[i - 1];
        if i > 0 {
          assert L'[i - 1] == L[i - 1];
        }
      } else if i > 0 {
        assert L'[i - 1] == L[|L| - 1];
      }
    }
    assert PrevLinks(prev', root, L');
  }

  /** After unlinking the k-th node, the rest is still a well-shaped queue whose root links to its ends. */
  lemma UnlinkShape(next: seq<nat>, prev: seq<nat>, root: nat, L: seq<nat>, k: nat)
    requires QueueLinks(next, prev, root, L) && k < |L|
    ensures var x := L[k];
      var p, n := prev[x], next[x];
      var next', prev' := next[p := n][x := x], prev[n := p][x := x];
      var L' := L[..k] + L[k + 1..];
      Shape(next', prev', root, L') && RootLinks(next', prev', root, L')
  {
    var x := L[k];
    var p, n := prev[x], next[x];
    var next', prev' := next[p := n][x := x], prev[n := p][x := x];
    var L' := L[..k] + L[k + 1..];
    RemovedAt(L, k, L');
    assert PrevLinks(prev, root, L) && NextLinks(next, root, L);
    assert p == if k == 0 then root else L[k - 1];
    assert n == if k + 1 < |L| then L[k + 1] else root;
    assert Shape(next', prev', root, L');
    assert RootLinks(next', prev', root, L');
  }

  /** `unlink()` of the k-th queued node closes the gap and leaves that node pointing to itself. */
  lemma UnlinkAt(next: seq<nat>, prev: seq<nat>, root: nat, L: seq<nat>, k: nat)
    requires QueueLinks(next, prev, root, L) && k < |L|
    ensures var x := L[k];
      var p, n := prev[x], next[x];
      QueueLinks(next[p := n][x := x], prev[n := p][x := x], root, L[..k] + L[k + 1..])
  {
    var x := L[k];
    var p, n := prev[x], next[x];
    var next', prev' := next[p := n][x := x], prev[n := p][x := x];
    var L' := L[..k] + L[k + 1..];
    RemovedAt(L, k, L');
    assert PrevLinks(prev, root, L) && NextLinks(next, root, L);
    assert p == if k == 0 then root else L[k - 1];
    assert n == if k + 1 < |L| then L[k + 1] else root;
    UnlinkShape(next, prev, root, L, k);
    UnlinkNext(next, root, L, k, p);
    UnlinkPrev(prev, root, L, k, n);
    UnlinkFree(next, prev, root, L, k);
  }

  /** A node that is neither the root nor queued points to itself both ways. */
  lemma SelfLinked(next: seq<nat>, prev: seq<nat>, root: nat, L: seq<nat>, x: nat)
    requires QueueLinks(next, prev, root, L) && x < |next| && x != root && x !in L
    ensures next[x] == x && prev[x] == x
  {
    assert FreeLinks(next, prev, root, L);
  }

  lemma UnlinkNext(next: seq<nat>, root: nat, L: seq<nat>, k: nat, p: nat)
    requires root < |next| && k < |L|
    requires forall i :: 0 <= i < |L| ==> L[i] < |next| && L[i] != root
    requires forall i, j :: 0 <= i < j < |L| ==> L[i] != L[j]
    requires NextLinks(next, root, L) && p == (if k == 0 then root else L[k - 1])
    ensures NextLinks(next[p := next[L[k]]][L[k] := L[k]], root, L[..k] + L[k + 1..])
  {
    var x := L[k];
    var next' := next[p := next[x]][x := x];
    var L' := L[..k] + L[k + 1..];
    RemovedAt(L, k, L');
    assert forall i :: 0 <= i < |L'| ==> L'[i] < |next'|;
    forall i | 0 <= i < |L'|
      ensures next'[L'[i]] == if i + 1 < |L'| then L'[i + 1] else root
    {
      var j := if i < k then i else i + 1;
      assert L'[i] == L[j] && j != k;
      assert next[x] == if k + 1 < |L| then L[k + 1] else root;
      if i + 1 < |L'| {
        assert L'[i + 1] == L[if i + 1 < k then i + 1 else i + 2];
      }
      if j == k - 1 {
        assert L[j] == p;
      } else {
        assert L[j] != p && L[j] != x;
        assert next[L[j]] == if j + 1 < |L| then L[j + 1] else root;
      }
    }
    assert NextLinks(next', root, L');
  }

  lemma UnlinkPrev(prev: seq<nat>, root: nat, L: seq<nat>, k: nat, n: nat)
    requires root < |prev| && k < |L|
    requires forall i :: 0 <= i < |L| ==> L[i] < |prev| && L[i] != root
    requires forall i, j :: 0 <= i < j < |L| ==> L[i] != L[j]
    requires PrevLinks(prev, root, L) && n == (if k + 1 < |L| then L[k + 1] else root)
    ensures PrevLinks(prev[n := prev[L[k]]][L[k] := L[k]], root, L[..k] + L[k + 1..])
  {
    var x := L[k];
    var prev' := prev[n := prev[x]][x := x];
    var L' := L[..k] + L[k + 1..];
    RemovedAt(L, k, L');
    assert forall i :: 0 <= i < |L'| ==> L'[i] < |prev'|;
    forall i | 0 <= i < |L'|
      ensures prev'[L'[i]] == if i == 0 then root else L'[i - 1]
    {
      var j := if i < k then i else i + 1;
      assert L'[i] == L[j] && j != k;
      assert prev[x] == if k == 0 then root else L[k - 1];
      if i > 0 {
        assert L'[i - 1] == L[if i - 1 < k then i - 1 else i];
      }
      if j == k + 1 {
        assert L[j] == n;
      } else {
        assert L[j] != n && L[j] != x;
        assert prev[L[j]] == if j == 0 then root else L[j - 1];
      }
    }
    assert PrevLinks(prev', root, L');
  }

  lemma UnlinkFree(next: seq<nat>, prev: seq<nat>, root: nat, L: seq<nat>, k: nat)
    requires QueueLinks(next, prev, root, L) && k < |L|
    ensures var x := L[k];
      FreeLinks(next[prev[x] := next[x]][x := x], prev[next[x] := prev[x]][x := x], root, L[..k] + L[k + 1..])
  {
    var x := L[k];
    var p, n := prev[x], next[x];
    var next', prev' := next[p := n][x := x], prev[n := p][x := x];
    var L' := L[..k] + L[k + 1..];
    RemovedAt(L, k, L');
    assert PrevLinks(prev, root, L) && NextLinks(next, root, L);
    assert p == if k == 0 then root else L[k - 1];
    assert n == if k + 1 < |L| then L[k + 1] else root;
    forall y | 0 <= y < |next'| && y != root && y !in L'
      ensures next'[y] == y && prev'[y] == y
    {
      if y != x {
        if y in L {
          RemovedKeepsOthers(L, k, L', y);
          assert false;
        }
        assert y != p && y != n;
      }
    }
  }

  class QueueArena {
    const root: nat
    const next: array<nat>
    const prev: array<nat>
    /** The queued nodes, head first. */
    ghost var elems: seq<nat>

    ghost predicate Valid()
      reads this, next, prev
    {
      next != prev && QueueLinks(next[..], prev[..], root, elems)
    }

    /** An arena of `size` nodes, each `reset()` to point to itself: an empty queue behind `root`. */
    constructor(size: nat, root: nat)
      requires root < size
      ensures Valid() && fresh(next) && fresh(prev)
      ensures this.root == root && next.Length == size && elems == []
    {
      this.root := root;
      next := new nat[size](i => i);
      prev := new nat[size](i => i);
      elems := [];
    }

    /** `empty()`: the root points to itself. */
    predicate Empty()
      reads this, next, prev
      requires Valid()
    {
      next[root] == root
    }

    lemma EmptyIffNoElements()
      requires Valid()
      ensures Empty() <==> elems == []
    {
      if elems != [] {
        assert next[..][root] == elems[0];
      }
    }

    /** Whether node x points to itself both ways (`unlinked()`). */
    predicate Unlinked(x: nat)
      reads this, next, prev
      requires x < next.Length && x < prev.Length
    {
      next[x] == x && prev[x] == x
    }

    /** `x.addhead(root)`: the unqueued node x becomes the head. */
    method AddHead(x: nat)
      requires Valid() && x < next.Length && x != root && x !in elems
      modifies this, next, prev
      ensures Valid() && elems == [x] + old(elems)
    {
      ghost var n0: seq<nat>, p0: seq<nat> := next[..], prev[..];
      AddLinkHead(n0, p0, root, elems, x);
      var p: nat, n: nat := root, next[root];
      prev[n] := x;
      next[x] := n;
      prev[x] := p;
      next[p] := x;
      elems := [x] + elems;
      assert next[..] == n0[x := n][p := x];
      assert prev[..] == p0[n := x][x := p];
    }

    /** `x.addtail(root)`: the unqueued node x becomes the tail. */
    method AddTail(x: nat)
      requires Valid() && x < next.Length && x != root && x !in elems
      modifies this, next, prev
      ensures Valid() && elems == old(elems) + [x]
    {
      ghost var n0: seq<nat>, p0: seq<nat> := next[..], prev[..];
      AddLinkTail(n0, p0, root, elems, x);
      var p: nat, n: nat := prev[root], root;
      prev[n] := x;
      next[x] := n;
      prev[x] := p;
      next[p] := x;
      elems := elems + [x];
      assert next[..] == n0[x := n][p := x];
      assert prev[..] == p0[n := x][x := p];
    }

    /**
     * `x.unlink()`: a queued node leaves the queue, the others keep their
     * order, and x points to itself; an unlinked node is left as it is.
     */
    method Unlink(x: nat)
      requires Valid() && x < next.Length && x != root
      modifies this, next, prev
      ensures Valid() && Unlinked(x)
      ensures x !in old(elems) ==> elems == old(elems) && next[..] == old(next[..]) && prev[..] == old(prev[..])
      ensures forall k :: 0 <= k < |old(elems)| && old(elems)[k] == x ==>
        elems == old(elems)[..k] + old(elems)[k + 1..]
    {
      ghost var n0: seq<nat>, p0: seq<nat> := next[..], prev[..];
      ghost var k: nat := 0;
      if x in elems {
        k :| 0 <= k < |elems| && elems[k] == x;
        UnlinkAt(n0, p0, root, elems, k);
      } else {
        SelfLinked(n0, p0, root, elems, x);
      }
      var p: nat, n: nat := prev[x], next[x];
      prev[n] := p;
      next[p] := n;
      prev[x] := x;
      next[x] := x;
      assert next[..] == n0[p := n][x := x];
      assert prev[..] == p0[n := p][x := x];
      if x in elems {
        elems := elems[..k] + elems[k + 1..];
      } else {
        assert next[..] == n0 && prev[..] == p0;
      }
    }

    /** `selfqueuelink::removehead()`: null (-1) on an empty queue, else the head, unlinked. */
    method RemoveHead() returns (link: int)
      requires Valid()
      modifies this, next, prev
      ensures Valid()
      ensures old(elems) == [] ==> link == -1 && elems == [] && next[..] == old(next[..]) && prev[..] == old(prev[..])
      ensures old(elems) != [] ==> link == old(elems)[0] && elems == old(elems)[1..] && Unlinked(link)
    {
      EmptyIffNoElements();
      if next[root] == root {
        return -1;
      }
      link := next[root];
      assert link == elems[0] by { assert next[..][root] == elems[0]; }
      Unlink(link);
    }

    /** `selfqueuelink::removetail()`: null (-1) on an empty queue, else the tail, unlinked. */
    method RemoveTail() returns (link: int)
      requires Valid()
      modifies this, next, prev
      ensures Valid()
      ensures old(elems) == [] ==> link == -1 && elems == [] && next[..] == old(next[..]) && prev[..] == old(prev[..])
      ensures old(elems) != [] ==>
        link == old(elems)[|old(elems)| - 1] && elems == old(elems)[..|old(elems)| - 1] && Unlinked(link)
    {
      EmptyIffNoElements();
      if next[root] == root {
        return -1;
      }
      link := prev[root];
      assert link == elems[|elems| - 1] by { assert prev[..][root] == elems[|elems| - 1]; }
      Unlink(link);
      assert old(elems)[..|old(elems)| - 1] + old(elems)[|old(elems)|..] == old(elems)[..|old(elems)| - 1];
    }

    /**
     * `queuelink::removehead()`: no check for an empty queue, so on an empty
     * queue it "removes" the root itself, which is left as it was.
     */
    method RemoveHeadUnchecked() returns (link: nat)
      requires Valid()
      modifies this, next, prev
      ensures Valid()
      ensures old(elems) == [] ==> link == root && elems == [] && next[..] == old(next[..]) && prev[..] == old(prev[..])
      ensures old(elems) != [] ==> link == old(elems)[0] && elems == old(elems)[1..] && Unlinked(link)
    {
      EmptyIffNoElements();
      link := next[root];
      if link == root {
        // unlinking a node that points to itself writes back the same links
        ghost var n0: seq<nat>, p0: seq<nat> := next[..], prev[..];
        prev[root] := prev[root];
        next[root] := next[root];
        assert next[..] == n0 && prev[..] == p0;
        return;
      }
      assert link == elems[0] by { assert next[..][root] == elems[0]; }
      Unlink(link);
    }

    /** `queuelink::removetail()`: like RemoveHeadUnchecked, from the tail. */
    method RemoveTailUnchecked() returns (link: nat)
      requires Valid()
      modifies this, next, prev
      ensures Valid()
      ensures old(elems) == [] ==> link == root && elems == [] && next[..] == old(next[..]) && prev[..] == old(prev[..])
      ensures old(elems) != [] ==>
        link == old(elems)[|old(elems)| - 1] && elems == old(elems)[..|old(elems)| - 1] && Unlinked(link)
    {
      EmptyIffNoElements();
      link := prev[root];
      if link == root {
        ghost var n0: seq<nat>, p0: seq<nat> := next[..], prev[..];
        prev[root] := prev[root];
        next[root] := next[root];
        assert next[..] == n0 && prev[..] == p0;
        return;
      }
      assert link == elems[|elems| - 1] by { assert prev[..][root] == elems[|elems| - 1]; }
      Unlink(link);
      assert old(elems)[..|old(elems)| - 1] + old(elems)[|old(elems)|..] == old(elems)[..|old(elems)| - 1];
    }
  }
}
