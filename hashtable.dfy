/**
 * `Hashtable<W64, T, setcount>`: a map from 64-bit keys, separately chained
 * over `setcount` buckets.  The key manager for W64 keys hashes a key to
 * itself (converted to int) and compares keys with `==`.
 *
 * Each bucket is modelled as the sequence of its entries in chain order,
 * head first; the values are 64-bit words, 0 standing for the `T` a missing
 * key returns.  A ghost map holds the contents the table represents.
 */
module Hashtables {
  import opened Machine

  datatype Option<T> = None | Some(value: T)

  datatype Entry = Entry(key: W64, value: W64)

  /** 2^n. */
  function Pow2(n: nat): (r: nat)
    ensures r >= 1
  {
    if n == 0 then 1 else 2 * Pow2(n - 1)
  }

  /**
   * `lowbits(hash(key), log2(setcount))` for a power-of-two setcount: the
   * hash is the key truncated to a 32-bit int, whose low log2(setcount)
   * bits are those of the key as long as setcount is at most 2^31.
   */
  function BucketOf(key: W64, setcount: nat): (b: nat)
    requires setcount >= 1
    ensures b < setcount
  {
    key % setcount
  }

  /** Every entry of a bucket sits in the bucket of its key and agrees with the contents. */
  ghost predicate Placed(s: seq<seq<Entry>>, contents: map<W64, W64>)
    requires |s| >= 1
  {
    forall b, i :: 0 <= b < |s| && 0 <= i < |s[b]| ==>
      BucketOf(s[b][i].key, |s|) == b && s[b][i].key in contents && contents[s[b][i].key] == s[b][i].value
  }

  /** A bucket holds each key at most once. */
  ghost predicate Distinct(s: seq<seq<Entry>>)
  {
    forall b, i, j :: 0 <= b < |s| && 0 <= i < j < |s[b]| ==> s[b][i].key != s[b][j].key
  }

  /** Every key of the contents has an entry in its bucket. */
  ghost predicate Covered(s: seq<seq<Entry>>, contents: map<W64, W64>)
    requires |s| >= 1
  {
    forall k :: k in contents ==> exists i :: 0 <= i < |s[BucketOf(k, |s|)]| && s[BucketOf(k, |s|)][i].key == k
  }

  /** The buckets represent the contents, and count is the number of keys. */
  ghost predicate Represents(s: seq<seq<Entry>>, contents: map<W64, W64>, count: int)
  {
    |s| >= 1 && Placed(s, contents) && Distinct(s) && Covered(s, contents) && count == |contents|
  }

  /** Linking a new key at the head of its bucket adds it to the contents and to the count. */
  lemma InsertNewKey(s: seq<seq<Entry>>, contents: map<W64, W64>, count: int, key: W64, value: W64)
    requires Represents(s, contents, count) && key !in contents
    ensures var b := BucketOf(key, |s|);
      Represents(s[b := [Entry(key, value)] + s[b]], contents[key := value], count + 1)
  {
    var b := BucketOf(key, |s|);
    var s': seq<seq<Entry>> := s[b := [Entry(key, value)] + s[b]];
    assert forall i :: 1 <= i < |s'[b]| ==> s'[b][i] == s[b][i - 1];
    InsertPlacedDistinct(s, contents, key, value);
    InsertCovered(s, contents, key, value);
  }

  lemma InsertPlacedDistinct(s: seq<seq<Entry>>, contents: map<W64, W64>, key: W64, value: W64)
    requires |s| >= 1 && Placed(s, contents) && Distinct(s) && key !in contents
    ensures var b := BucketOf(key, |s|);
      Placed(s[b := [Entry(key, value)] + s[b]], contents[key := value])
      && Distinct(s[b := [Entry(key, value)] + s[b]])
  {
    var b := BucketOf(key, |s|);
    var s': seq<seq<Entry>> := s[b := [Entry(key, value)] + s[b]];
    assert forall i :: 1 <= i < |s'[b]| ==> s'[b][i] == s[b][i - 1];
  }

  lemma InsertCovered(s: seq<seq<Entry>>, contents: map<W64, W64>, key: W64, value: W64)
    requires |s| >= 1 && Covered(s, contents)
    ensures var b := BucketOf(key, |s|);
      Covered(s[b := [Entry(key, value)] + s[b]], contents[key := value])
  {
    var b := BucketOf(key, |s|);
    var s': seq<seq<Entry>> := s[b := [Entry(key, value)] + s[b]];
    forall k | k in contents[key := value]
      ensures exists i :: 0 <= i < |s'[BucketOf(k, |s'|)]| && s'[BucketOf(k, |s'|)][i].key == k
    {
      var bk := BucketOf(k, |s|);
      if k == key {
        assert s'[bk][0].key == k;
      } else {
        var i :| 0 <= i < |s[bk]| && s[bk][i].key == k;
        if bk == b {
          assert s'[bk][i + 1].key == k;
        } else {
          assert s'[bk][i].key == k;
        }
      }
    }
  }

  /** Overwriting the entry of a present key changes its value and nothing else. */
  lemma OverwriteKey(s: seq<seq<Entry>>, contents: map<W64, W64>, count: int, key: W64, value: W64, idx: nat)
    requires Represents(s, contents, count)
    requires idx < |s[BucketOf(key, |s|)]| && s[BucketOf(key, |s|)][idx].key == key
    ensures var b := BucketOf(key, |s|);
      Represents(s[b := s[b][idx := Entry(key, value)]], contents[key := value], count)
  {
    var b := BucketOf(key, |s|);
    var s': seq<seq<Entry>> := s[b := s[b][idx := Entry(key, value)]];
    var c' := contents[key := value];
    assert Placed(s', c');
    assert Distinct(s');
    forall k | k in c'
      ensures exists i :: 0 <= i < |s'[BucketOf(k, |s|)]| && s'[BucketOf(k, |s|)][i].key == k
    {
      var bk := BucketOf(k, |s|);
      var i :| 0 <= i < |s[bk]| && s[bk][i].key == k;
      assert s'[bk][i].key == k;
    }
  }

  /** Unlinking the entry of a present key drops it from the contents and from the count. */
  lemma DeleteKey(s: seq<seq<Entry>>, contents: map<W64, W64>, count: int, key: W64, idx: nat)
    requires Represents(s, contents, count)
    requires idx < |s[BucketOf(key, |s|)]| && s[BucketOf(key, |s|)][idx].key == key
    ensures var b := BucketOf(key, |s|);
      Represents(s[b := s[b][..idx] + s[b][idx + 1..]], contents - {key}, count - 1)
  {
    var b := BucketOf(key, |s|);
    assert key in contents;
    DeletePlacedDistinct(s, contents, key, idx);
    DeleteCovered(s, contents, key, idx);
  }

  lemma DeletePlacedDistinct(s: seq<seq<Entry>>, contents: map<W64, W64>, key: W64, idx: nat)
    requires |s| >= 1 && Placed(s, contents) && Distinct(s)
    requires idx < |s[BucketOf(key, |s|)]| && s[BucketOf(key, |s|)][idx].key == key
    ensures var b := BucketOf(key, |s|);
      Placed(s[b := s[b][..idx] + s[b][idx + 1..]], contents - {key})
      && Distinct(s[b := s[b][..idx] + s[b][idx + 1..]])
  {
    var b := BucketOf(key, |s|);
    var chain := s[b][..idx] + s[b][idx + 1..];
    assert forall i :: 0 <= i < |chain| ==> chain[i] == s[b][if i < idx then i else i + 1];
  }

  lemma DeleteCovered(s: seq<seq<Entry>>, contents: map<W64, W64>, key: W64, idx: nat)
    requires |s| >= 1 && Covered(s, contents) && Distinct(s)
    requires idx < |s[BucketOf(key, |s|)]| && s[BucketOf(key, |s|)][idx].key == key
    ensures var b := BucketOf(key, |s|);
      Covered(s[b := s[b][..idx] + s[b][idx + 1..]], contents - {key})
  {
    var b := BucketOf(key, |s|);
    var chain := s[b][..idx] + s[b][idx + 1..];
    var s': seq<seq<Entry>> := s[b := chain];
    forall k | k in contents - {key}
      ensures exists i :: 0 <= i < |s'[BucketOf(k, |s'|)]| && s'[BucketOf(k, |s'|)][i].key == k
    {
      var bk := BucketOf(k, |s|);
      var i :| 0 <= i < |s[bk]| && s[bk][i].key == k;
      if bk == b {
        var i' := if i < idx then i else i - 1;
        assert chain[i'] == s[b][if i' < idx then i' else i' + 1];
        assert s'[bk][i'].key == k;
      } else {
        assert s'[bk][i].key == k;
      }
    }
  }

  class Hashtable {
    const setcount: nat
    const sets: array<seq<Entry>>
    var count: int
    /** The key-value pairs the table holds. */
    ghost var contents: map<W64, W64>

    ghost predicate Valid()
      reads this, sets
    {
      setcount >= 1 && sets.Length == setcount && Represents(sets[..], contents, count)
    }

    /** `Hashtable()` with 2^setbits buckets, all empty. */
    constructor(setbits: nat)
      requires setbits <= 31
      ensures Valid() && fresh(sets)
      ensures setcount == Pow2(setbits) && contents == map[] && count == 0
    {
      setcount := Pow2(setbits);
      sets := new seq<Entry>[Pow2(setbits)](_ => []);
      count := 0;
      contents := map[];
    }

    /**
     * `findentry(key)`: walks the chain of the key's bucket and returns the
     * position of the entry with that key, or -1 when there is none.
     */
    method FindEntry(key: W64) returns (idx: int)
      requires Valid()
      ensures -1 <= idx < |sets[BucketOf(key, setcount)]|
      ensures idx >= 0 ==> sets[BucketOf(key, setcount)][idx].key == key
      ensures idx >= 0 <==> key in contents
    {
      var chain := sets[key % setcount];
      assert chain == sets[..][BucketOf(key, setcount)];
      idx := 0;
      while idx < |chain|
        invariant 0 <= idx <= |chain|
        invariant forall j :: 0 <= j < idx ==> chain[j].key != key
      {
        if chain[idx].key == key {
          return;
        }
        idx := idx + 1;
      }
      idx := -1;
    }

    /** `get(key)`: the value stored for the key, or null when it is absent. */
    method Get(key: W64) returns (r: Option<W64>)
      requires Valid()
      ensures r == if key in contents then Some(contents[key]) else None
    {
      var idx := FindEntry(key);
      if idx < 0 {
        return None;
      }
      assert sets[..][key % setcount] == sets[key % setcount];
      r := Some(sets[key % setcount][idx].value);
    }

    /**
     * `add(key, value)`: a present key has its value overwritten in place
     * and the old value is returned, with count unchanged; a new key gets an
     * entry at the head of its bucket, count goes up by one and 0 is
     * returned.  No other bucket changes.
     */
    method Add(key: W64, value: W64) returns (old_value: W64)
      requires Valid()
      modifies this, sets
      ensures Valid()
      ensures contents == old(contents)[key := value]
      ensures key in old(contents) ==> old_value == old(contents)[key] && count == old(count)
      ensures key !in old(contents) ==>
        old_value == 0 && count == old(count) + 1
        && sets[BucketOf(key, setcount)] == [Entry(key, value)] + old(sets[BucketOf(key, setcount)])
      ensures forall b :: 0 <= b < setcount && b != BucketOf(key, setcount) ==> sets[b] == old(sets[b])
    {
      var b := key % setcount;
      var idx := FindEntry(key);
      if idx >= 0 {
        old_value := sets[b][idx].value;
        assert sets[..][b] == sets[b];
        OverwriteKey(sets[..], contents, count, key, value, idx);
        sets[b] := sets[b][idx := Entry(key, value)];
        contents := contents[key := value];
        assert sets[..] == old(sets[..])[b := sets[b]];
        return;
      }
      InsertNewKey(sets[..], contents, count, key, value);
      sets[b] := [Entry(key, value)] + sets[b];
      count := count + 1;
      contents := contents[key := value];
      old_value := 0;
      assert sets[..] == old(sets[..])[b := sets[b]];
    }

    /**
     * `remove(key)`: an absent key returns 0 and changes nothing; a present
     * one has its entry unlinked, its value returned and count lowered by
     * one.  No other bucket changes.
     */
    method Remove(key: W64) returns (removed: W64)
      requires Valid()
      modifies this, sets
      ensures Valid()
      ensures contents == old(contents) - {key}
      ensures key !in old(contents) ==> removed == 0 && count == old(count)
      ensures key in old(contents) ==> removed == old(contents)[key] && count == old(count) - 1
      ensures key !in old(contents) ==> forall b :: 0 <= b < setcount ==> sets[b] == old(sets[b])
      ensures forall b :: 0 <= b < setcount && b != BucketOf(key, setcount) ==> sets[b] == old(sets[b])
    {
      var b := key % setcount;
      var idx := FindEntry(key);
      if idx < 0 {
        assert contents - {key} == contents;
        return 0;
      }
      removed := sets[b][idx].value;
      assert sets[..][b] == sets[b];
      DeleteKey(sets[..], contents, count, key, idx);
      sets[b] := sets[b][..idx] + sets[b][idx + 1..];
      count := count - 1;
      contents := contents - {key};
      assert sets[..] == old(sets[..])[b := sets[b]];
    }

    /** `clear()`: every bucket emptied, count zero. */
    method Clear()
      requires Valid()
      modifies this, sets
      ensures Valid() && contents == map[] && count == 0
      ensures forall b :: 0 <= b < setcount ==> sets[b] == []
    {
      var i := 0;
      while i < setcount
        invariant 0 <= i <= setcount
        invariant forall b :: 0 <= b < i ==> sets[b] == []
      {
        sets[i] := [];
        i := i + 1;
      }
      count := 0;
      contents := map[];
    }
  }

  /** Adding a key and then looking it up gives the value just added. */
  method AddThenGet(h: Hashtable, key: W64, value: W64) returns (r: Option<W64>)
    requires h.Valid()
    modifies h, h.sets
    ensures h.Valid() && r == Some(value)
  {
    var _ := h.Add(key, value);
    r := h.Get(key);
  }

  /** Removing a key and then looking it up finds nothing. */
  method RemoveThenGet(h: Hashtable, key: W64) returns (r: Option<W64>)
    requires h.Valid()
    modifies h, h.sets
    ensures h.Valid() && r == None
  {
    var _ := h.Remove(key);
    r := h.Get(key);
  }
}
