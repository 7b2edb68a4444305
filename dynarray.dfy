/**
 * `renew` and `dynarray<T>`: a growable array that keeps `length` live
 * elements in a buffer of `reserved` slots and grows the buffer in steps of
 * `granularity` slots.  A missing buffer (the null pointer of a new array)
 * is `null`.
 */
module Dynarrays {

  predicate IsPow2(g: nat)
  {
    if g <= 1 then g == 1 else g % 2 == 0 && IsPow2(g / 2)
  }

  /**
   * `(n + (g - 1)) & ~(g - 1)` for a power of two g: clearing the low bits
   * below g rounds down to a multiple of g, so the whole expression is n
   * rounded up to a multiple of g.
   */
  function RoundUp(n: nat, g: nat): nat
    requires g >= 1
  {
    (n + g - 1) / g * g
  }

  /** The rounded size is the least multiple of g that holds n elements. */
  lemma RoundUpIsLeastMultiple(n: nat, g: nat, m: nat)
    requires g >= 1
    ensures RoundUp(n, g) % g == 0
    ensures n <= RoundUp(n, g) < n + g
    ensures m % g == 0 && n <= m ==> RoundUp(n, g) <= m
  {
    var q, r := (n + g - 1) / g, (n + g - 1) % g;
    assert n + g - 1 == q * g + r && 0 <= r < g;
    MultipleOf(q, g);
    if m % g == 0 && n <= m {
      var mq := m / g;
      assert m == mq * g;
      assert q * g - g < n;
      assert (q - 1) * g < mq * g;
      MulCancel(q - 1, mq, g);
      MulMonotone(q, mq, g);
    }
  }

  /** A multiple of g leaves no remainder. */
  lemma MultipleOf(q: nat, g: nat)
    requires g >= 1
    ensures (q * g) % g == 0
  {
    var a := q * g;
    var q', r' := a / g, a % g;
    assert a == q' * g + r' && 0 <= r' < g;
    assert (q - q') * g == r' by {
      assert (q - q') * g == q * g - q' * g;
    }
    if q' < q {
      MulMonotone(1, q - q', g);
    } else if q < q' {
      MulMonotone(q - q', -1, g);
    }
  }

  lemma MulMonotone(a: int, b: int, g: nat)
    requires a <= b
    ensures a * g <= b * g
  {
    assert b * g == a * g + (b - a) * g;
  }

  lemma MulCancel(a: int, b: int, g: nat)
    requires a * g < b * g
    ensures a < b
  {
    if b <= a {
      MulMonotone(b, a, g);
    }
  }

  /**
   * `renew(p, oldcount, newcount)`: a request that does not grow returns
   * the buffer as it is; otherwise a new buffer of newcount slots holds the
   * first oldcount elements of the old one.  A null buffer holds nothing.
   */
  method Renew<T(0)>(p: array?<T>, oldcount: nat, newcount: nat) returns (pp: array?<T>)
    requires p == null ==> oldcount == 0
    requires p != null ==> oldcount <= p.Length
    ensures newcount <= oldcount ==> pp == p
    ensures newcount > oldcount ==>
      pp != null && fresh(pp) && pp.Length == newcount
      && (p != null ==> pp[..oldcount] == p[..oldcount])
  {
    if newcount <= oldcount {
      return p;
    }
    pp := new T[newcount];
    if p != null {
      var i := 0;
      while i < oldcount
        invariant 0 <= i <= oldcount
        invariant pp[..i] == p[..i]
      {
        pp[i] := p[i];
        i := i + 1;
      }
    }
  }

  class Dynarray<T(0)> {
    var data: array?<T>
    var length: nat
    var reserved: nat
    var granularity: nat

    ghost predicate Valid()
      reads this
    {
      IsPow2(granularity) && length <= reserved
      && (data == null ==> reserved == 0)
      && (data != null ==> data.Length == reserved)
    }

    /** The live elements, `data[0 .. length - 1]`. */
    ghost function Elements(): seq<T>
      reads this, data
      requires Valid()
    {
      if data == null then [] else data[..length]
    }

    /** `dynarray()`: no elements, no buffer, granularity 16. */
    constructor()
      ensures Valid() && Elements() == [] && reserved == 0 && granularity == 16
    {
      data := null;
      length, reserved := 0, 0;
      granularity := 16;
      assert IsPow2(16) by {
        assert IsPow2(8) by { assert IsPow2(4) by { assert IsPow2(2); } }
      }
    }

    /** `dynarray(initcap, g)`: no elements and room for at least initcap. */
    constructor WithCapacity(initcap: nat, g: nat)
      requires IsPow2(g)
      ensures Valid() && Elements() == [] && granularity == g
      ensures reserved == if initcap == 0 then 0 else RoundUp(initcap, g)
    {
      data := null;
      length, reserved := 0, 0;
      granularity := g;
      new;
      Reserve(initcap);
    }

    /** `capacity()`. */
    function Capacity(): (r: nat)
      reads this
      requires Valid()
      ensures r >= length
    {
      reserved
    }

    /**
     * `reserve(newsize)`: the buffer never shrinks; a larger request grows
     * it to newsize rounded up to the granularity, keeping the elements.
     */
    method Reserve(newsize: nat)
      requires Valid()
      modifies this
      ensures Valid() && Elements() == old(Elements())
      ensures length == old(length) && granularity == old(granularity)
      ensures newsize <= old(reserved) ==> reserved == old(reserved) && data == old(data)
      ensures newsize > old(reserved) ==> reserved == RoundUp(newsize, granularity) && fresh(data)
      ensures reserved >= newsize
    {
      if newsize <= reserved {
        return;
      }
      var g := granularity;
      var rounded := RoundUp(newsize, g);
      RoundUpIsLeastMultiple(newsize, g, 0);
      ghost var before := Elements();
      data := Renew(data, length, rounded);
      reserved := rounded;
      assert data[..length] == before;
    }

    /** `push(obj)`: obj becomes the last element. */
    method Push(obj: T)
      requires Valid()
      modifies this, data
      ensures Valid() && Elements() == old(Elements()) + [obj]
      ensures granularity == old(granularity)
      ensures old(length) < old(reserved) ==> reserved == old(reserved)
      ensures old(length) == old(reserved) ==> reserved == RoundUp(old(length) + 1, granularity)
    {
      ghost var before := Elements();
      Reserve(length + 1);
      length := length + 1;
      data[length - 1] := obj;
      assert data[..length] == before + [obj];
    }

    /** `pop()` on a non-empty array: the last element leaves and is returned. */
    method Pop() returns (obj: T)
      requires Valid() && length > 0
      modifies this
      ensures Valid() && old(Elements()) == Elements() + [obj]
      ensures reserved == old(reserved) && data == old(data) && granularity == old(granularity)
    {
      length := length - 1;
      obj := data[length];
      assert old(Elements()) == data[..length] + [obj];
    }

    /**
     * `resize(newsize)`: a smaller size truncates, a larger one keeps the
     * elements and reserves room for the new length.
     */
    method Resize(newsize: nat)
      requires Valid()
      modifies this
      ensures Valid() && length == newsize && granularity == old(granularity)
      ensures newsize <= old(length) ==>
        Elements() == old(Elements())[..newsize] && reserved == old(reserved) && data == old(data)
      ensures newsize > old(length) ==> Elements()[..old(length)] == old(Elements())
      ensures newsize > old(length) && newsize <= old(reserved) ==> reserved == old(reserved) && data == old(data)
      ensures newsize > old(reserved) ==> reserved == RoundUp(newsize, granularity) && fresh(data)
      ensures reserved >= newsize
    {
      ghost var before := Elements();
      if newsize > length {
        Reserve(newsize);
      }
      length := newsize;
      if newsize > old(length) {
        assert data[..length][..old(length)] == data[..old(length)];
      }
    }

    /**
     * `resize(newsize, emptyvalue)`: as Resize, and when the array grows
     * every slot from the old length to the end of the buffer, not only up
     * to the new length, holds emptyvalue.
     */
    method ResizeFill(newsize: nat, emptyvalue: T)
      requires Valid()
      modifies this, data
      ensures Valid() && length == newsize && granularity == old(granularity)
      ensures newsize <= old(length) ==>
        Elements() == old(Elements())[..newsize] && reserved == old(reserved) && data == old(data)
      ensures newsize > old(length) && newsize <= old(reserved) ==> reserved == old(reserved) && data == old(data)
      ensures newsize > old(reserved) ==> reserved == RoundUp(newsize, granularity) && fresh(data)
      ensures reserved >= newsize
      ensures newsize > old(length) ==>
        Elements()[..old(length)] == old(Elements())
        && data != null && forall i :: old(length) <= i < reserved ==> data[i] == emptyvalue
    {
      var oldlength := length;
      Resize(newsize);
      if newsize <= oldlength {
        return;
      }
      ghost var kept := Elements()[..oldlength];
      var i := oldlength;
      while i < reserved
        invariant Valid() && data != null && length == newsize && granularity == old(granularity)
        invariant newsize <= old(reserved) ==> reserved == old(reserved) && data == old(data)
        invariant newsize > old(reserved) ==> reserved == RoundUp(newsize, granularity) && fresh(data)
        invariant reserved >= newsize
        invariant oldlength <= i <= reserved
        invariant data[..oldlength] == kept
        invariant forall j :: oldlength <= j < i ==> data[j] == emptyvalue
      {
        data[i] := emptyvalue;
        i := i + 1;
      }
      assert Elements()[..oldlength] == data[..oldlength];
    }

    /** `clear()`: no elements; the buffer stays. */
    method Clear()
      requires Valid()
      modifies this
      ensures Valid() && Elements() == [] && reserved == old(reserved) && data == old(data)
    {
      Resize(0);
    }
  }

  /** A push followed by a pop returns the pushed value and leaves the elements as they were. */
  method PushThenPop<T(0)>(a: Dynarray<T>, obj: T) returns (popped: T)
    requires a.Valid()
    modifies a, a.data
    ensures a.Valid() && popped == obj && a.Elements() == old(a.Elements())
  {
    a.Push(obj);
    popped := a.Pop();
  }
}
