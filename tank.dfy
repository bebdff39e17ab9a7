/**
 * task1's `Tank<T>` (Tank.h, Tank.cpp): a growable array. `data` is a
 * buffer of `max_capacity` slots whose first `filled` hold the elements;
 * `push_back` doubles the buffer when it is full. A failed `assert` in the
 * source ends the program; here it is an error result that leaves the tank
 * as it was.
 */
module Tanks {
  import opened Wrappers

  class Tank<T(0)> {
    var data: array<T>
    var filled: nat
    var maxCapacity: nat

    /** The buffer has `max_capacity` slots, and no more elements than that are stored. */
    predicate Valid()
      reads this, data
    {
      data.Length == maxCapacity && filled <= maxCapacity
    }

    /** The stored elements, front to back. */
    function Elements(): (xs: seq<T>)
      reads this, data
      requires Valid()
      ensures |xs| == filled
    {
      data[..filled]
    }

    /** `Tank(initial_capacity)`: room for `initial_capacity` elements, none stored. */
    constructor (initialCapacity: nat)
      ensures Valid() && fresh(data)
      ensures maxCapacity == initialCapacity && filled == 0 && Elements() == []
    {
      data := new T[initialCapacity];
      maxCapacity := initialCapacity;
      filled := 0;
    }

    /**
     * `resize`: a buffer of `new_capacity` slots holding the same elements
     * (`realloc` keeps the prefix); fails when the elements would not fit.
     */
    method Resize(newCapacity: nat) returns (ok: bool)
      requires Valid()
      modifies this
      ensures Valid()
      ensures ok <==> old(filled) <= newCapacity
      ensures ok ==> maxCapacity == newCapacity && Elements() == old(Elements()) && fresh(data)
      ensures !ok ==> maxCapacity == old(maxCapacity) && filled == old(filled) && data == old(data)
    {
      if filled > newCapacity {
        return false;
      }
      var grown := new T[newCapacity];
      var i := 0;
      while i < filled
        invariant 0 <= i <= filled
        invariant grown[..i] == data[..i]
        modifies grown
      {
        grown[i] := data[i];
        i := i + 1;
      }
      data := grown;
      maxCapacity := newCapacity;
      return true;
    }

    /** `size`: the number of stored elements. */
    method Size() returns (n: nat)
      requires Valid()
      ensures n == |Elements()|
    {
      return filled;
    }

    /**
     * `push_back`: `item` joins the back; a full buffer first grows to
     * twice its capacity, or to one slot when it had none.
     */
    method PushBack(item: T)
      requires Valid()
      modifies this, data
      ensures Valid()
      ensures Elements() == old(Elements()) + [item]
      ensures maxCapacity == if old(filled) < old(maxCapacity) then old(maxCapacity) else Grown(old(maxCapacity))
    {
      if filled >= maxCapacity {
        var ok := Resize(Grown(maxCapacity));
      }
      data[filled] := item;
      filled := filled + 1;
    }

    /** `pop_back`: the back element, removed; fails on an empty tank. */
    method PopBack() returns (r: Option<T>)
      requires Valid()
      modifies this
      ensures Valid() && maxCapacity == old(maxCapacity) && data == old(data)
      ensures old(filled) == 0 ==> r == None && filled == 0
      ensures old(filled) > 0 ==>
                r == Some(old(Elements())[old(filled) - 1]) && Elements() == old(Elements())[..old(filled) - 1]
    {
      if filled == 0 {
        return None;
      }
      filled := filled - 1;
      return Some(data[filled]);
    }

    /**
     * `at`: the element at `index`. The signed index is compared with the
     * unsigned size, so a negative index fails as well as one past the end.
     */
    method At(index: int) returns (r: Option<T>)
      requires Valid()
      ensures r.Some? <==> 0 <= index < |Elements()|
      ensures r.Some? ==> r.value == Elements()[index]
    {
      if index < 0 || index >= filled {
        return None;
      }
      return Some(data[index]);
    }

    /** `operator[]`: the same as `at`. */
    method Get(index: int) returns (r: Option<T>)
      requires Valid()
      ensures r.Some? <==> 0 <= index < |Elements()|
      ensures r.Some? ==> r.value == Elements()[index]
    {
      r := At(index);
    }

    /** `free_array`: no elements and no capacity left. */
    method FreeArray()
      requires Valid()
      modifies this
      ensures Valid() && filled == 0 && maxCapacity == 0 && Elements() == []
    {
      filled := 0;
      maxCapacity := 0;
      data := new T[0];
    }
  }

  /** The capacity `push_back` asks for when the buffer is full. */
  function Grown(capacity: nat): (c: nat)
    ensures c > capacity
    ensures capacity > 0 ==> c == 2 * capacity
  {
    if capacity > 0 then 2 * capacity else 1
  }

  /** The sum of `xs`, starting from `T{}` (zero). */
  function Sum(xs: seq<int>): int
  {
    if |xs| == 0 then 0 else xs[0] + Sum(xs[1..])
  }

  /** Adding one more element at the back adds it to the sum. */
  lemma {:induction false} SumSnoc(xs: seq<int>, x: int)
    ensures Sum(xs + [x]) == Sum(xs) + x
  {
    if |xs| > 0 {
      assert (xs + [x])[1..] == xs[1..] + [x];
      SumSnoc(xs[1..], x);
    }
  }

  /** The left fold of `xs` with `add`, from `zero`: `add(add(add(zero, xs[0]), xs[1]), ...)`. */
  function FoldLeft<T>(add: (T, T) -> T, zero: T, xs: seq<T>): T
  {
    if |xs| == 0 then zero else FoldLeft(add, add(zero, xs[0]), xs[1..])
  }

  /** Folding in one more element at the back applies `add` once more, last. */
  lemma {:induction false} FoldLeftSnoc<T>(add: (T, T) -> T, zero: T, xs: seq<T>, x: T)
    ensures FoldLeft(add, zero, xs + [x]) == add(FoldLeft(add, zero, xs), x)
    decreases |xs|
  {
    if |xs| > 0 {
      assert (xs + [x])[1..] == xs[1..] + [x];
      FoldLeftSnoc(add, add(zero, xs[0]), xs[1..], x);
    }
  }

  /**
   * `accumulate`: starting from `zero` (the value-initialised `T{}`), adds
   * the stored elements front to back with `add` (the element type's `+=`).
   */
  method Accumulate<T(0)>(tank: Tank<T>, zero: T, add: (T, T) -> T) returns (sum: T)
    requires tank.Valid()
    ensures sum == FoldLeft(add, zero, tank.Elements())
  {
    sum := zero;
    var n := tank.Size();
    var i := 0;
    while i < n
      invariant 0 <= i <= n
      invariant sum == FoldLeft(add, zero, tank.Elements()[..i])
    {
      var x := tank.Get(i);
      assert tank.Elements()[..i + 1] == tank.Elements()[..i] + [x.value];
      FoldLeftSnoc(add, zero, tank.Elements()[..i], x.value);
      sum := add(sum, x.value);
      i := i + 1;
    }
    assert tank.Elements()[..n] == tank.Elements();
  }

  /** `+=` on integers. */
  function Plus(x: int, y: int): int
  {
    x + y
  }

  /** Folding integers with `+` from `z` adds `z` to their sum. */
  lemma {:induction false} FoldLeftPlus(z: int, xs: seq<int>)
    ensures FoldLeft(Plus, z, xs) == z + Sum(xs)
    decreases |xs|
  {
    if |xs| > 0 {
      FoldLeftPlus(z + xs[0], xs[1..]);
    }
  }

  /** `accumulate` on a tank of integers: the sum of the elements, 0 when empty. */
  method AccumulateInts(tank: Tank<int>) returns (sum: int)
    requires tank.Valid()
    ensures sum == Sum(tank.Elements())
  {
    sum := Accumulate(tank, 0, Plus);
    FoldLeftPlus(0, tank.Elements());
  }
}
