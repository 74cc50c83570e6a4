/**
 * The hand-rolled growable array of Vector.h: a buffer `data`, a capacity
 * `cap` and a length `len`. The object invariant ties the capacity to the
 * allocated length of the buffer; see the Layout model at the end of this
 * module for how the copy constructor and copy assignment of Vector.h
 * break that tie.
 */
module Vectors {

  /** The outcome of an access that throws std::out_of_range in Vector.h. */
  datatype Access<T> = Ok(value: T) | OutOfRange

  class Vector<T(0,==)> {
    var data: array<T>
    var cap: nat
    var len: nat

    /** Elements live in data[..len]; cap is the number of allocated slots. */
    ghost predicate Valid()
      reads this
    {
      len <= cap && cap == data.Length
    }

    /** The stored elements, in order. */
    function Contents(): seq<T>
      reads this, data
      requires Valid()
    {
      data[..len]
    }

    /** Vector(initial_size): that many slots, all in use, with unspecified values. */
    constructor (initialSize: nat)
      ensures Valid() && fresh(data)
      ensures len == initialSize && cap == initialSize
    {
      data := new T[initialSize];
      cap := initialSize;
      len := initialSize;
    }

    /** Vector(initializer_list): exactly the listed elements. */
    constructor FromList(list: seq<T>)
      ensures Valid() && fresh(data)
      ensures Contents() == list && cap == |list|
    {
      var d := new T[|list|];
      var i := 0;
      while i < |list|
        invariant 0 <= i <= |list|
        invariant d[..i] == list[..i]
      {
        d[i] := list[i];
        i := i + 1;
      }
      data, cap, len := d, |list|, |list|;
    }

    /**
     * Copy constructor: the same elements in fresh storage. Vector.h's copy
     * constructor copies `cap` from the source while allocating only `len` slots; here
     * the capacity is the allocated length, so the invariant holds.
     */
    constructor Copy(other: Vector<T>)
      requires other.Valid()
      ensures Valid() && fresh(data)
      ensures Contents() == other.Contents() && cap == other.len
    {
      var d := CopyPrefix(other.data, other.len);
      data, cap, len := d, other.len, other.len;
    }

    /** Copy assignment; self-assignment changes nothing. */
    method CopyAssign(other: Vector<T>)
      requires Valid() && other.Valid()
      modifies this
      ensures Valid()
      ensures Contents() == old(other.Contents())
      ensures this != other ==> fresh(data) && cap == old(other.len)
      ensures this == other ==> data == old(data) && cap == old(cap) && len == old(len)
    {
      if this != other {
        var d := CopyPrefix(other.data, other.len);
        data, cap, len := d, other.len, other.len;
      }
    }

    /** Move constructor: takes the storage; the source has none left. */
    constructor Move(other: Vector<T>)
      requires other.Valid()
      modifies other
      ensures Valid() && other.Valid()
      ensures data == old(other.data) && cap == old(other.cap) && len == old(other.len)
      ensures other.len == 0 && other.cap == 0 && other.data.Length == 0
    {
      data, cap, len := other.data, other.cap, other.len;
      new;
      other.data := new T[0];
      other.cap, other.len := 0, 0;
    }

    /** Move assignment; self-assignment changes nothing. */
    method MoveAssign(other: Vector<T>)
      requires Valid() && other.Valid()
      modifies this, other
      ensures Valid() && other.Valid()
      ensures this == other ==> data == old(data) && cap == old(cap) && len == old(len)
      ensures this != other ==> data == old(other.data) && cap == old(other.cap) && len == old(other.len)
      ensures this != other ==> other.len == 0 && other.cap == 0 && other.data.Length == 0
    {
      if this != other {
        data, cap, len := other.data, other.cap, other.len;
        other.data := new T[0];
        other.cap, other.len := 0, 0;
      }
    }

    /** operator[] read: throws exactly when the index is not below len. */
    method Get(index: nat) returns (r: Access<T>)
      requires Valid()
      ensures r.OutOfRange? <==> index >= |Contents()|
      ensures r.Ok? ==> r.value == Contents()[index]
    {
      if index >= len {
        r := OutOfRange;
      } else {
        r := Ok(data[index]);
      }
    }

    /** operator[] write through the returned reference. */
    method Set(index: nat, value: T) returns (ok: bool)
      requires Valid()
      modifies data
      ensures Valid()
      ensures ok == (index < len)
      ensures Contents() == if ok then old(Contents())[index := value] else old(Contents())
    {
      ok := index < len;
      if ok {
        data[index] := value;
      }
    }

    /** size(): the number of stored elements. */
    function Size(): (n: nat)
      reads this, data
      requires Valid()
      ensures n == |Contents()|
    {
      len
    }

    /**
     * resize(new_size): grows the buffer to max(new_size, 2 * cap) when it is
     * too small, fills the new tail with `zero` (the value T() of the element
     * type) and sets len.
     */
    method Resize(newSize: nat, zero: T)
      requires Valid()
      modifies this, data
      ensures Valid()
      ensures len == newSize
      ensures newSize > old(cap) ==> fresh(data) && cap == (if newSize > 2 * old(cap) then newSize else 2 * old(cap))
      ensures newSize <= old(cap) ==> data == old(data) && cap == old(cap)
      ensures Contents() == if newSize <= old(len) then old(Contents())[..newSize]
                            else old(Contents()) + seq(newSize - old(len), _ => zero)
    {
      ghost var before := Contents();
      if newSize > cap {
        // Vector.h's resize also turns a new capacity of 0 into 1, which cannot happen here
        var newCap := if newSize > cap * 2 then newSize else cap * 2;
        var newData := GrowCopy(data, len, newCap);
        data, cap := newData, newCap;
      }
      var oldLen := len;
      FillFrom(data, len, newSize, zero);
      len := newSize;
      if newSize > oldLen {
        assert Contents() == data[..oldLen] + data[oldLen..newSize];
        assert data[oldLen..newSize] == seq(newSize - oldLen, _ => zero);
      }
    }

    /** push_back: appends; a full buffer of capacity c grows to 1 when c is 0 and to 2c otherwise. */
    method PushBack(value: T)
      requires Valid()
      modifies this, data
      ensures Valid()
      ensures Contents() == old(Contents()) + [value]
      ensures old(len) >= old(cap) ==> fresh(data) && cap == (if old(cap) == 0 then 1 else 2 * old(cap))
      ensures old(len) < old(cap) ==> data == old(data) && cap == old(cap)
    {
      if len >= cap {
        var newCap := if cap == 0 then 1 else cap * 2;
        var newData := GrowCopy(data, len, newCap);
        data, cap := newData, newCap;
      }
      data[len] := value;
      len := len + 1;
    }

    /** findOne: the first index holding `key`, or -1 when there is none. */
    method FindOne(key: T) returns (index: int)
      requires Valid()
      ensures -1 <= index < |Contents()|
      ensures index == -1 <==> key !in Contents()
      ensures index >= 0 ==> Contents()[index] == key
      ensures forall k :: 0 <= k < index ==> Contents()[k] != key
    {
      var i := 0;
      while i < len
        invariant 0 <= i <= len
        invariant forall k :: 0 <= k < i ==> data[k] != key
      {
        if data[i] == key {
          return i;
        }
        i := i + 1;
      }
      return -1;
    }

    /** removeByIndex: throws when the index is not below len, otherwise shifts the tail down. */
    method RemoveByIndex(index: nat) returns (ok: bool)
      requires Valid()
      modifies this, data
      ensures Valid()
      ensures ok == (index < old(len))
      ensures data == old(data) && cap == old(cap)
      ensures Contents() == if ok then old(Contents())[..index] + old(Contents())[index + 1..] else old(Contents())
    {
      if index >= len {
        return false;
      }
      ghost var before := Contents();
      ShiftDown(data, index, len);
      len := len - 1;
      assert Contents() == before[..index] + before[index + 1..];
      return true;
    }
  }

  /** The copy loop of resize and push_back: a fresh buffer of newLength slots starting with a[..n]. */
  method GrowCopy<T(0)>(a: array<T>, n: nat, newLength: nat) returns (d: array<T>)
    requires n <= a.Length && n <= newLength
    ensures fresh(d) && d.Length == newLength && d[..n] == a[..n]
  {
    d := new T[newLength];
    var i := 0;
    while i < n
      invariant 0 <= i <= n
      invariant d[..i] == a[..i]
    {
      d[i] := a[i];
      i := i + 1;
    }
  }

  /** The default-initialising loop of resize: slots from..to-1 receive `zero`. */
  method FillFrom<T>(a: array<T>, from: nat, to: nat, zero: T)
    requires from <= a.Length && to <= a.Length
    modifies a
    ensures a[..from] == old(a[..from])
    ensures forall k :: from <= k < to ==> a[k] == zero
  {
    var i := from;
    while i < to
      invariant from <= i
      invariant i <= to || i == from
      invariant a[..from] == old(a[..from])
      invariant forall k :: from <= k < i ==> a[k] == zero
    {
      a[i] := zero;
      i := i + 1;
    }
  }

  /** The shift loop of removeByIndex: a[index..n-1] receives a[index+1..n]. */
  method ShiftDown<T>(a: array<T>, index: nat, n: nat)
    requires index < n <= a.Length
    modifies a
    ensures a[..index] == old(a[..index])
    ensures forall k :: index <= k < n - 1 ==> a[k] == old(a[k + 1])
  {
    var i := index;
    while i < n - 1
      invariant index <= i <= n - 1
      invariant a[..index] == old(a[..index])
      invariant forall k :: index <= k < i ==> a[k] == old(a[k + 1])
      invariant forall k :: i <= k < a.Length ==> a[k] == old(a[k])
    {
      a[i] := a[i + 1];
      i := i + 1;
    }
  }

  /** A fresh array holding the first n elements of a. */
  method CopyPrefix<T(0)>(a: array<T>, n: nat) returns (d: array<T>)
    requires n <= a.Length
    ensures fresh(d) && d.Length == n && d[..] == a[..n]
  {
    d := new T[n];
    var i := 0;
    while i < n
      invariant 0 <= i <= n
      invariant d[..i] == a[..i]
    {
      d[i] := a[i];
      i := i + 1;
    }
  }

  /**
   * The bookkeeping of a Vector as three numbers: the length, the recorded
   * capacity and the number of slots actually allocated. The copy constructor
   * and copy assignment of Vector.h record the source's capacity but allocate
   * only its length.
   */
  datatype Layout = Layout(len: nat, cap: nat, slots: nat)

  /** Every slot below the recorded capacity exists. */
  predicate Sound(v: Layout)
  {
    v.len <= v.cap <= v.slots
  }

  function PushBackLayout(v: Layout): Layout
  {
    if v.len >= v.cap then
      var c := if v.cap == 0 then 1 else 2 * v.cap;
      Layout(v.len + 1, c, c)
    else Layout(v.len + 1, v.cap, v.slots)
  }

  function RemoveLayout(v: Layout): Layout
  {
    if v.len == 0 then v else Layout(v.len - 1, v.cap, v.slots)
  }

  /** push_back writes slot len without growing when len < cap. */
  predicate PushBackWriteInBounds(v: Layout)
  {
    v.len >= v.cap || v.len < v.slots
  }

  /** The copy constructor and copy assignment as written: cap = other.cap, len slots allocated. */
  function CopyLayoutAsWritten(v: Layout): Layout
  {
    Layout(v.len, v.cap, v.len)
  }

  /** The copy as modelled by Vector.Copy: the capacity is the allocated length. */
  function CopyLayout(v: Layout): (c: Layout)
    requires Sound(v)
    ensures Sound(c) && c.len == v.len
    ensures PushBackWriteInBounds(c)
  {
    Layout(v.len, v.len, v.len)
  }

  /**
   * Two push_backs onto an empty vector and one removeByIndex give len 1,
   * cap 2; a copy of that records cap 2 over one allocated slot, and its next
   * push_back writes slot 1 without growing.
   */
  lemma CopyAsWrittenOverruns()
    ensures var v := RemoveLayout(PushBackLayout(PushBackLayout(Layout(0, 0, 0))));
      Sound(v) && v == Layout(1, 2, 2) &&
      !Sound(CopyLayoutAsWritten(v)) && !PushBackWriteInBounds(CopyLayoutAsWritten(v))
  {
  }

  /** Every operation of the layout model keeps it sound. */
  lemma {:induction false} LayoutOperationsSound(v: Layout)
    requires Sound(v)
    ensures Sound(PushBackLayout(v)) && Sound(RemoveLayout(v)) && PushBackWriteInBounds(v)
  {
  }
}
