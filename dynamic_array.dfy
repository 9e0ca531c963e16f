/**
 * `array_raw<T>` (engine.inl): a growable array with an explicit size and
 * capacity over one heap buffer.  The buffer is an `array<T>` whose length is
 * the capacity; the live elements are its first `size` slots.
 */
module DynamicArray {
  import opened Numerics

  /** A sequence that agrees with `before` up to `index`, holds `v` there and `before`'s tail after it. */
  lemma InsertedAt<T>(before: seq<T>, after: seq<T>, index: nat, v: T)
    requires index <= |before| && |after| == |before| + 1
    requires forall k :: 0 <= k < index ==> after[k] == before[k]
    requires after[index] == v
    requires forall k :: index < k < |after| ==> after[k] == before[k - 1]
    ensures after == before[..index] + [v] + before[index..]
  {
    var expected := before[..index] + [v] + before[index..];
    forall k | 0 <= k < |after|
      ensures after[k] == expected[k]
    {
      if k > index {
        assert expected[k] == before[index..][k - index - 1];
      }
    }
  }

  class ArrayRaw<T(0)> {
    var buffer: array<T>
    var size: nat
    var capacity: nat

    ghost predicate Valid()
      reads this
    {
      size <= capacity && capacity == buffer.Length
    }

    /** The live elements, `ptr[0 .. ptr_size)`. */
    ghost function Contents(): seq<T>
      reads this, buffer
      requires Valid()
    {
      buffer[..size]
    }

    /** `create`: no buffer, size and capacity zero. */
    constructor Create()
      ensures Valid() && fresh(buffer)
      ensures Contents() == [] && capacity == 0
    {
      buffer := new T[0];
      size := 0;
      capacity := 0;
    }

    /** `operator[]` read: asserts the index is below the size. */
    method Get(index: nat) returns (v: T)
      requires Valid()
      requires index < size
      ensures v == Contents()[index]
    {
      v := buffer[index];
    }

    /** `operator[]` used as an lvalue: writes one live element. */
    method Put(index: nat, v: T)
      requires Valid()
      requires index < size
      modifies buffer
      ensures Valid()
      ensures Contents() == old(Contents())[index := v]
    {
      buffer[index] := v;
    }

    /**
     * `set_capacity`: `realloc` to the new capacity, which keeps the first
     * min(old, new) slots; the live elements survive because the new capacity
     * may not be below the size.
     */
    method SetCapacity(newCapacity: nat)
      requires Valid()
      requires newCapacity >= size
      modifies this
      ensures Valid() && fresh(buffer)
      ensures capacity == newCapacity && size == old(size)
      ensures Contents() == old(Contents())
      ensures buffer[..Min(old(capacity), newCapacity)] == old(buffer[..Min(capacity, newCapacity)])
    {
      var kept := Min(capacity, newCapacity);
      var grown := new T[newCapacity];
      forall k | 0 <= k < kept {
        grown[k] := buffer[k];
      }
      buffer := grown;
      capacity := newCapacity;
    }

    /** Grows the buffer by the growth policy when it is full, as push and both inserts do. */
    method GrowIfFull()
      requires Valid()
      modifies this
      ensures Valid() && size == old(size) && Contents() == old(Contents())
      ensures size < capacity
      ensures capacity == if old(size) == old(capacity) then GrowthCapacity(old(capacity)) else old(capacity)
      ensures if old(size) == old(capacity) then fresh(buffer) else buffer == old(buffer)
    {
      if size == capacity {
        SetCapacity(GrowthCapacity(capacity));
      }
    }

    /** `push`: appends `v` at index `size`, growing only when the buffer is full. */
    method Push(v: T)
      requires Valid()
      modifies this, buffer
      ensures Valid()
      ensures Contents() == old(Contents()) + [v]
      ensures capacity == if old(size) == old(capacity) then GrowthCapacity(old(capacity)) else old(capacity)
    {
      GrowIfFull();
      buffer[size] := v;
      size := size + 1;
    }

    /** `pop()`: drops the last element; the size must be positive. */
    method Pop()
      requires Valid() && size > 0
      modifies this
      ensures Valid() && buffer == old(buffer) && capacity == old(capacity)
      ensures Contents() == old(Contents())[..old(size) - 1]
    {
      size := size - 1;
    }

    /** `pop(T& v)`: drops the last element and hands it back. */
    method PopInto() returns (v: T)
      requires Valid() && size > 0
      modifies this
      ensures Valid() && buffer == old(buffer) && capacity == old(capacity)
      ensures v == old(Contents())[old(size) - 1]
      ensures Contents() == old(Contents())[..old(size) - 1]
    {
      size := size - 1;
      v := buffer[size];
    }

    /** `insert`: shifts the tail one slot right (a memmove) and stores `v` at `index`. */
    method Insert(index: nat, v: T)
      requires Valid()
      requires index <= size
      modifies this, buffer
      ensures Valid()
      ensures Contents() == old(Contents())[..index] + [v] + old(Contents())[index..]
      ensures capacity == if old(size) == old(capacity) then GrowthCapacity(old(capacity)) else old(capacity)
    {
      GrowIfFull();
      ghost var before := buffer[..size];
      if index != size {
        forall k | index < k <= size {
          buffer[k] := buffer[k - 1];
        }
      }
      buffer[index] := v;
      size := size + 1;
      InsertedAt(before, buffer[..size], index, v);
    }

    /** `insert_swap`: moves the element at `index` to the end and stores `v` in its place. */
    method InsertSwap(index: nat, v: T)
      requires Valid()
      requires index <= size
      modifies this, buffer
      ensures Valid()
      ensures index == old(size) ==> Contents() == old(Contents()) + [v]
      ensures index < old(size) ==>
        Contents() == old(Contents())[index := v] + [old(Contents())[index]]
      ensures capacity == if old(size) == old(capacity) then GrowthCapacity(old(capacity)) else old(capacity)
    {
      GrowIfFull();
      if index != size {
        buffer[size] := buffer[index];
      }
      buffer[index] := v;
      size := size + 1;
    }

    /** `remove`: shifts the tail one slot left (a memmove) over the removed element. */
    method Remove(index: nat)
      requires Valid()
      requires index < size
      modifies this, buffer
      ensures Valid() && buffer == old(buffer) && capacity == old(capacity)
      ensures Contents() == old(Contents())[..index] + old(Contents())[index + 1..]
    {
      ghost var before := buffer[..size];
      if index < size - 1 {
        forall k | index <= k < size - 1 {
          buffer[k] := buffer[k + 1];
        }
      }
      size := size - 1;
      assert Contents() == before[..index] + before[index + 1..];
    }

    /** `remove_swap`: the last element overwrites the removed one. */
    method RemoveSwap(index: nat)
      requires Valid()
      requires index < size
      modifies this, buffer
      ensures Valid() && buffer == old(buffer) && capacity == old(capacity)
      ensures |Contents()| == old(size) - 1
      ensures index < old(size) - 1 ==>
        Contents() == old(Contents())[..old(size) - 1][index := old(Contents())[old(size) - 1]]
      ensures index == old(size) - 1 ==> Contents() == old(Contents())[..index]
    {
      size := size - 1;
      buffer[index] := buffer[size];
    }

    /** `size()`. */
    method Size() returns (n: nat)
      requires Valid()
      ensures n == |Contents()|
    {
      n := size;
    }

    /** `capacity()`. */
    method Capacity() returns (n: nat)
      requires Valid()
      ensures n == buffer.Length
    {
      n := capacity;
    }

    /**
     * `set_size`: asserts the new size fits the capacity; slots that become
     * live keep whatever the buffer held.
     */
    method SetSize(newSize: nat)
      requires Valid()
      requires newSize <= capacity
      modifies this
      ensures Valid() && buffer == old(buffer) && capacity == old(capacity)
      ensures Contents() == old(buffer[..newSize])
    {
      size := newSize;
    }

    /** `size_bytes()` for elements of `elementSize` bytes. */
    method SizeBytes(elementSize: nat) returns (n: nat)
      requires Valid()
      ensures n == |Contents()| * elementSize
    {
      n := size * elementSize;
    }

    /** `capacity_bytes()` for elements of `elementSize` bytes. */
    method CapacityBytes(elementSize: nat) returns (n: nat)
      requires Valid()
      ensures n == buffer.Length * elementSize
    {
      n := capacity * elementSize;
    }
  }
}
