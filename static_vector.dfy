/**
 * A heap-allocated vector whose size is fixed at construction
 * (include/static_vector.hpp). It backs both arrays of the hash set.
 */
module StaticVectors {

  class StaticVector<T(0)> {
    /** `_storage`: the owned heap array. */
    var storage: array<T>
    /** `_size`: the number of elements. */
    var size: nat

    /** The stored size is the length of the owned array. */
    ghost predicate Valid()
      reads this
    {
      storage.Length == size
    }

    /** The elements, from begin() to end(). */
    ghost function Elements(): seq<T>
      reads this, storage
    {
      storage[..]
    }

    /** `static_vector()`: no elements. */
    constructor Empty()
      ensures Valid() && size == 0 && fresh(storage)
    {
      storage := new T[0];
      size := 0;
    }

    /** `static_vector(count)`: count elements, left as `new T[count]` makes them. */
    constructor (count: nat)
      ensures Valid() && size == count && fresh(storage)
    {
      storage := new T[count];
      size := count;
    }

    /** `static_vector(count, args...)`: count copies of one value. */
    constructor Filled(count: nat, value: T)
      ensures Valid() && size == count && fresh(storage)
      ensures Elements() == seq(count, _ => value)
    {
      storage := new T[count];
      size := count;
      new;
      Fill(value);
    }

    /** The copy constructor: a new array holding the same elements. */
    constructor Copy(other: StaticVector<T>)
      requires other.Valid()
      ensures Valid() && size == other.size && fresh(storage)
      ensures Elements() == other.Elements()
    {
      var copy := new T[other.size];
      var i := 0;
      while i < other.size
        invariant 0 <= i <= other.size
        invariant copy[..i] == other.storage[..i]
      {
        copy[i] := other.storage[i];
        i := i + 1;
      }
      storage := copy;
      size := other.size;
    }

    /**
     * Copy assignment: takes the other vector's size and elements, and
     * allocates a new array only when the sizes differ.
     */
    method Assign(other: StaticVector<T>)
      requires Valid() && other.Valid()
      modifies this, storage
      ensures Valid() && size == old(other.size)
      ensures Elements() == old(other.Elements())
      ensures old(size) == old(other.size) ==> storage == old(storage)
      ensures old(size) != old(other.size) ==> fresh(storage)
    {
      var target := storage;
      if size != other.size {
        target := new T[other.size];
        storage, size := target, other.size;
      }
      ghost var source := other.Elements();
      var i := 0;
      while i < size
        invariant storage == target && (target == old(storage) || fresh(target))
        invariant old(size) == old(other.size) ==> target == old(storage)
        invariant 0 <= i <= size == other.size == other.storage.Length == target.Length == |source|
        invariant target[..i] == source[..i]
        invariant other.storage[i..] == source[i..]
      {
        target[i] := other.storage[i];
        assert other.storage[i + 1..] == source[i + 1..] by {
          assert other.storage[i..][1..] == other.storage[i + 1..];
        }
        i := i + 1;
      }
      assert storage[..] == storage[..i];
    }

    /** `fill(value)`: every element becomes value. */
    method Fill(value: T)
      requires Valid()
      modifies storage
      ensures Elements() == seq(size, _ => value)
    {
      var i := 0;
      while i < storage.Length
        invariant 0 <= i <= storage.Length
        invariant forall j :: 0 <= j < i ==> storage[j] == value
      {
        storage[i] := value;
        i := i + 1;
      }
    }

    /** `operator[] const`: the element at a valid index. */
    function At(index: nat): (element: T)
      requires Valid() && index < size
      reads this, storage
      ensures element == Elements()[index]
    {
      storage[index]
    }

    /** Assigning through `operator[]`: one element changes, the rest stay. */
    method Set(index: nat, value: T)
      requires Valid() && index < size
      modifies storage
      ensures Elements() == old(Elements())[index := value]
    {
      storage[index] := value;
    }

    /** `size()`. */
    function Size(): (n: nat)
      requires Valid()
      reads this, storage
      ensures n == |Elements()|
    {
      size
    }

    /** `max_size()`: the same as the size, as nothing can grow. */
    function MaxSize(): (n: nat)
      requires Valid()
      reads this, storage
      ensures n == Size()
    {
      size
    }

    /** `empty()`. */
    function IsEmpty(): (r: bool)
      requires Valid()
      reads this, storage
      ensures r <==> Elements() == []
    {
      size == 0
    }

    /** `swap(other)`: the two vectors exchange their arrays and sizes. */
    method Swap(other: StaticVector<T>)
      requires Valid() && other.Valid()
      modifies this, other
      ensures Valid() && other.Valid()
      ensures storage == old(other.storage) && other.storage == old(storage)
      ensures Elements() == old(other.Elements()) && other.Elements() == old(Elements())
    {
      storage, other.storage := other.storage, storage;
      size, other.size := other.size, size;
    }
  }
}
