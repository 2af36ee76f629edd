/**
 * The bump allocator behind the hash table (include/hash_set.hpp): a
 * fixed array of elements handed out front to back, never given back.
 */
module Arenas {
  import opened Options

  /** 2^64: `std::size_t` arithmetic is modulo this. */
  const SizeModulus: nat := 0x1_0000_0000_0000_0000

  /** The outcome of an allocation: the offset handed out and the new head. */
  datatype Grant = Grant(offset: nat, head: nat)

  /**
   * `allocate(n)` as written: `head + n` is computed in `std::size_t`, so a
   * large n wraps around and can pass the `new_head <= elements` test.
   */
  function AllocateAsWritten(head: nat, n: nat, elements: nat): (r: Option<Grant>)
    requires head < SizeModulus && n < SizeModulus
    ensures r.Some? ==> r.value.offset == head && r.value.head <= elements
    ensures r.Some? ==> r.value.head == head + n || r.value.head < head
  {
    var newHead := (head + n) % SizeModulus;
    if newHead <= elements then Some(Grant(head, newHead)) else None
  }

  /** The evidently intended `allocate(n)`: succeed only if n more elements fit. */
  function AllocateIntended(head: nat, n: nat, elements: nat): (r: Option<Grant>)
    ensures r.Some? <==> head + n <= elements
    ensures r.Some? ==> r.value.offset == head && r.value.head == head + n
  {
    if head + n <= elements then Some(Grant(head, head + n)) else None
  }

  /**
   * The wrap-around: with one element of four handed out, asking for
   * 2^64 - 1 more succeeds and moves the head back to 0, so the next
   * allocation hands out element 0 a second time.
   */
  lemma AllocateAsWrittenWraps()
    ensures AllocateAsWritten(1, SizeModulus - 1, 4) == Some(Grant(1, 0))
    ensures AllocateAsWritten(0, 1, 4) == Some(Grant(0, 1))
    ensures AllocateIntended(1, SizeModulus - 1, 4) == None
  {
  }

  /** The two agree whenever `head + n` does not wrap. */
  lemma AllocateAgreesWithoutWrap(head: nat, n: nat, elements: nat)
    requires head < SizeModulus && n < SizeModulus && head + n < SizeModulus
    ensures AllocateAsWritten(head, n, elements) == AllocateIntended(head, n, elements)
  {
  }

  /**
   * Two successive intended allocations hand out disjoint ranges, the
   * second after the first, and never move the head past the end.
   */
  lemma AllocationsDisjoint(head: nat, n1: nat, n2: nat, elements: nat)
    requires head <= elements
    requires AllocateIntended(head, n1, elements).Some?
    requires AllocateIntended(AllocateIntended(head, n1, elements).value.head, n2, elements).Some?
    ensures var first := AllocateIntended(head, n1, elements).value;
      var second := AllocateIntended(first.head, n2, elements).value;
      first.offset + n1 <= second.offset && second.offset + n2 == second.head <= elements
  {
  }

  /** `memory_arena<T>`: `elements` slots, of which those before `head` are handed out. */
  class MemoryArena<T(0)> {
    const elements: nat
    var head: nat
    const memory: array<T>

    ghost predicate Valid()
      reads this
    {
      memory.Length == elements && head <= elements && elements < SizeModulus
    }

    /** `memory_arena(elements)`: nothing handed out yet. */
    constructor (elements: nat)
      requires elements < SizeModulus
      ensures Valid() && this.elements == elements && head == 0 && fresh(memory)
    {
      this.elements := elements;
      head := 0;
      memory := new T[elements];
    }

    /** `size()`: the number of slots. */
    function Size(): (n: nat)
      requires Valid()
      reads this
      ensures n == memory.Length
    {
      elements
    }

    /** `full()`: every slot is handed out. */
    function Full(): (r: bool)
      requires Valid()
      reads this
      ensures r <==> head == Size()
    {
      head == elements
    }

    /**
     * `allocate(n)`, as intended: the offset of the first of n fresh slots
     * and the head moved past them, or None (nullptr) with the head left
     * alone when they do not fit.
     */
    method Allocate(n: nat) returns (p: Option<nat>)
      requires Valid() && n < SizeModulus
      modifies this
      ensures Valid()
      ensures p.Some? <==> old(head) + n <= elements
      ensures p.Some? ==> p.value == old(head) && head == old(head) + n
      ensures p.None? ==> head == old(head)
      ensures var g := AllocateIntended(old(head), n, elements);
        (p.Some? <==> g.Some?) && (g.Some? ==> p.value == g.value.offset && head == g.value.head)
    {
      if n <= elements - head {
        var oldHead := head;
        head := head + n;
        return Some(oldHead);
      } else {
        return None;
      }
    }

    /** `deallocate(p, bytes)`: a no-op. */
    method Deallocate(p: Option<nat>, bytes: nat)
      requires Valid()
      ensures Valid()
    {
    }
  }

  /** `arena_allocator<T>`: forwards allocation to the arena it refers to. */
  class ArenaAllocator<T(0)> {
    const arena: MemoryArena<T>

    constructor (arena: MemoryArena<T>)
      ensures this.arena == arena
    {
      this.arena := arena;
    }

    /** `allocate(n)`: exactly the arena's `allocate(n)`. */
    method Allocate(n: nat) returns (p: Option<nat>)
      requires arena.Valid() && n < SizeModulus
      modifies arena
      ensures arena.Valid()
      ensures var g := AllocateIntended(old(arena.head), n, arena.elements);
        (p.Some? <==> g.Some?) && (g.Some? ==> p.value == g.value.offset && arena.head == g.value.head)
      ensures p.None? ==> arena.head == old(arena.head)
    {
      p := arena.Allocate(n);
    }

    /** `deallocate(p, bytes)`: a no-op. */
    method Deallocate(p: Option<nat>, bytes: nat)
      requires arena.Valid()
      ensures arena.Valid()
    {
    }
  }
}
