/**
 * Pointers and macrocells of the Life universe (include/macrocell.hpp).
 * Both are plain values: they are built once and then only compared,
 * hashed and read.
 */
module Macrocells {

  newtype uint32 = x: int | 0 <= x < 0x1_0000_0000

  /** The offset of a null pointer: the largest 32-bit value. */
  const NullValue: uint32 := 0xffff_ffff

  /**
   * A pointer to a macrocell or cell square one layer down: an index
   * stored in 32 bits, with NullValue standing for nullptr.
   */
  datatype Pointer = Pointer(offset: uint32)

  /** `pointer(nullptr)`, also the default pointer. */
  function Null(): (p: Pointer)
    ensures !IsSet(p)
  {
    Pointer(NullValue)
  }

  /** `pointer(std::size_t offset)`: the index is cast to 32 bits, dropping its high bits. */
  function FromIndex(index: nat): (p: Pointer)
    ensures index < 0x1_0000_0000 ==> Index(p) == index
    ensures IsSet(p) <==> index % 0x1_0000_0000 != 0xffff_ffff
  {
    Pointer((index % 0x1_0000_0000) as uint32)
  }

  /** `operator bool`: true unless the pointer holds the null offset. */
  function IsSet(p: Pointer): (r: bool)
    ensures r <==> Index(p) != 0xffff_ffff
  {
    p.offset != NullValue
  }

  /** `index()`: the offset widened back to a size. */
  function Index(p: Pointer): (i: nat)
    ensures i < 0x1_0000_0000
  {
    p.offset as nat
  }

  /** `operator==`: pointers compare by offset, which is all they hold. */
  function Equal(p: Pointer, q: Pointer): (r: bool)
    ensures r <==> p == q
  {
    p.offset == q.offset
  }

  /** `operator!=`. */
  function NotEqual(p: Pointer, q: Pointer): (r: bool)
    ensures r <==> p != q
  {
    !Equal(p, q)
  }

  /** `hash()`: the offset itself. */
  function Hash(p: Pointer): (h: uint32)
    ensures h as nat == Index(p)
  {
    p.offset
  }

  /** Only the null pointer is false. */
  lemma UnsetIsNull(p: Pointer)
    ensures !IsSet(p) <==> p == Null()
  {
  }

  /** An index below the null offset survives the round trip through a pointer, and the pointer is set. */
  lemma IndexRoundTrip(index: nat)
    requires index < NullValue as nat
    ensures Index(FromIndex(index)) == index
    ensures IsSet(FromIndex(index))
  {
  }

  /** Rebuilding a pointer from its index gives the same pointer back. */
  lemma FromIndexOfIndex(p: Pointer)
    ensures FromIndex(Index(p)) == p
  {
  }

  /** Indices that agree in their low 32 bits give the same pointer. */
  lemma FromIndexTruncates(index: nat)
    ensures FromIndex(index + 0x1_0000_0000) == FromIndex(index)
  {
  }

  /** The index 2^32 - 1 itself yields a null pointer, while the index 0 does not. */
  lemma FromIndexEdges()
    ensures !IsSet(FromIndex(0xffff_ffff))
    ensures IsSet(FromIndex(0))
  {
  }

  /** Pointers hash to their offsets, so the hash is injective. */
  lemma HashInjective(p: Pointer, q: Pointer)
    ensures Hash(p) == Hash(q) <==> Equal(p, q)
  {
  }

  /** The two cached futures: one step ahead, and 2^(n-2) steps ahead. */
  datatype Future = Future(step: Pointer, next: Pointer)

  /** The four quadrants, in the order nw, ne, sw, se. */
  datatype Quadrants = Quadrants(nw: Pointer, ne: Pointer, sw: Pointer, se: Pointer)

  /** A macrocell: four quadrants one layer down, plus cached futures. */
  datatype Macrocell = Macrocell(future: Future, children: Quadrants)

  /** `macrocell(nw, ne, sw, se)`: the futures start null. */
  function NewMacrocell(nw: Pointer, ne: Pointer, sw: Pointer, se: Pointer): (m: Macrocell)
    ensures !IsSet(Step(m)) && !IsSet(Next(m))
    ensures NW(m) == nw && NE(m) == ne && SW(m) == sw && SE(m) == se
  {
    Macrocell(Future(Null(), Null()), Quadrants(nw, ne, sw, se))
  }

  /** `step()`: the first future slot, one step ahead. */
  function Step(m: Macrocell): Pointer
  {
    m.future.step
  }

  /** `next()`: the second future slot, 2^(n-2) steps ahead. */
  function Next(m: Macrocell): Pointer
  {
    m.future.next
  }

  /** `nw()`: the first child. */
  function NW(m: Macrocell): Pointer
  {
    m.children.nw
  }

  /** `ne()`: the second child. */
  function NE(m: Macrocell): Pointer
  {
    m.children.ne
  }

  /** `sw()`: the third child. */
  function SW(m: Macrocell): Pointer
  {
    m.children.sw
  }

  /** `se()`: the fourth child. */
  function SE(m: Macrocell): Pointer
  {
    m.children.se
  }

  /** The six accessors read back all a macrocell holds, and a macrocell
      whose futures are still null is the one built from its children. */
  lemma AccessorsDetermine(m: Macrocell)
    ensures m == Macrocell(Future(Step(m), Next(m)), Quadrants(NW(m), NE(m), SW(m), SE(m)))
    ensures NewMacrocell(NW(m), NE(m), SW(m), SE(m)) == m <==> !IsSet(Step(m)) && !IsSet(Next(m))
  {
  }

  /** `operator==`: both future slots and all four children must agree. */
  function MacrocellEqual(a: Macrocell, b: Macrocell): (r: bool)
    ensures r <==> a == b
  {
    a.future == b.future && a.children == b.children
  }

  /** `operator!=`. */
  function MacrocellNotEqual(a: Macrocell, b: Macrocell): (r: bool)
    ensures r <==> a != b
  {
    !MacrocellEqual(a, b)
  }

  /**
   * `hash()`: a combination of the hashes of the four children only. The
   * combining function (variadic_hash) is a parameter of the model.
   */
  function MacrocellHash(combine: (uint32, uint32, uint32, uint32) -> bv64, m: Macrocell): (h: bv64)
    ensures h == combine(m.children.nw.offset, m.children.ne.offset, m.children.sw.offset, m.children.se.offset)
  {
    combine(Hash(NW(m)), Hash(NE(m)), Hash(SW(m)), Hash(SE(m)))
  }

  /** Equal macrocells hash equally, whatever the combining function. */
  lemma EqualMacrocellsHashEqually(combine: (uint32, uint32, uint32, uint32) -> bv64, a: Macrocell, b: Macrocell)
    requires MacrocellEqual(a, b)
    ensures MacrocellHash(combine, a) == MacrocellHash(combine, b)
  {
  }

  /** The futures do not enter the hash: only the children do. */
  lemma HashIgnoresFuture(combine: (uint32, uint32, uint32, uint32) -> bv64, a: Macrocell, b: Macrocell)
    requires a.children == b.children
    ensures MacrocellHash(combine, a) == MacrocellHash(combine, b)
  {
  }

  /** Macrocells with the same children but different futures are not equal. */
  lemma FutureDecidesEquality(a: Macrocell, b: Macrocell)
    requires a.children == b.children && a.future != b.future
    ensures MacrocellNotEqual(a, b)
  {
  }
}
