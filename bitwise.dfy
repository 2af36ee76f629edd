/** Bit operations on unsigned words, as used by the 8x8 leaf blocks.
    The source is generic over unsigned types; the only width the simulator
    instantiates is 64 bits, so words are `bv64`, and bit indices are `bv64`
    like the source's `std::size_t`. */
module Bitwise {

  /** `bit(value, index)`: bit `index` of `value`, shifted down and tested;
      bits beyond the width of the word read as false. */
  function Bit(value: bv64, index: bv64): (r: bool)
    ensures r ==> index < 64
  {
    index < 64 && (value >> index) & 1 == 1
  }

  /** A truth value as the digit 0 or 1, for stating adder arithmetic. */
  function Digit(b: bool): nat
  {
    if b then 1 else 0
  }

  /** `set(value, index)`: raises bit `index`. The source updates its
      by-reference argument; here the updated word is the result. An index
      beyond the width leaves the word unchanged, as the source documents. */
  function SetBit(value: bv64, index: bv64): (r: bv64)
    ensures index < 64 ==> (r >> index) & 1 == 1
    ensures index >= 64 ==> r == value
  {
    if index < 64 then value | (1 << index) else value
  }

  /** After `SetBit` exactly bit `index` is raised (if it is within the
      word) and every other bit keeps its value. */
  lemma {:induction false} SetBitSpec(value: bv64, index: bv64, j: bv64)
    ensures Bit(SetBit(value, index), j) <==> (j == index && index < 64) || Bit(value, j)
  {
    if index < 64 {
      var mask := 1 << index;
      assert SetBit(value, index) == value | mask;
      BitOr(value, mask, j);
      BitSingle(index, j);
    }
  }

  /** The word `1 << index` has exactly bit `index` raised. */
  lemma BitSingle(index: bv64, j: bv64)
    requires index < 64
    ensures Bit(1 << index, j) <==> j == index
  {}

  lemma BitXor(a: bv64, b: bv64, i: bv64)
    ensures Bit(a ^ b, i) == (Bit(a, i) != Bit(b, i))
  {}

  lemma BitAnd(a: bv64, b: bv64, i: bv64)
    ensures Bit(a & b, i) == (Bit(a, i) && Bit(b, i))
  {}

  lemma BitOr(a: bv64, b: bv64, i: bv64)
    ensures Bit(a | b, i) == (Bit(a, i) || Bit(b, i))
  {}

  /** Complement flips every bit of the word. */
  lemma BitNot(a: bv64, i: bv64)
    requires i < 64
    ensures Bit(!a, i) == !Bit(a, i)
  {}

  /** The pair of words an adder returns: the sum bits and the carry bits. */
  datatype SumCarry = SumCarry(sum: bv64, carry: bv64)

  /** Sum and carry of a half adder cover its inputs and never overlap. */
  lemma HalfAdderCover(left: bv64, right: bv64)
    ensures (left ^ right) & (left & right) == 0
    ensures (left ^ right) | (left & right) == left | right
  {}

  /** `half_add`: adds the two words bit by bit, without carrying between
      positions. */
  function HalfAdd(left: bv64, right: bv64): (r: SumCarry)
    ensures r.sum & r.carry == 0
    ensures r.sum | r.carry == left | right
  {
    HalfAdderCover(left, right);
    SumCarry(left ^ right, left & right)
  }

  /** `full_add`: adds three words bit by bit, without carrying between
      positions. */
  function FullAdd(left: bv64, right: bv64, carry: bv64): (r: SumCarry)
    ensures r.sum | r.carry == (left | right) | carry
  {
    SumCarry(left ^ right ^ carry, (left & right) | (left & carry) | (right & carry))
  }

  /** Disjunction of three words, bit by bit. */
  lemma BitOr3(a: bv64, b: bv64, c: bv64, i: bv64)
    ensures Bit((a | b) | c, i) == (Bit(a, i) || Bit(b, i) || Bit(c, i))
  {}

  /** The half adder's sum bit is the exclusive or of its inputs. */
  lemma {:induction false} HalfAddSumBit(left: bv64, right: bv64, i: bv64)
    ensures Bit(HalfAdd(left, right).sum, i) == (Bit(left, i) != Bit(right, i))
  {
    BitXor(left, right, i);
  }

  /** The half adder's carry bit is the conjunction of its inputs. */
  lemma {:induction false} HalfAddCarryBit(left: bv64, right: bv64, i: bv64)
    ensures Bit(HalfAdd(left, right).carry, i) == (Bit(left, i) && Bit(right, i))
  {
    BitAnd(left, right, i);
  }

  lemma HalfAddSumWord(left: bv64, right: bv64)
    ensures HalfAdd(left, right).sum == left ^ right
  {}

  lemma FullAddSumWord(left: bv64, right: bv64, carry: bv64)
    ensures FullAdd(left, right, carry).sum == HalfAdd(left ^ right, carry).sum
  {}

  lemma FullAddCarryWord(left: bv64, right: bv64, carry: bv64)
    ensures FullAdd(left, right, carry).carry == ((left & right) | (left & carry)) | (right & carry)
  {}

  /** The full adder's sum word is that of two chained half adders. */
  lemma {:induction false} FullAddSumChained(left: bv64, right: bv64, carry: bv64)
    ensures FullAdd(left, right, carry).sum == HalfAdd(HalfAdd(left, right).sum, carry).sum
  {
    hide *;
    FullAddSumWord(left, right, carry);
    HalfAddSumWord(left, right);
  }

  /** The full adder's sum bit is the parity of its three inputs. */
  lemma {:induction false} FullAddSumBit(left: bv64, right: bv64, carry: bv64, i: bv64)
    ensures Bit(FullAdd(left, right, carry).sum, i) == ((Bit(left, i) != Bit(right, i)) != Bit(carry, i))
  {
    hide *;
    FullAddSumChained(left, right, carry);
    HalfAddSumBit(left, right, i);
    HalfAddSumBit(HalfAdd(left, right).sum, carry, i);
  }

  /** The full adder's carry bit is the majority of its three inputs. */
  lemma {:induction false} FullAddCarryBit(left: bv64, right: bv64, carry: bv64, i: bv64)
    ensures Bit(FullAdd(left, right, carry).carry, i) ==
      ((Bit(left, i) && Bit(right, i)) || (Bit(left, i) && Bit(carry, i)) || (Bit(right, i) && Bit(carry, i)))
  {
    hide *;
    FullAddCarryWord(left, right, carry);
    BitOr3(left & right, left & carry, right & carry, i);
    BitAnd(left, right, i);
    BitAnd(left, carry, i);
    BitAnd(right, carry, i);
  }

  /** Exclusive or and conjunction of two bits are the low and high digit
      of their sum. */
  lemma TwoBitSum(a: bool, b: bool)
    ensures Digit(a != b) + 2 * Digit(a && b) == Digit(a) + Digit(b)
  {}

  /** Parity and majority of three bits are the low and high digit of
      their sum. */
  lemma ThreeBitSum(a: bool, b: bool, c: bool)
    ensures Digit((a != b) != c) + 2 * Digit((a && b) || (a && c) || (b && c)) == Digit(a) + Digit(b) + Digit(c)
  {}

  /** In every bit position, the half adder's sum + 2 * carry is the sum of
      the two input bits. */
  lemma {:induction false} HalfAddDigit(left: bv64, right: bv64, i: bv64)
    ensures var r := HalfAdd(left, right);
      Digit(Bit(r.sum, i)) + 2 * Digit(Bit(r.carry, i)) == Digit(Bit(left, i)) + Digit(Bit(right, i))
  {
    hide *;
    HalfAddSumBit(left, right, i);
    HalfAddCarryBit(left, right, i);
    TwoBitSum(Bit(left, i), Bit(right, i));
  }

  /** In every bit position, the full adder's sum + 2 * carry is the sum of
      the three input bits. */
  lemma {:induction false} FullAddDigit(left: bv64, right: bv64, carry: bv64, i: bv64)
    ensures var r := FullAdd(left, right, carry);
      Digit(Bit(r.sum, i)) + 2 * Digit(Bit(r.carry, i)) ==
      Digit(Bit(left, i)) + Digit(Bit(right, i)) + Digit(Bit(carry, i))
  {
    hide *;
    FullAddSumBit(left, right, carry, i);
    FullAddCarryBit(left, right, carry, i);
    ThreeBitSum(Bit(left, i), Bit(right, i), Bit(carry, i));
  }

  /** The full adder does not depend on the order of its three inputs. */
  lemma FullAddSymmetric(a: bv64, b: bv64, c: bv64)
    ensures FullAdd(a, b, c) == FullAdd(b, a, c) == FullAdd(a, c, b) == FullAdd(c, b, a)
  {}

  /** The truth table the source's tests check, on one-bit inputs. */
  lemma AdderTables()
    ensures HalfAdd(0, 0) == SumCarry(0, 0) && HalfAdd(1, 0) == SumCarry(1, 0)
    ensures HalfAdd(0, 1) == SumCarry(1, 0) && HalfAdd(1, 1) == SumCarry(0, 1)
    ensures FullAdd(0, 0, 0) == SumCarry(0, 0) && FullAdd(1, 1, 1) == SumCarry(1, 1)
    ensures FullAdd(0, 1, 1) == SumCarry(0, 1) && FullAdd(1, 0, 0) == SumCarry(1, 0)
    ensures Bit(0x4, 2) && !Bit(0x4, 3) && !Bit(0x4, 1)
  {}


}
