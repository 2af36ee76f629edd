/** The Life rule that `step` computes with word-wide adders, proved cell by
    cell: the three bit planes of `neighbours` hold the count of every 3x3
    square modulo 8, and `step` keeps exactly the interior cells that are
    alive with 4 live cells in their square or whose square holds 3 (the
    B3/S23 rule, with the cell itself counted). */
module CellsLife {
  import opened Bitwise
  import opened Cells

  // ---------------------------------------------------------------------
  // Counting three bits: parity and majority.
  // ---------------------------------------------------------------------

  /** The low digit of the sum of three bits. */
  predicate Parity(a: bool, b: bool, c: bool) { (a != b) != c }

  /** The high digit of the sum of three bits. */
  predicate Majority(a: bool, b: bool, c: bool) { (a && b) || (a && c) || (b && c) }

  // ---------------------------------------------------------------------
  // Shifted words, bit by bit.
  // ---------------------------------------------------------------------

  lemma BitShl1(v: bv64, j: bv64)
    requires 1 <= j < 64
    ensures Bit(v << 1, j) == Bit(v, j - 1)
  {}

  lemma BitShr1(v: bv64, j: bv64)
    requires j < 63
    ensures Bit(v >> 1, j) == Bit(v, j + 1)
  {}

  lemma BitShl8(v: bv64, j: bv64)
    requires 8 <= j < 64
    ensures Bit(v << 8, j) == Bit(v, j - 8)
  {}

  lemma BitShr8(v: bv64, j: bv64)
    requires j < 56
    ensures Bit(v >> 8, j) == Bit(v, j + 8)
  {}

  /** The index one row up and one row down. */
  function Above(i: bv64): bv64 { i - 8 }
  function Below(i: bv64): bv64 { i + 8 }

  /** `full_add(left, bitmap, right)` adds every cell to its west and east
      neighbour: bit j of the planes is the count of cells j - 1, j, j + 1. */
  lemma {:induction false} RowBit(v: bv64, j: bv64)
    requires 1 <= j < 63
    ensures Bit(RowSums(v).sum, j) == Parity(Bit(v, j - 1), Bit(v, j), Bit(v, j + 1))
    ensures Bit(RowSums(v).carry, j) == Majority(Bit(v, j - 1), Bit(v, j), Bit(v, j + 1))
  {
    hide FullAdd, HalfAdd, Bit;
    assert RowSums(v) == FullAdd(v << 1, v, v >> 1);
    FullAddSumBit(v << 1, v, v >> 1, j);
    FullAddCarryBit(v << 1, v, v >> 1, j);
    BitShl1(v, j);
    BitShr1(v, j);
  }

  /** `full_add(up, mid, down)` adds every row sum to the one above and the
      one below. */
  lemma {:induction false} ColumnBit(w: bv64, i: bv64)
    requires 9 <= i <= 54
    ensures Bit(ColumnSums(w).sum, i) == Parity(Bit(w, Above(i)), Bit(w, i), Bit(w, Below(i)))
    ensures Bit(ColumnSums(w).carry, i) == Majority(Bit(w, Above(i)), Bit(w, i), Bit(w, Below(i)))
  {
    hide FullAdd, HalfAdd, Bit;
    assert ColumnSums(w) == FullAdd(w << 8, w, w >> 8);
    FullAddSumBit(w << 8, w, w >> 8, i);
    FullAddCarryBit(w << 8, w, w >> 8, i);
    BitShl8(w, i);
    BitShr8(w, i);
  }

  lemma NeighboursUnfold(v: bv64)
    ensures Neighbours(v).sum1 == ColumnSums(RowSums(v).sum).sum
    ensures Neighbours(v).sum2 == HalfAdd(ColumnSums(RowSums(v).sum).carry, ColumnSums(RowSums(v).carry).sum).sum
  {
    hide RowSums, ColumnSums, HalfAdd;
  }

  lemma NeighboursXor(v: bv64)
    ensures Neighbours(v).sum4 ==
      ColumnSums(RowSums(v).carry).carry ^ HalfAdd(ColumnSums(RowSums(v).sum).carry, ColumnSums(RowSums(v).carry).sum).carry
  {
    hide RowSums, ColumnSums, HalfAdd;
  }

  lemma XorHalfSum(p: bv64, q: bv64)
    ensures p ^ q == HalfAdd(p, q).sum
  {}

  /** `sum4a ^ sum4b` is the sum bit of one more half adder. */
  lemma NeighboursSum4(v: bv64)
    ensures Neighbours(v).sum4 ==
      HalfAdd(ColumnSums(RowSums(v).carry).carry, HalfAdd(ColumnSums(RowSums(v).sum).carry, ColumnSums(RowSums(v).carry).sum).carry).sum
  {
    hide *;
    NeighboursXor(v);
    XorHalfSum(ColumnSums(RowSums(v).carry).carry, HalfAdd(ColumnSums(RowSums(v).sum).carry, ColumnSums(RowSums(v).carry).sum).carry);
  }

  // ---------------------------------------------------------------------
  // The 3x3 square around a cell and the adder tree over it.
  // ---------------------------------------------------------------------

  /** The nine cells of a 3x3 square, named by compass direction from its
      centre. */
  datatype Neighbourhood = Neighbourhood(nw: bool, n: bool, ne: bool, w: bool, centre: bool, e: bool, sw: bool, s: bool, se: bool)

  /** The 3x3 square around bit `i` of a bitmap: one row is 8 bits. */
  function Around(v: bv64, i: bv64): Neighbourhood
  {
    Neighbourhood(Bit(v, i - 9), Bit(v, i - 8), Bit(v, i - 7),
                  Bit(v, i - 1), Bit(v, i), Bit(v, i + 1),
                  Bit(v, i + 7), Bit(v, i + 8), Bit(v, i + 9))
  }

  /** The 3x3 square around cell (x, y) of a block. */
  function Square(c: Cells, x: bv64, y: bv64): Neighbourhood
  {
    Neighbourhood(Alive(c, x - 1, y - 1), Alive(c, x, y - 1), Alive(c, x + 1, y - 1),
                  Alive(c, x - 1, y), Alive(c, x, y), Alive(c, x + 1, y),
                  Alive(c, x - 1, y + 1), Alive(c, x, y + 1), Alive(c, x + 1, y + 1))
  }

  /** The number of live cells in a square, the centre included. */
  function Count(h: Neighbourhood): (n: nat)
    ensures n <= 9
  {
    Digit(h.nw) + Digit(h.n) + Digit(h.ne) + Digit(h.w) + Digit(h.centre) + Digit(h.e) + Digit(h.sw) + Digit(h.s) + Digit(h.se)
  }

  /** The three bits `neighbours` computes for one cell. */
  datatype Tally = Tally(ones: bool, twos: bool, fours: bool)

  /** The adder tree of `neighbours` evaluated on one square: three row
      adders, two column adders, one half adder and the final exclusive or. */
  function TallyOf(h: Neighbourhood): Tally
  {
    var t1 := Parity(h.nw, h.n, h.ne);
    var t2 := Majority(h.nw, h.n, h.ne);
    var m1 := Parity(h.w, h.centre, h.e);
    var m2 := Majority(h.w, h.centre, h.e);
    var b1 := Parity(h.sw, h.s, h.se);
    var b2 := Majority(h.sw, h.s, h.se);
    var sum2a := Majority(t1, m1, b1);
    var sum2b := Parity(t2, m2, b2);
    Tally(Parity(t1, m1, b1), sum2a != sum2b, Majority(t2, m2, b2) != (sum2a && sum2b))
  }

  lemma Combine(h: Neighbourhood, s1: bool, s2: bool, s4: bool,
                top1: bool, top2: bool, mid1: bool, mid2: bool, bot1: bool, bot2: bool,
                a1: bool, a2: bool, b1: bool, b2: bool, hs: bool, hc: bool)
    requires top1 == Parity(h.nw, h.n, h.ne) && top2 == Majority(h.nw, h.n, h.ne)
    requires mid1 == Parity(h.w, h.centre, h.e) && mid2 == Majority(h.w, h.centre, h.e)
    requires bot1 == Parity(h.sw, h.s, h.se) && bot2 == Majority(h.sw, h.s, h.se)
    requires a1 == Parity(top1, mid1, bot1) && a2 == Majority(top1, mid1, bot1)
    requires b1 == Parity(top2, mid2, bot2) && b2 == Majority(top2, mid2, bot2)
    requires hs == (a2 != b1) && hc == (a2 && b1)
    requires s1 == a1 && s2 == hs && s4 == (b2 != hc)
    ensures Tally(s1, s2, s4) == TallyOf(h)
  {}

  lemma {:induction false} RowTop(v: bv64, i: bv64)
    requires 9 <= i <= 54
    ensures Bit(RowSums(v).sum, Above(i)) == Parity(Around(v, i).nw, Around(v, i).n, Around(v, i).ne)
    ensures Bit(RowSums(v).carry, Above(i)) == Majority(Around(v, i).nw, Around(v, i).n, Around(v, i).ne)
  {
    hide RowSums, Parity, Majority;
    RowBit(v, i - 8);
    assert i - 8 - 1 == i - 9 && i - 8 + 1 == i - 7;
  }

  lemma {:induction false} RowMiddle(v: bv64, i: bv64)
    requires 9 <= i <= 54
    ensures Bit(RowSums(v).sum, i) == Parity(Around(v, i).w, Around(v, i).centre, Around(v, i).e)
    ensures Bit(RowSums(v).carry, i) == Majority(Around(v, i).w, Around(v, i).centre, Around(v, i).e)
  {
    hide RowSums, Parity, Majority;
    RowBit(v, i);
  }

  lemma {:induction false} RowBottom(v: bv64, i: bv64)
    requires 9 <= i <= 54
    ensures Bit(RowSums(v).sum, Below(i)) == Parity(Around(v, i).sw, Around(v, i).s, Around(v, i).se)
    ensures Bit(RowSums(v).carry, Below(i)) == Majority(Around(v, i).sw, Around(v, i).s, Around(v, i).se)
  {
    hide RowSums, Parity, Majority;
    RowBit(v, i + 8);
    assert i + 8 - 1 == i + 7 && i + 8 + 1 == i + 9;
  }

  /** The bit planes of every stage of `neighbours`, related at one index,
      give the adder tree over the square around that index. */
  lemma {:induction false} Gather(v: bv64, i: bv64, ms: bv64, mc: bv64, as1: bv64, ac: bv64, bs: bv64, bc: bv64, hs: bv64, hc: bv64, s4: bv64)
    requires Bit(ms, Above(i)) == Parity(Around(v, i).nw, Around(v, i).n, Around(v, i).ne)
    requires Bit(mc, Above(i)) == Majority(Around(v, i).nw, Around(v, i).n, Around(v, i).ne)
    requires Bit(ms, i) == Parity(Around(v, i).w, Around(v, i).centre, Around(v, i).e)
    requires Bit(mc, i) == Majority(Around(v, i).w, Around(v, i).centre, Around(v, i).e)
    requires Bit(ms, Below(i)) == Parity(Around(v, i).sw, Around(v, i).s, Around(v, i).se)
    requires Bit(mc, Below(i)) == Majority(Around(v, i).sw, Around(v, i).s, Around(v, i).se)
    requires Bit(as1, i) == Parity(Bit(ms, Above(i)), Bit(ms, i), Bit(ms, Below(i)))
    requires Bit(ac, i) == Majority(Bit(ms, Above(i)), Bit(ms, i), Bit(ms, Below(i)))
    requires Bit(bs, i) == Parity(Bit(mc, Above(i)), Bit(mc, i), Bit(mc, Below(i)))
    requires Bit(bc, i) == Majority(Bit(mc, Above(i)), Bit(mc, i), Bit(mc, Below(i)))
    requires Bit(hs, i) == (Bit(ac, i) != Bit(bs, i))
    requires Bit(hc, i) == (Bit(ac, i) && Bit(bs, i))
    requires Bit(s4, i) == (Bit(bc, i) != Bit(hc, i))
    ensures Tally(Bit(as1, i), Bit(hs, i), Bit(s4, i)) == TallyOf(Around(v, i))
  {
    hide *;
    Combine(Around(v, i), Bit(as1, i), Bit(hs, i), Bit(s4, i),
      Bit(ms, Above(i)), Bit(mc, Above(i)), Bit(ms, i), Bit(mc, i), Bit(ms, Below(i)), Bit(mc, Below(i)),
      Bit(as1, i), Bit(ac, i), Bit(bs, i), Bit(bc, i), Bit(hs, i), Bit(hc, i));
  }

  /** At every index away from the word's top and bottom rows and from its
      ends, the three planes of `neighbours` are the adder tree over the
      square around that index. */
  lemma {:induction false} NeighboursBits(v: bv64, i: bv64)
    requires 9 <= i <= 54
    ensures Tally(Bit(Neighbours(v).sum1, i), Bit(Neighbours(v).sum2, i), Bit(Neighbours(v).sum4, i)) == TallyOf(Around(v, i))
  {
    hide *;
    NeighboursUnfold(v);
    NeighboursSum4(v);
    StageBits(v, i, RowSums(v), ColumnSums(RowSums(v).sum), ColumnSums(RowSums(v).carry),
      HalfAdd(ColumnSums(RowSums(v).sum).carry, ColumnSums(RowSums(v).carry).sum));
  }

  /** The stages of `neighbours` at one index: the row adder `m`, the two
      column adders `a` and `b` over its sum and carry planes, and the half
      adder `h` that joins them. */
  lemma {:induction false} StageBits(v: bv64, i: bv64, m: SumCarry, a: SumCarry, b: SumCarry, h: SumCarry)
    requires 9 <= i <= 54
    requires m == RowSums(v) && a == ColumnSums(m.sum) && b == ColumnSums(m.carry) && h == HalfAdd(a.carry, b.sum)
    ensures Tally(Bit(a.sum, i), Bit(h.sum, i), Bit(HalfAdd(b.carry, h.carry).sum, i)) == TallyOf(Around(v, i))
  {
    hide *;
    RowTop(v, i);
    RowMiddle(v, i);
    RowBottom(v, i);
    ColumnBit(m.sum, i);
    ColumnBit(m.carry, i);
    HalfAddSumBit(a.carry, b.sum, i);
    HalfAddCarryBit(a.carry, b.sum, i);
    HalfAddSumBit(b.carry, h.carry, i);
    Gather(v, i, m.sum, m.carry, a.sum, a.carry, b.sum, b.carry, h.sum, h.carry, HalfAdd(b.carry, h.carry).sum);
  }

  /** The adder tree counts: its three bits are the binary digits of the
      number of live cells among nine, modulo 8. */
  lemma TallyDigits(nw: bool, n: bool, ne: bool, w: bool, centre: bool, e: bool, sw: bool, s: bool, se: bool)
    ensures var t := TallyOf(Neighbourhood(nw, n, ne, w, centre, e, sw, s, se));
      Digit(t.ones) + 2 * Digit(t.twos) + 4 * Digit(t.fours) ==
      (Digit(nw) + Digit(n) + Digit(ne) + Digit(w) + Digit(centre) + Digit(e) + Digit(sw) + Digit(s) + Digit(se)) % 8
  {
    // Each adder turns its inputs into a digit and a carry of the same sum.
    var t1, t2 := Parity(nw, n, ne), Majority(nw, n, ne);
    var m1, m2 := Parity(w, centre, e), Majority(w, centre, e);
    var b1, b2 := Parity(sw, s, se), Majority(sw, s, se);
    var sum2a, sum2b := Majority(t1, m1, b1), Parity(t2, m2, b2);
    ThreeBitSum(nw, n, ne);
    ThreeBitSum(w, centre, e);
    ThreeBitSum(sw, s, se);
    ThreeBitSum(t1, m1, b1);
    ThreeBitSum(t2, m2, b2);
    TwoBitSum(sum2a, sum2b);
    TwoBitSum(Majority(t2, m2, b2), sum2a && sum2b);
  }

  lemma CountFields(h: Neighbourhood)
    ensures Count(h) == Digit(h.nw) + Digit(h.n) + Digit(h.ne) + Digit(h.w) + Digit(h.centre) + Digit(h.e) + Digit(h.sw) + Digit(h.s) + Digit(h.se)
  {
    hide Digit;
  }

  /** `TallyDigits` for a square given as a value. */
  lemma {:induction false} TallyCounts(h: Neighbourhood)
    ensures var t := TallyOf(h); Digit(t.ones) + 2 * Digit(t.twos) + 4 * Digit(t.fours) == Count(h) % 8
  {
    hide *;
    TallyDigits(h.nw, h.n, h.ne, h.w, h.centre, h.e, h.sw, h.s, h.se);
    assert h == Neighbourhood(h.nw, h.n, h.ne, h.w, h.centre, h.e, h.sw, h.s, h.se);
    CountFields(h);
  }

  // ---------------------------------------------------------------------
  // The word-wide rule of `step`, bit by bit.
  // ---------------------------------------------------------------------

  /** Single-operator names for the word operations of `step`, so that its
      rule can be taken apart one operator at a time. */
  function And(a: bv64, b: bv64): bv64 { a & b }
  function Or(a: bv64, b: bv64): bv64 { a | b }
  function Not(a: bv64): bv64 { !a }

  lemma AndBit(a: bv64, b: bv64, i: bv64)
    ensures Bit(And(a, b), i) == (Bit(a, i) && Bit(b, i))
  {
    BitAnd(a, b, i);
  }

  lemma OrBit(a: bv64, b: bv64, i: bv64)
    ensures Bit(Or(a, b), i) == (Bit(a, i) || Bit(b, i))
  {
    BitOr(a, b, i);
  }

  lemma NotBit(a: bv64, i: bv64)
    requires i < 64
    ensures Bit(Not(a), i) == !Bit(a, i)
  {
    BitNot(a, i);
  }

  /** `step` written with the named operators. */
  lemma StepWords(c: Cells, s1: bv64, s2: bv64, s4: bv64)
    requires s1 == Neighbours(c.bitmap).sum1 && s2 == Neighbours(c.bitmap).sum2 && s4 == Neighbours(c.bitmap).sum4
    ensures Step(c).bitmap == And(Or(And(c.bitmap, And(And(Not(s1), Not(s2)), s4)), And(And(s1, s2), Not(s4))), InteriorMask)
  {
    hide Neighbours, Bit, RowSums, ColumnSums, FullAdd, HalfAdd;
  }

  /** The rule of `step` at one bit: `case1 | case2`, masked. */
  lemma {:induction false} RuleBit(p: bv64, s1: bv64, s2: bv64, s4: bv64, i: bv64)
    requires i < 64
    ensures Bit(And(Or(And(p, And(And(Not(s1), Not(s2)), s4)), And(And(s1, s2), Not(s4))), InteriorMask), i) ==
      (Bit(InteriorMask, i) && ((Bit(p, i) && !Bit(s1, i) && !Bit(s2, i) && Bit(s4, i)) || (Bit(s1, i) && Bit(s2, i) && !Bit(s4, i))))
  {
    hide *;
    AndBit(Or(And(p, And(And(Not(s1), Not(s2)), s4)), And(And(s1, s2), Not(s4))), InteriorMask, i);
    OrBit(And(p, And(And(Not(s1), Not(s2)), s4)), And(And(s1, s2), Not(s4)), i);
    AndBit(p, And(And(Not(s1), Not(s2)), s4), i);
    AndBit(And(Not(s1), Not(s2)), s4, i);
    AndBit(Not(s1), Not(s2), i);
    AndBit(And(s1, s2), Not(s4), i);
    AndBit(s1, s2, i);
    NotBit(s1, i);
    NotBit(s2, i);
    NotBit(s4, i);
  }

  /** The decision `step` takes on the three count bits of a cell: binary
      100 with the cell alive (`case1`), or binary 011 (`case2`). */
  predicate TallyRule(alive: bool, t: Tally)
  {
    (alive && !t.ones && !t.twos && t.fours) || (t.ones && t.twos && !t.fours)
  }

  /** The Life rule on the count of the 3x3 square, the cell included: a
      live cell with 3 live neighbours (4 in the square) survives, and any
      square of exactly 3 live cells makes its centre live. */
  predicate LifeRule(alive: bool, n: nat)
  {
    (alive && n == 4) || n == 3
  }

  lemma TallyRuleIs(alive: bool, t: Tally)
    ensures TallyRule(alive, t) == ((alive && !t.ones && !t.twos && t.fours) || (t.ones && t.twos && !t.fours))
  {}

  /** `step` at one index is `TallyRule` over the square around it. */
  lemma {:induction false} StepBit(c: Cells, i: bv64)
    requires 9 <= i <= 54
    ensures Bit(Step(c).bitmap, i) == (Bit(InteriorMask, i) && TallyRule(Bit(c.bitmap, i), TallyOf(Around(c.bitmap, i))))
  {
    hide *;
    StepWords(c, Neighbours(c.bitmap).sum1, Neighbours(c.bitmap).sum2, Neighbours(c.bitmap).sum4);
    RuleBit(c.bitmap, Neighbours(c.bitmap).sum1, Neighbours(c.bitmap).sum2, Neighbours(c.bitmap).sum4, i);
    NeighboursBits(c.bitmap, i);
    TallyRuleIs(Bit(c.bitmap, i), TallyOf(Around(c.bitmap, i)));
  }

  /** Dropping the counts of 8 and 9 is harmless: on the count modulo 8 the
      decision of `step` is the Life rule on the true count. */
  lemma RuleFromTally(alive: bool, t: Tally, n: nat)
    requires Digit(t.ones) + 2 * Digit(t.twos) + 4 * Digit(t.fours) == n % 8
    requires n <= 9
    ensures TallyRule(alive, t) == LifeRule(alive, n)
  {}

  // ---------------------------------------------------------------------
  // From bit indices to cell coordinates.
  // ---------------------------------------------------------------------

  /** The nine cells around an interior cell sit at fixed offsets from its
      index. */
  lemma IndexOffsets(x: bv64, y: bv64)
    requires 1 <= x <= 6 && 1 <= y <= 6
    ensures CellIndex(x - 1, y - 1) == CellIndex(x, y) - 9
    ensures CellIndex(x, y - 1) == CellIndex(x, y) - 8
    ensures CellIndex(x + 1, y - 1) == CellIndex(x, y) - 7
    ensures CellIndex(x - 1, y) == CellIndex(x, y) - 1
    ensures CellIndex(x + 1, y) == CellIndex(x, y) + 1
    ensures CellIndex(x - 1, y + 1) == CellIndex(x, y) + 7
    ensures CellIndex(x, y + 1) == CellIndex(x, y) + 8
    ensures CellIndex(x + 1, y + 1) == CellIndex(x, y) + 9
    ensures 9 <= CellIndex(x, y) <= 54
  {}

  /** The square around an interior cell is the square around its index. */
  lemma SquareAround(c: Cells, x: bv64, y: bv64)
    requires 1 <= x <= 6 && 1 <= y <= 6
    ensures Square(c, x, y) == Around(c.bitmap, CellIndex(x, y))
  {
    hide Alive, Bit, CellIndex;
    IndexOffsets(x, y);
    AliveIs(c, x - 1, y - 1);
    AliveIs(c, x, y - 1);
    AliveIs(c, x + 1, y - 1);
    AliveIs(c, x - 1, y);
    AliveIs(c, x, y);
    AliveIs(c, x + 1, y);
    AliveIs(c, x - 1, y + 1);
    AliveIs(c, x, y + 1);
    AliveIs(c, x + 1, y + 1);
  }

  lemma InteriorMaskBits(x: bv64, y: bv64)
    requires x < 8 && y < 8
    ensures Bit(InteriorMask, CellIndex(x, y)) <==> 1 <= x <= 6 && 1 <= y <= 6
  {}

  lemma CentreMaskBits(x: bv64, y: bv64)
    requires x < 8 && y < 8
    ensures Bit(CentreMask, CellIndex(x, y)) <==> 2 <= x <= 5 && 2 <= y <= 5
  {}

  lemma BitOfMasked(w: bv64, mask: bv64, i: bv64)
    ensures Bit(w & mask, i) == (Bit(w, i) && Bit(mask, i))
  {}

  // ---------------------------------------------------------------------
  // The properties of `neighbours`, `step` and `next`, cell by cell.
  // ---------------------------------------------------------------------

  /** `neighbours`: at every interior cell the bits of `sum1`, `sum2` and
      `sum4` are the binary digits of the number of live cells in its 3x3
      square, modulo 8. */
  lemma {:induction false} NeighboursCount(c: Cells, x: bv64, y: bv64)
    requires 1 <= x <= 6 && 1 <= y <= 6
    ensures var n := Neighbours(c.bitmap); var i := CellIndex(x, y);
      Digit(Bit(n.sum1, i)) + 2 * Digit(Bit(n.sum2, i)) + 4 * Digit(Bit(n.sum4, i)) == Count(Square(c, x, y)) % 8
  {
    hide *;
    IndexOffsets(x, y);
    NeighboursBits(c.bitmap, CellIndex(x, y));
    SquareAround(c, x, y);
    TallyCounts(Square(c, x, y));
  }

  /** `step` leaves every cell outside the interior 6x6 dead. */
  lemma StepBorder(c: Cells, x: bv64, y: bv64)
    requires x < 8 && y < 8
    requires !(1 <= x <= 6 && 1 <= y <= 6)
    ensures !Alive(Step(c), x, y)
  {
    var n := Neighbours(c.bitmap);
    var w := (c.bitmap & (!n.sum1 & !n.sum2 & n.sum4)) | (n.sum1 & n.sum2 & !n.sum4);
    hide Neighbours;
    BitOfMasked(w, InteriorMask, CellIndex(x, y));
    InteriorMaskBits(x, y);
  }

  /** The Life rule of `step`: a cell of the block is alive afterwards
      exactly when it is an interior cell and either it was alive with 4
      live cells in its 3x3 square or that square held exactly 3. */
  lemma {:induction false} StepRule(c: Cells, x: bv64, y: bv64)
    requires x < 8 && y < 8
    ensures Alive(Step(c), x, y) <==>
      1 <= x <= 6 && 1 <= y <= 6 && LifeRule(Alive(c, x, y), Count(Square(c, x, y)))
  {
    if 1 <= x <= 6 && 1 <= y <= 6 {
      hide *;
      IndexOffsets(x, y);
      StepBit(c, CellIndex(x, y));
      InteriorMaskBits(x, y);
      SquareAround(c, x, y);
      TallyCounts(Square(c, x, y));
      RuleFromTally(Alive(c, x, y), TallyOf(Square(c, x, y)), Count(Square(c, x, y)));
      AliveIs(Step(c), x, y);
      AliveIs(c, x, y);
    } else {
      StepBorder(c, x, y);
    }
  }

  lemma AliveIs(c: Cells, x: bv64, y: bv64)
    ensures Alive(c, x, y) == Bit(c.bitmap, CellIndex(x, y))
  {}

  /** The live cells around (x, y), the cell itself not counted. */
  function LiveNeighbours(c: Cells, x: bv64, y: bv64): (k: nat)
    ensures k <= 8
  {
    Count(Square(c, x, y)) - Digit(Alive(c, x, y))
  }

  /** The rule of `step` in its usual form, B3/S23: an interior cell is born
      with exactly 3 live neighbours and survives with 2 or 3. */
  lemma StepBirthSurvival(c: Cells, x: bv64, y: bv64)
    requires 1 <= x <= 6 && 1 <= y <= 6
    ensures Alive(Step(c), x, y) <==>
      if Alive(c, x, y) then LiveNeighbours(c, x, y) == 2 || LiveNeighbours(c, x, y) == 3
      else LiveNeighbours(c, x, y) == 3
  {
    StepRule(c, x, y);
  }

  lemma NextUnfold(c: Cells)
    ensures Next(c).bitmap == Step(Step(c)).bitmap & CentreMask
  {
    hide Step;
  }

  /** `next`: inside the central 4x4 square a cell is what it is after two
      `step`s; every other cell is dead. */
  lemma NextCell(c: Cells, x: bv64, y: bv64)
    requires x < 8 && y < 8
    ensures Alive(Next(c), x, y) == (2 <= x <= 5 && 2 <= y <= 5 && Alive(Step(Step(c)), x, y))
  {
    hide *;
    NextUnfold(c);
    AliveIs(Next(c), x, y);
    AliveIs(Step(Step(c)), x, y);
    BitOfMasked(Step(Step(c)).bitmap, CentreMask, CellIndex(x, y));
    CentreMaskBits(x, y);
  }
}
