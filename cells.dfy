/** An 8x8 block of Life cells packed into one 64-bit word: the leaf of the
    quadtree. Cell (x, y) is bit `x + 8*y`, with (0, 0) at the top left, x
    growing to the right and y growing downwards. */
module Cells {
  import opened Bitwise

  /** `columns` and `rows` of a block. */
  const Columns: bv64 := 8
  const Rows: bv64 := 8

  /** Cells that `step` can compute: the interior 6x6 square. */
  const InteriorMask: bv64 := 0x007e7e7e7e7e7e00
  /** Cells that `next` keeps: the central 4x4 square. */
  const CentreMask: bv64 := 0x00003c3c3c3c0000

  /** The `cells` value type: its only state is the bitmap. The raw
      constructor `cells(bitmap)` is `Cells(bitmap)`. */
  datatype Cells = Cells(bitmap: bv64)

  /** The position of cell (x, y) in the bitmap, computed in `std::size_t`
      arithmetic. */
  function CellIndex(x: bv64, y: bv64): bv64
  {
    x + y * Columns
  }

  /** `operator()(x, y)`: whether cell (x, y) is alive. */
  function Alive(c: Cells, x: bv64, y: bv64): (r: bool)
    ensures r ==> CellIndex(x, y) < 64
  {
    Bit(c.bitmap, CellIndex(x, y))
  }

  /** The default constructor leaves the bitmap at 0: every cell is dead. */
  function Default(): (c: Cells)
    ensures forall x: bv64, y: bv64 :: !Alive(c, x, y)
  {
    Cells(0)
  }

  /** `operator==` compares bitmaps, which is exactly equality of blocks. */
  function Equal(a: Cells, b: Cells): (r: bool)
    ensures r <==> a == b
  {
    a.bitmap == b.bitmap
  }

  /** `operator!=` compares bitmaps, which is exactly inequality of blocks. */
  function NotEqual(a: Cells, b: Cells): (r: bool)
    ensures r <==> a != b
    ensures r == !Equal(a, b)
  {
    a.bitmap != b.bitmap
  }

  // ---------------------------------------------------------------------
  // The pattern constructor `cells(std::string_view format)`.
  // ---------------------------------------------------------------------

  /** The parser's state: the bitmap built so far and the `unsigned` row and
      column counters. The counters are 32 bits wide in the source; they are
      kept here in 64-bit words whose upper half `Unsigned` clears after
      every update, which is the same wrap-around. */
  datatype Cursor = Cursor(bitmap: bv64, row: bv64, column: bv64)

  const Start := Cursor(0, 0, 0)

  /** Truncation to the 32 bits of an `unsigned`. */
  function Unsigned(v: bv64): (r: bv64)
    ensures r <= 0xffff_ffff
    ensures v <= 0xffff_ffff ==> r == v
  {
    v & 0xffff_ffff
  }

  /** `++` on an `unsigned` counter. */
  function Succ(n: bv64): (r: bv64)
    ensures n < 0xffff_ffff ==> r == n + 1
    ensures n == 0xffff_ffff ==> r == 0
  {
    Unsigned(n + 1)
  }

  /** `column + row*columns`, computed in `unsigned` arithmetic and widened
      to the `std::size_t` that `set` takes. */
  function CellOf(row: bv64, column: bv64): bv64
  {
    Unsigned(column + row * Columns)
  }

  /** The cell under the cursor. */
  function CursorIndex(cur: Cursor): bv64
  {
    CellOf(cur.row, cur.column)
  }

  /** One iteration of the parsing loop on the state (`bitmap`, `row`,
      `column`): `*` raises the bit under the cursor and moves right, `.`
      moves right, `$` moves to the start of the next row, any other
      character is skipped. */
  function Feed(bitmap: bv64, row: bv64, column: bv64, ch: char): (r: Cursor)
    ensures ch == '*' && CellOf(row, column) < 64 ==> Bit(r.bitmap, CellOf(row, column))
    ensures ch != '*' ==> r.bitmap == bitmap
    ensures ch == '*' || ch == '.' ==> r.row == row && r.column == Succ(column)
    ensures ch == '$' ==> r.row == Succ(row) && r.column == 0
    ensures ch != '*' && ch != '.' && ch != '$' ==> r == Cursor(bitmap, row, column)
  {
    if ch == '*' then Cursor(SetBit(bitmap, CellOf(row, column)), row, Succ(column))
    else if ch == '.' then Cursor(bitmap, row, Succ(column))
    else if ch == '$' then Cursor(bitmap, Succ(row), 0)
    else Cursor(bitmap, row, column)
  }

  /** `Feed` applied to a parser state. */
  function Advance(cur: Cursor, ch: char): Cursor
  {
    Feed(cur.bitmap, cur.row, cur.column, ch)
  }

  /** The parsing loop run over `format` from state `cur`. */
  function ScanFrom(cur: Cursor, format: string): Cursor
    decreases |format|
  {
    if |format| == 0 then cur else ScanFrom(Advance(cur, format[0]), format[1..])
  }

  /** The block a pattern text denotes. */
  function Decode(format: string): (c: Cells)
    ensures (forall k :: 0 <= k < |format| ==> format[k] != '*') ==> c == Default()
  {
    if forall k :: 0 <= k < |format| ==> format[k] != '*' then
      NoStarsNoCells(Start, format);
      Cells(ScanFrom(Start, format).bitmap)
    else
      Cells(ScanFrom(Start, format).bitmap)
  }

  /** The pattern constructor: a loop over the characters of `format`. */
  method Parse(format: string) returns (c: Cells)
    ensures c == Decode(format)
  {
    hide SetBit, CellOf, Succ;
    var bitmap: bv64 := 0;
    var row: bv64, column: bv64 := 0, 0;
    var i := 0;
    while i < |format|
      invariant 0 <= i <= |format|
      invariant ScanFrom(Cursor(bitmap, row, column), format[i..]) == ScanFrom(Start, format)
    {
      var character := format[i];
      ghost var next := Feed(bitmap, row, column, character);
      if character == '*' {
        bitmap := SetBit(bitmap, CellOf(row, column));
        column := Succ(column);
      }
      if character == '.' {
        column := Succ(column);
      }
      if character == '$' {
        column, row := 0, Succ(row);
      }
      assert Cursor(bitmap, row, column) == next;
      assert format[i..][1..] == format[i + 1..];
      i := i + 1;
    }
    assert format[i..] == [];
    c := Cells(bitmap);
  }

  /** Parsing the concatenation of two texts continues from where the first
      one stopped. */
  lemma {:induction false} ScanAppend(cur: Cursor, a: string, b: string)
    ensures ScanFrom(cur, a + b) == ScanFrom(ScanFrom(cur, a), b)
    decreases |a|
  {
    if |a| == 0 {
      assert a + b == b;
    } else {
      assert (a + b)[1..] == a[1..] + b;
      ScanAppend(Advance(cur, a[0]), a[1..], b);
    }
  }

  /** The parser state after the first `n + 1` characters is one `Advance`
      after the state after the first `n`. */
  lemma ScanPrefix(cur: Cursor, format: string, n: nat)
    requires n < |format|
    ensures ScanFrom(cur, format[..n + 1]) == Advance(ScanFrom(cur, format[..n]), format[n])
  {
    assert format[..n + 1] == format[..n] + [format[n]];
    ScanAppend(cur, format[..n], [format[n]]);
    assert [format[n]][1..] == [];
  }

  /** The cursor when the parser reaches character `k` of `format`. */
  function CursorAt(format: string, k: nat): Cursor
    requires k <= |format|
  {
    ScanFrom(Start, format[..k])
  }

  /** What a pattern text denotes, bit by bit: bit `i` of the decoded
      bitmap is raised exactly when some `*` in the first `n` characters was
      read with the cursor on index `i`, and `i` lies within the word. */
  lemma {:induction false} ScanBits(format: string, n: nat, i: bv64)
    requires n <= |format|
    ensures Bit(CursorAt(format, n).bitmap, i) <==>
      i < 64 && exists k :: 0 <= k < n && format[k] == '*' && CursorIndex(CursorAt(format, k)) == i
  {
    if n == 0 {
      assert format[..0] == [];
    } else {
      ScanBits(format, n - 1, i);
      ScanPrefix(Start, format, n - 1);
      var before := CursorAt(format, n - 1);
      AdvanceBitmap(before, format[n - 1]);
      hide Advance, CursorIndex;
      if format[n - 1] == '*' {
        SetBitSpec(before.bitmap, CursorIndex(before), i);
      }
    }
  }

  /** What one character does to the bitmap: `*` raises the bit under the
      cursor, everything else leaves the bitmap alone. */
  lemma AdvanceBitmap(cur: Cursor, ch: char)
    ensures Advance(cur, ch).bitmap == if ch == '*' then SetBit(cur.bitmap, CursorIndex(cur)) else cur.bitmap
  {
    hide SetBit, CellOf, Succ;
  }

  /** The pattern constructor, cell by cell: cell (x, y) of `Decode(format)`
      is alive exactly when the text holds a `*` read with the cursor on that
      cell's index. */
  lemma DecodeCells(format: string, x: bv64, y: bv64)
    requires x < 8 && y < 8
    ensures Alive(Decode(format), x, y) <==>
      exists k :: 0 <= k < |format| && format[k] == '*' && CursorIndex(CursorAt(format, k)) == CellIndex(x, y)
  {
    assert format[..|format|] == format;
    ScanBits(format, |format|, CellIndex(x, y));
  }

  /** The number of row ends (`$`) in a text. */
  function RowEnds(s: string): nat
  {
    if |s| == 0 then 0 else RowEnds(s[..|s| - 1]) + (if s[|s| - 1] == '$' then 1 else 0)
  }

  /** The number of cells (`*` or `.`) after the last row end of a text. */
  function CellsSinceRowEnd(s: string): nat
  {
    if |s| == 0 then 0
    else if s[|s| - 1] == '$' then 0
    else CellsSinceRowEnd(s[..|s| - 1]) + (if s[|s| - 1] == '*' || s[|s| - 1] == '.' then 1 else 0)
  }

  /** A count as an `unsigned` counter holds it: `n` increments from zero,
      each wrapping at 2^32. */
  function Counter(n: nat): (r: bv64)
    ensures r <= 0xffff_ffff
  {
    if n == 0 then 0 else Succ(Counter(n - 1))
  }

  /** What one character does to the counters: `$` counts a row and
      restarts the column, `*` and `.` count a column. */
  lemma AdvanceCounters(cur: Cursor, ch: char)
    ensures Advance(cur, ch).row == if ch == '$' then Succ(cur.row) else cur.row
    ensures Advance(cur, ch).column ==
      if ch == '$' then 0 else if ch == '*' || ch == '.' then Succ(cur.column) else cur.column
  {
    hide SetBit, CellOf, Succ;
  }

  /** How the two counts grow by one character. */
  lemma CountersStep(before: string, ch: char, after: string)
    requires after == before + [ch]
    ensures Counter(RowEnds(after)) == if ch == '$' then Succ(Counter(RowEnds(before))) else Counter(RowEnds(before))
    ensures Counter(CellsSinceRowEnd(after)) ==
      if ch == '$' then 0
      else if ch == '*' || ch == '.' then Succ(Counter(CellsSinceRowEnd(before)))
      else Counter(CellsSinceRowEnd(before))
  {
    assert after[..|after| - 1] == before;
    hide Counter, Succ;
    if ch == '$' {
      CounterSucc(RowEnds(before));
    } else if ch == '*' || ch == '.' {
      CounterSucc(CellsSinceRowEnd(before));
    }
  }

  lemma CounterSucc(n: nat)
    ensures Counter(n + 1) == Succ(Counter(n))
  {
  }

  /** The parser's counters in closed form: after the first `k` characters
      the row is the number of `$` read and the column the number of `*`
      and `.` read since the last `$`, each held in a wrapping `unsigned`. */
  lemma {:induction false} CursorCounters(format: string, k: nat)
    requires k <= |format|
    ensures CursorAt(format, k).row == Counter(RowEnds(format[..k]))
    ensures CursorAt(format, k).column == Counter(CellsSinceRowEnd(format[..k]))
  {
    if k == 0 {
      assert format[..0] == [];
    } else {
      CursorCounters(format, k - 1);
      CountersAdvance(format, k - 1);
    }
  }

  /** The inductive step of `CursorCounters`: one more character read. */
  lemma CountersAdvance(format: string, k: nat)
    requires k < |format|
    requires CursorAt(format, k).row == Counter(RowEnds(format[..k]))
    requires CursorAt(format, k).column == Counter(CellsSinceRowEnd(format[..k]))
    ensures CursorAt(format, k + 1).row == Counter(RowEnds(format[..k + 1]))
    ensures CursorAt(format, k + 1).column == Counter(CellsSinceRowEnd(format[..k + 1]))
  {
    hide Advance, Succ, ScanFrom, Counter, RowEnds, CellsSinceRowEnd;
    var cur, ch := CursorAt(format, k), format[k];
    assert CursorAt(format, k + 1) == Advance(cur, ch) by {
      ScanPrefix(Start, format, k);
    }
    AdvanceCounters(cur, ch);
    assert format[..k + 1] == format[..k] + [ch];
    CountersStep(format[..k], ch, format[..k + 1]);
  }

  /** The pattern constructor in closed form: cell (x, y) is alive exactly
      when some `*` of the text follows as many `$` as put the cursor on
      its row and as many cells since the last `$` as put it on its
      column. */
  lemma DecodeCounted(format: string, x: bv64, y: bv64)
    requires x < 8 && y < 8
    ensures Alive(Decode(format), x, y) <==>
      exists k :: 0 <= k < |format| && format[k] == '*' &&
        CellOf(Counter(RowEnds(format[..k])), Counter(CellsSinceRowEnd(format[..k]))) == CellIndex(x, y)
  {
    DecodeCells(format, x, y);
    forall k | 0 <= k < |format|
      ensures CursorIndex(CursorAt(format, k)) ==
        CellOf(Counter(RowEnds(format[..k])), Counter(CellsSinceRowEnd(format[..k])))
    {
      CursorCounters(format, k);
    }
  }

  /** A text without `*` denotes the empty block. */
  lemma {:induction false} NoStarsNoCells(cur: Cursor, format: string)
    requires forall k :: 0 <= k < |format| ==> format[k] != '*'
    ensures ScanFrom(cur, format).bitmap == cur.bitmap
    decreases |format|
  {
    if |format| > 0 {
      NoStarsNoCells(Advance(cur, format[0]), format[1..]);
    }
  }

  // ---------------------------------------------------------------------
  // Neighbour counting and the Life step.
  // ---------------------------------------------------------------------

  /** The three bit planes `neighbours` returns: bit i of `sum1`, `sum2` and
      `sum4` are the binary digits of the count at cell i. */
  datatype Sums = Sums(sum1: bv64, sum2: bv64, sum4: bv64)

  /** `full_add(left, bitmap, right)`: every cell's row of three, as a sum
      and a carry bit plane. */
  function RowSums(bitmap: bv64): SumCarry
  {
    FullAdd(bitmap << 1, bitmap, bitmap >> 1)
  }

  /** `full_add(up, mid, down)` for one plane of row sums: the plane added
      to its copies shifted one row up and one row down. */
  function ColumnSums(plane: bv64): SumCarry
  {
    FullAdd(plane << 8, plane, plane >> 8)
  }

  /** `neighbours()`: the number of live cells in every 3x3 square, the
      centre included, modulo 8, as three bit planes. */
  function Neighbours(bitmap: bv64): (r: Sums)
    ensures bitmap == 0 ==> r == Sums(0, 0, 0)
  {
    var mid := RowSums(bitmap);
    var ones := ColumnSums(mid.sum);
    var twos := ColumnSums(mid.carry);
    var h := HalfAdd(ones.carry, twos.sum);
    Sums(ones.sum, h.sum, twos.carry ^ h.carry)
  }

  /** `step()`: one generation, computed word-wide. A cell lives when it is
      alive with 4 live cells in its 3x3 square (binary 100) or when the
      square holds 3 (binary 011); only the interior 6x6 is kept. */
  function Step(c: Cells): (r: Cells)
    ensures r.bitmap & !InteriorMask == 0
    ensures c.bitmap == 0 ==> r.bitmap == 0
  {
    var n := Neighbours(c.bitmap);
    var case1 := c.bitmap & (!n.sum1 & !n.sum2 & n.sum4);
    var case2 := n.sum1 & n.sum2 & !n.sum4;
    Cells((case1 | case2) & InteriorMask)
  }

  /** `next()`: two generations, of which only the central 4x4 is kept. */
  function Next(c: Cells): (r: Cells)
    ensures r.bitmap & !CentreMask == 0
  {
    Cells(Step(Step(c)).bitmap & CentreMask)
  }

  /** The number of raised bits of a word, counted from the lowest bit up
      (what `std::bitset<64>::count` returns). */
  function BitCount(w: bv64): (n: nat)
    ensures n == 0 <==> w == 0
    decreases w
  {
    if w == 0 then 0
    else
      assert !Bit(w, 0) ==> w >> 1 != 0;
      Digit(Bit(w, 0)) + BitCount(w >> 1)
  }

  /** `population_count()`: the number of live cells. */
  function PopulationCount(c: Cells): (n: nat)
    ensures n == 0 <==> c == Default()
  {
    BitCount(c.bitmap)
  }

  /** Raised bits of two words without common bits add up. */
  lemma {:induction false} BitCountUnion(a: bv64, b: bv64)
    requires a & b == 0
    ensures BitCount(a | b) == BitCount(a) + BitCount(b)
    decreases a | b
  {
    hide *;
    if a != 0 && b != 0 {
      DisjointShift(a, b);
      BitCountUnion(a >> 1, b >> 1);
      UnionStep(a, b);
    } else {
      UnionWithZero(a, b);
    }
  }

  /** The base case of `BitCountUnion`: one of the words is zero. */
  lemma UnionWithZero(a: bv64, b: bv64)
    requires a == 0 || b == 0
    ensures BitCount(a | b) == BitCount(a) + BitCount(b)
  {
    if a == 0 {
      assert a | b == b;
    } else {
      assert a | b == a;
    }
  }

  /** The inductive step of `BitCountUnion`: the count of the union splits
      into the lowest bits and the count of the shifted words. */
  lemma UnionStep(a: bv64, b: bv64)
    requires a & b == 0
    requires BitCount((a >> 1) | (b >> 1)) == BitCount(a >> 1) + BitCount(b >> 1)
    ensures BitCount(a | b) == BitCount(a) + BitCount(b)
  {
    hide *;
    ShiftUnion(a, b);
    BitCountStep(a | b);
    BitCountStep(a);
    BitCountStep(b);
    LowBitUnion(a, b);
  }

  /** The lowest bit of a union of two disjoint words comes from one of them. */
  lemma LowBitUnion(a: bv64, b: bv64)
    requires a & b == 0
    ensures Digit(Bit(a | b, 0)) == Digit(Bit(a, 0)) + Digit(Bit(b, 0))
  {
    BitOr(a, b, 0);
    BitAnd(a, b, 0);
    BitZero(a & b, 0);
  }

  /** No bit of zero is raised. */
  lemma BitZero(w: bv64, i: bv64)
    requires w == 0
    ensures !Bit(w, i)
  {}

  /** Unfolding `BitCount` once. */
  lemma BitCountStep(w: bv64)
    ensures BitCount(w) == Digit(Bit(w, 0)) + BitCount(w >> 1)
  {
    if w == 0 {
      assert w >> 1 == 0;
    }
  }

  /** Shifting commutes with union. */
  lemma ShiftUnion(a: bv64, b: bv64)
    ensures (a | b) >> 1 == (a >> 1) | (b >> 1)
  {}

  /** Shifting two disjoint, non-zero words right keeps them disjoint,
      commutes with their union, and makes the union smaller. */
  lemma DisjointShift(a: bv64, b: bv64)
    requires a & b == 0 && a != 0
    ensures (a | b) >> 1 == (a >> 1) | (b >> 1)
    ensures (a >> 1) & (b >> 1) == 0
    ensures a | b != 0 && (a >> 1) | (b >> 1) < a | b
  {}

  /** A word with a single raised bit counts one. */
  lemma {:induction false} BitCountSingle(k: bv64)
    requires k < 64
    ensures BitCount(Single(k)) == 1
    decreases k
  {
    if k == 0 {
      assert Single(0) >> 1 == 0;
    } else {
      assert Single(k) >> 1 == Single(k - 1);
      assert !Bit(Single(k), 0);
      BitCountSingle(k - 1);
    }
  }

  /** Raising a bit that was not raised adds one to the count. */
  lemma BitCountAddBit(w: bv64, k: bv64)
    requires k < 64 && w & Single(k) == 0
    ensures BitCount(w | Single(k)) == BitCount(w) + 1
  {
    BitCountUnion(w, Single(k));
    BitCountSingle(k);
  }

  /** The word whose only raised bit is bit `k`. */
  function Single(k: bv64): bv64
    requires k < 64
  {
    (1 as bv64) << k
  }
}
