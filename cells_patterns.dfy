/** The named patterns of the `cells` type and the behaviour its tests
    expect of them: still lifes are fixed points of `step` and `next`,
    oscillators of period two return after two `step`s, a glider moves one
    cell diagonally in four `step`s, and population counts. */
module CellsPatterns {
  import opened Bitwise
  import opened Cells

  // ---------------------------------------------------------------------
  // The pattern texts and the named constructors built from them.
  // ---------------------------------------------------------------------

  const EmptySquareText := "$$$$$$$$"
  const BlockText := "$$$...**...$...**...$$$$"
  const BeehiveText := "$$$...**$..*..*$...**$$$"
  const LoafText := "$$...**$..*..*$...*.*$....*$$$"
  const BoatText := "$$$..**$..*.*$...*$$$"
  const TubText := "$$$...*$..*.*$...*$$$"
  const BlinkerText := "$$.***$$$$$$"
  const ToadText := "$$$...***$..***$$$$"
  const BeaconText := "$$..**$..**$....**$....**$$$"
  const GliderText := "$$...*$..*$..***$$$$"
  const MovedGliderText := "$$$..*$.*$.***$$$"

  /** `empty_square()`. */
  function EmptySquare(): Cells { Decode(EmptySquareText) }

  /** `block()`. */
  function Block(): Cells { Decode(BlockText) }

  /** `beehive()`. */
  function Beehive(): Cells { Decode(BeehiveText) }

  /** `loaf()`. */
  function Loaf(): Cells { Decode(LoafText) }

  /** `boat()`. */
  function Boat(): Cells { Decode(BoatText) }

  /** `tub()`. */
  function Tub(): Cells { Decode(TubText) }

  /** `blinker()`. */
  function Blinker(): Cells { Decode(BlinkerText) }

  /** `toad()`. */
  function Toad(): Cells { Decode(ToadText) }

  /** `beacon()`. */
  function Beacon(): Cells { Decode(BeaconText) }

  /** `glider()`. */
  function Glider(): Cells { Decode(GliderText) }

  /** The glider of `glider()` one cell further south-west (one column left, one row down). */
  function MovedGlider(): Cells { Decode(MovedGliderText) }

  /** `filled()`: the raw constructor with every bit raised. */
  function Filled(): Cells { Cells(0xffff_ffff_ffff_ffff) }

  // ---------------------------------------------------------------------
  // What the pattern texts decode to. Each text is read in pieces of at
  // most eight characters, joined by `ScanAppend`.
  // ---------------------------------------------------------------------

  /** A text read in two pieces. */
  lemma DecodeTwo(text: string, a: string, b: string)
    requires text == a + b
    ensures Decode(text) == Cells(ScanFrom(ScanFrom(Start, a), b).bitmap)
  {
    ScanAppend(Start, a, b);
  }

  /** A text read in three pieces. */
  lemma DecodeThree(text: string, a: string, b: string, c: string)
    requires text == a + b + c
    ensures Decode(text) == Cells(ScanFrom(ScanFrom(ScanFrom(Start, a), b), c).bitmap)
  {
    ScanAppend(Start, a + b, c);
    ScanAppend(Start, a, b);
  }

  /** A text read in four pieces. */
  lemma DecodeFour(text: string, a: string, b: string, c: string, d: string)
    requires text == a + b + c + d
    ensures Decode(text) ==
      Cells(ScanFrom(ScanFrom(ScanFrom(ScanFrom(Start, a), b), c), d).bitmap)
  {
    ScanAppend(Start, a + b + c, d);
    ScanAppend(Start, a + b, c);
    ScanAppend(Start, a, b);
  }

  lemma EmptySquareDecodes()
    ensures EmptySquare() == Cells(0x0)
  {
    assert ScanFrom(Start, "$$$$$$$$") == Cursor(0x0, 8, 0);
  }

  lemma BlockPieces()
    ensures ScanFrom(Start, "$$$...**") == Cursor(0x18000000, 3, 5)
    ensures ScanFrom(Cursor(0x18000000, 3, 5), "...$...*") == Cursor(0x818000000, 4, 4)
    ensures ScanFrom(Cursor(0x818000000, 4, 4), "*...$$$$") == Cursor(0x1818000000, 8, 0)
  {}

  lemma BlockDecodes()
    ensures Block() == Cells(0x1818000000)
  {
    hide ScanFrom;
    BlockPieces();
    DecodeThree(BlockText, "$$$...**", "...$...*", "*...$$$$");
  }

  lemma BeehivePieces()
    ensures ScanFrom(Start, "$$$...**") == Cursor(0x18000000, 3, 5)
    ensures ScanFrom(Cursor(0x18000000, 3, 5), "$..*..*$") == Cursor(0x2418000000, 5, 0)
    ensures ScanFrom(Cursor(0x2418000000, 5, 0), "...**$$$") == Cursor(0x182418000000, 8, 0)
  {}

  lemma BeehiveDecodes()
    ensures Beehive() == Cells(0x182418000000)
  {
    hide ScanFrom;
    BeehivePieces();
    DecodeThree(BeehiveText, "$$$...**", "$..*..*$", "...**$$$");
  }

  lemma LoafPieces()
    ensures ScanFrom(Start, "$$...**$") == Cursor(0x180000, 3, 0)
    ensures ScanFrom(Cursor(0x180000, 3, 0), "..*..*$.") == Cursor(0x24180000, 4, 1)
    ensures ScanFrom(Cursor(0x24180000, 4, 1), "..*.*$..") == Cursor(0x2824180000, 5, 2)
    ensures ScanFrom(Cursor(0x2824180000, 5, 2), "..*$$$") == Cursor(0x102824180000, 8, 0)
  {}

  lemma LoafDecodes()
    ensures Loaf() == Cells(0x102824180000)
  {
    hide ScanFrom;
    LoafPieces();
    DecodeFour(LoafText, "$$...**$", "..*..*$.", "..*.*$..", "..*$$$");
  }

  lemma BoatPieces()
    ensures ScanFrom(Start, "$$$..**$") == Cursor(0xc000000, 4, 0)
    ensures ScanFrom(Cursor(0xc000000, 4, 0), "..*.*$..") == Cursor(0x140c000000, 5, 2)
    ensures ScanFrom(Cursor(0x140c000000, 5, 2), ".*$$$") == Cursor(0x8140c000000, 8, 0)
  {}

  lemma BoatDecodes()
    ensures Boat() == Cells(0x8140c000000)
  {
    hide ScanFrom;
    BoatPieces();
    DecodeThree(BoatText, "$$$..**$", "..*.*$..", ".*$$$");
  }

  lemma TubPieces()
    ensures ScanFrom(Start, "$$$...*$") == Cursor(0x8000000, 4, 0)
    ensures ScanFrom(Cursor(0x8000000, 4, 0), "..*.*$..") == Cursor(0x1408000000, 5, 2)
    ensures ScanFrom(Cursor(0x1408000000, 5, 2), ".*$$$") == Cursor(0x81408000000, 8, 0)
  {}

  lemma TubDecodes()
    ensures Tub() == Cells(0x81408000000)
  {
    hide ScanFrom;
    TubPieces();
    DecodeThree(TubText, "$$$...*$", "..*.*$..", ".*$$$");
  }

  lemma BlinkerPieces()
    ensures ScanFrom(Start, "$$.***$$") == Cursor(0xe0000, 4, 0)
    ensures ScanFrom(Cursor(0xe0000, 4, 0), "$$$$") == Cursor(0xe0000, 8, 0)
  {}

  lemma BlinkerDecodes()
    ensures Blinker() == Cells(0xe0000)
  {
    hide ScanFrom;
    BlinkerPieces();
    DecodeTwo(BlinkerText, "$$.***$$", "$$$$");
  }

  lemma ToadPieces()
    ensures ScanFrom(Start, "$$$...**") == Cursor(0x18000000, 3, 5)
    ensures ScanFrom(Cursor(0x18000000, 3, 5), "*$..***$") == Cursor(0x1c38000000, 5, 0)
    ensures ScanFrom(Cursor(0x1c38000000, 5, 0), "$$$") == Cursor(0x1c38000000, 8, 0)
  {}

  lemma ToadDecodes()
    ensures Toad() == Cells(0x1c38000000)
  {
    hide ScanFrom;
    ToadPieces();
    DecodeThree(ToadText, "$$$...**", "*$..***$", "$$$");
  }

  lemma BeaconPieces()
    ensures ScanFrom(Start, "$$..**$.") == Cursor(0xc0000, 3, 1)
    ensures ScanFrom(Cursor(0xc0000, 3, 1), ".**$....") == Cursor(0xc0c0000, 4, 4)
    ensures ScanFrom(Cursor(0xc0c0000, 4, 4), "**$....*") == Cursor(0x10300c0c0000, 5, 5)
    ensures ScanFrom(Cursor(0x10300c0c0000, 5, 5), "*$$$") == Cursor(0x30300c0c0000, 8, 0)
  {}

  lemma BeaconDecodes()
    ensures Beacon() == Cells(0x30300c0c0000)
  {
    hide ScanFrom;
    BeaconPieces();
    DecodeFour(BeaconText, "$$..**$.", ".**$....", "**$....*", "*$$$");
  }

  lemma GliderPieces()
    ensures ScanFrom(Start, "$$...*$.") == Cursor(0x80000, 3, 1)
    ensures ScanFrom(Cursor(0x80000, 3, 1), ".*$..***") == Cursor(0x1c04080000, 4, 5)
    ensures ScanFrom(Cursor(0x1c04080000, 4, 5), "$$$$") == Cursor(0x1c04080000, 8, 0)
  {}

  lemma GliderDecodes()
    ensures Glider() == Cells(0x1c04080000)
  {
    hide ScanFrom;
    GliderPieces();
    DecodeThree(GliderText, "$$...*$.", ".*$..***", "$$$$");
  }

  lemma MovedGliderPieces()
    ensures ScanFrom(Start, "$$$..*$.") == Cursor(0x4000000, 4, 1)
    ensures ScanFrom(Cursor(0x4000000, 4, 1), "*$.***$$") == Cursor(0xe0204000000, 7, 0)
    ensures ScanFrom(Cursor(0xe0204000000, 7, 0), "$") == Cursor(0xe0204000000, 8, 0)
  {}

  lemma MovedGliderDecodes()
    ensures MovedGlider() == Cells(0xe0204000000)
  {
    hide ScanFrom;
    MovedGliderPieces();
    DecodeThree(MovedGliderText, "$$$..*$.", "*$.***$$", "$");
  }

  // ---------------------------------------------------------------------
  // The behaviour the tests expect of the patterns.
  // ---------------------------------------------------------------------

  /** A default-constructed block, `empty_square()` and `cells{0}` are the
      same block. */
  lemma DefaultIsEmptySquare()
    ensures Default() == EmptySquare() == Cells(0)
  {
    EmptySquareDecodes();
  }

  /** `EmptySquare` is a still life: `step` and `next` leave it unchanged. */
  lemma EmptySquareIsStill()
    ensures Step(EmptySquare()) == EmptySquare()
    ensures Next(EmptySquare()) == EmptySquare()
  {
    EmptySquareDecodes();
    assert Step(Cells(0x0)) == Cells(0x0);
  }

  /** `Block` is a still life: `step` and `next` leave it unchanged. */
  lemma BlockIsStill()
    ensures Step(Block()) == Block()
    ensures Next(Block()) == Block()
  {
    BlockDecodes();
    assert Step(Cells(0x1818000000)) == Cells(0x1818000000);
  }

  /** `Beehive` is a still life: `step` and `next` leave it unchanged. */
  lemma BeehiveIsStill()
    ensures Step(Beehive()) == Beehive()
    ensures Next(Beehive()) == Beehive()
  {
    BeehiveDecodes();
    assert Step(Cells(0x182418000000)) == Cells(0x182418000000);
  }

  /** `Loaf` is a still life: `step` and `next` leave it unchanged. */
  lemma LoafIsStill()
    ensures Step(Loaf()) == Loaf()
    ensures Next(Loaf()) == Loaf()
  {
    LoafDecodes();
    assert Step(Cells(0x102824180000)) == Cells(0x102824180000);
  }

  /** `Boat` is a still life: `step` and `next` leave it unchanged. */
  lemma BoatIsStill()
    ensures Step(Boat()) == Boat()
    ensures Next(Boat()) == Boat()
  {
    BoatDecodes();
    assert Step(Cells(0x8140c000000)) == Cells(0x8140c000000);
  }

  /** `Tub` is a still life: `step` and `next` leave it unchanged. */
  lemma TubIsStill()
    ensures Step(Tub()) == Tub()
    ensures Next(Tub()) == Tub()
  {
    TubDecodes();
    assert Step(Cells(0x81408000000)) == Cells(0x81408000000);
  }

  /** `Blinker` oscillates with period two under `step`. */
  lemma BlinkerOscillates()
    ensures Step(Blinker()) != Blinker()
    ensures Step(Step(Blinker())) == Blinker()
  {
    BlinkerDecodes();
    assert Step(Cells(0xe0000)) == Cells(0x4040400);
    assert Step(Cells(0x4040400)) == Cells(0xe0000);
  }

  /** `Toad` oscillates with period two under `step`. */
  lemma ToadOscillates()
    ensures Step(Toad()) != Toad()
    ensures Step(Step(Toad())) == Toad()
  {
    ToadDecodes();
    assert Step(Cells(0x1c38000000)) == Cells(0x82424100000);
    assert Step(Cells(0x82424100000)) == Cells(0x1c38000000);
  }

  /** `Beacon` oscillates with period two under `step`. */
  lemma BeaconOscillates()
    ensures Step(Beacon()) != Beacon()
    ensures Step(Step(Beacon())) == Beacon()
  {
    BeaconDecodes();
    assert Step(Cells(0x30300c0c0000)) == Cells(0x3020040c0000);
    assert Step(Cells(0x3020040c0000)) == Cells(0x30300c0c0000);
  }

  /** Four `step`s move the glider one cell south-west: one column left and one row down. */
  lemma GliderMoves()
    ensures Step(Step(Step(Step(Glider())))) == MovedGlider()
  {
    GliderDecodes();
    MovedGliderDecodes();
    assert Step(Cells(0x1c04080000)) == Cells(0x80c14000000);
    assert Step(Cells(0x80c14000000)) == Cells(0xc1404000000);
    assert Step(Cells(0xc1404000000)) == Cells(0xc0608000000);
    assert Step(Cells(0xc0608000000)) == Cells(0xe0204000000);
  }

  /** `population_count()` of the empty square is 0. */
  lemma EmptySquarePopulation()
    ensures PopulationCount(EmptySquare()) == 0
  {
    EmptySquareDecodes();
  }

  /** `population_count()` of `blinker` is 3. */
  lemma BlinkerPopulation()
    ensures PopulationCount(Blinker()) == 3
  {
    BlinkerDecodes();
    BitCountAddBit(0x0, 17);
    assert 0x0 | Single(17) == 0x20000;
    BitCountAddBit(0x20000, 18);
    assert 0x20000 | Single(18) == 0x60000;
    BitCountAddBit(0x60000, 19);
    assert 0x60000 | Single(19) == 0xe0000;
  }

  /** `population_count()` of `block` is 4. */
  lemma BlockPopulation()
    ensures PopulationCount(Block()) == 4
  {
    BlockDecodes();
    BitCountAddBit(0x0, 27);
    assert 0x0 | Single(27) == 0x8000000;
    BitCountAddBit(0x8000000, 28);
    assert 0x8000000 | Single(28) == 0x18000000;
    BitCountAddBit(0x18000000, 35);
    assert 0x18000000 | Single(35) == 0x818000000;
    BitCountAddBit(0x818000000, 36);
    assert 0x818000000 | Single(36) == 0x1818000000;
  }

  /** `population_count()` of `glider` is 5. */
  lemma GliderPopulation()
    ensures PopulationCount(Glider()) == 5
  {
    GliderDecodes();
    BitCountAddBit(0x0, 19);
    assert 0x0 | Single(19) == 0x80000;
    BitCountAddBit(0x80000, 26);
    assert 0x80000 | Single(26) == 0x4080000;
    BitCountAddBit(0x4080000, 34);
    assert 0x4080000 | Single(34) == 0x404080000;
    BitCountAddBit(0x404080000, 35);
    assert 0x404080000 | Single(35) == 0xc04080000;
    BitCountAddBit(0xc04080000, 36);
    assert 0xc04080000 | Single(36) == 0x1c04080000;
  }

  /** Every interior cell of `filled` sees 9 live cells, which the 3-bit
      count reads as 1, so one `step` empties the block. */
  lemma FilledDies()
    ensures Step(Filled()) == EmptySquare()
  {
    EmptySquareDecodes();
    assert Step(Cells(0xffff_ffff_ffff_ffff)) == Cells(0x0);
  }
}
