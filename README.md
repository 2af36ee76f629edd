# Hashlife core in Dafny

This project models the core of a C++ Hashlife simulator for Conway's Game of
Life, and proves what that core promises.

## What is modelled

- **The 8x8 leaf block `cells`.** The block is one 64-bit bitmap, where cell
  (x, y) is bit `x + 8*y`. It is modelled in `cells.dfy` (module `Cells`),
  with the bit helpers of `bitwise.hpp` in `bitwise.dfy` (module `Bitwise`).
  - The model covers the pattern-text constructor, equality and cell access.
  - It covers the word-wide neighbour count, built from half and full adders,
    and `step` and `next`.
  - It covers the population count.
- **The Life rule.** `cells_life.dfy` (module `CellsLife`) proves that the
  word-wide `step` is the Life rule, cell by cell. It also proves that
  `neighbours` counts each 3x3 square modulo 8, and that `next` keeps the
  central 4x4 of two steps.
- **Patterns.** `cells_patterns.dfy` (module `CellsPatterns`) holds the named
  patterns. It proves their decoded bitmaps and their behaviour: still lifes,
  period-2 oscillators, the glider's move, and population counts.
- **Pointers and macrocells.** `macrocell.dfy` (module `Macrocells`) models
  `pointer`: a 32-bit offset with a null sentinel. It also models `macrocell`:
  four children plus two cached futures. The hash of a macrocell combines its
  children only; the combining function is a parameter of the model.
- **`static_vector`.** `static_vector.dfy` (module `StaticVectors`) models this
  fixed-size owned array as a class over a Dafny `array`.
- **`dense_set`.** `dense_set.dfy` (module `DenseSets`) models the
  open-addressing hash-consing set.
  - It is a class holding two static vectors, one of keys and one of sentinels,
    plus the `_size` counter. The hasher is a function parameter.
  - The table invariant is stated on plain sequences, and the lookup and probe
    loops are proved against recursive reference definitions. The invariant has
    three parts:
    - every filled slot carries its key's tag;
    - every slot from a key's home slot to the key's own slot is filled;
    - no key is stored twice.
- **`memory_arena` and `arena_allocator`.** `arena.dfy` (module `Arenas`)
  models these bump allocators. Pointers into the arena are offsets, and
  `nullptr` is `None`.

The optional value shared by the arena's null pointer and the set's refused
construction is `Option` in `options.dfy` (module `Options`).

Where the source passes a word by reference and updates it (`set`), the model
returns the updated word instead. The `cells` pattern constructor is a
loop-carrying method (`Cells.Parse`), proved against the fold `Cells.Decode`.

## Model

| member | source | states |
|---|---|---|
| Bitwise.Bit | include/bitwise.hpp:36-43 | a raised bit lies within the 64-bit word; bits beyond its width read as false |
| Bitwise.SetBit | include/bitwise.hpp:45-53 | `set(v, i)` raises bit i when i < 64, and with an index of 64 or more leaves the word as it was |
| Bitwise.SetBitSpec | include/bitwise.hpp:45-53 | after `set(v, i)` bit j is raised iff j == i (with i < 64) or it was raised before; an index of 64 or more changes nothing |
| Bitwise.BitSingle | include/bitwise.hpp:52 | `1 << i` has exactly bit i raised |
| Bitwise.HalfAdd | include/bitwise.hpp:55-63 | the sum and carry words of `half_add` never share a bit, and together cover exactly the bits of either input |
| Bitwise.HalfAddSumBit | include/bitwise.hpp:59-63 | the half adder's sum bit is the exclusive or of the input bits |
| Bitwise.HalfAddCarryBit | include/bitwise.hpp:59-63 | the half adder's carry bit is the conjunction of the input bits |
| Bitwise.HalfAddDigit | include/bitwise.hpp:55-63 | in every position, sum + 2*carry of `half_add` equals the sum of the two input bits |
| Bitwise.FullAdd | include/bitwise.hpp:65-76 | the sum and carry words of `full_add` together cover exactly the bits raised in any of the three inputs |
| Bitwise.FullAddSumBit | include/bitwise.hpp:70-76 | the full adder's sum bit is the parity of the three input bits |
| Bitwise.FullAddCarryBit | include/bitwise.hpp:70-76 | the full adder's carry bit is the majority of the three input bits |
| Bitwise.FullAddSumChained | include/bitwise.hpp:73 | the full adder's sum word is that of two chained half adders |
| Bitwise.FullAddDigit | include/bitwise.hpp:65-76 | in every position, sum + 2*carry of `full_add` equals the sum of the three input bits |
| Bitwise.FullAddSymmetric | include/bitwise.hpp:72-75 | `full_add` gives the same pair under every reordering of its inputs |
| Bitwise.AdderTables | tests/test-bitwise.cpp:24-46 | the `bit` examples, the whole half-adder table, and the full-adder rows from which `FullAddSymmetric` gives the rest |
| Cells.Default | include/cells.hpp:82 | a default block has every cell dead |
| Cells.Alive | src/cells.cpp:73-75 | a cell reads as alive only when its index x + 8*y lies within the 64-bit word |
| Cells.Equal | src/cells.cpp:49-51 | `==` on bitmaps is exactly equality of blocks |
| Cells.NotEqual | src/cells.cpp:56-58 | `!=` on bitmaps is exactly inequality of blocks, the negation of `==` |
| Cells.Unsigned | src/cells.cpp:38 | truncation to an `unsigned` keeps values below 2^32 and never exceeds 2^32 - 1 |
| Cells.Succ | src/cells.cpp:40-42 | `++` on an `unsigned` counter adds one, wrapping from 2^32 - 1 to 0 |
| Cells.Feed | src/cells.cpp:39-43 | `*` raises the bit under the cursor and moves right, `.` moves right, `$` moves to column 0 of the next row, any other character changes nothing; only `*` touches the bitmap |
| Cells.Decode | src/cells.cpp:37-44 | a text without `*` gives the empty block |
| Cells.Parse | src/cells.cpp:37-44 | the constructor's loop over the text yields the block `Decode` assigns to the text |
| Cells.ScanAppend | src/cells.cpp:39-43 | parsing a concatenation continues from the state the first part leaves |
| Cells.ScanPrefix | src/cells.cpp:39-43 | the state after n + 1 characters is one step after the state after n |
| Cells.AdvanceBitmap | src/cells.cpp:40-42 | `*` raises the bit under the cursor; every other character leaves the bitmap alone |
| Cells.ScanBits | src/cells.cpp:37-44 | bit i of the parsed bitmap is raised iff some `*` was read with the cursor on index i < 64 |
| Cells.DecodeCells | src/cells.cpp:37-44 | cell (x, y) of a parsed block is alive iff a `*` was read with the cursor on that cell's index |
| Cells.Counter | src/cells.cpp:38-43 | a count held in an `unsigned` counter (incremented from 0, wrapping at 2^32) stays below 2^32 |
| Cells.CursorCounters | src/cells.cpp:38-43 | after k characters the row counter holds the number of `$` read and the column counter the number of `*` and `.` read since the last `$` |
| Cells.DecodeCounted | src/cells.cpp:37-44 | cell (x, y) is alive iff some `*` was read when the counts of `$` before it and of cells since the last `$` put the cursor on that cell |
| Cells.NoStarsNoCells | src/cells.cpp:37-44 | a text without `*` leaves the bitmap as it was |
| Cells.BitCount | src/cells.cpp:110-112 | the number of raised bits is 0 iff the word is 0 |
| Cells.PopulationCount | src/cells.cpp:110-112 | the population count is 0 iff the block is the empty (default) block |
| Cells.Neighbours | src/cells.cpp:114-138 | a block with no live cell has all three count planes 0 |
| Cells.Step | src/cells.cpp:95-101 | `step` raises no bit outside the interior mask 0x007e7e7e7e7e7e00, and an empty block stays empty |
| Cells.Next | src/cells.cpp:83-85 | `next` raises no bit outside the central mask 0x00003c3c3c3c0000 |
| Cells.BitCountUnion | src/cells.cpp:110-112 | population counts of bitmaps without common bits add up |
| Cells.BitCountSingle | src/cells.cpp:110-112 | a bitmap with one raised bit has population 1 |
| Cells.BitCountAddBit | src/cells.cpp:110-112 | raising a bit that was not raised adds one to the population |
| CellsLife.Count | src/cells.cpp:114-121 | a 3x3 square holds at most 9 live cells |
| CellsLife.NeighboursBits | src/cells.cpp:122-138 | at an interior index, the bits of `sum1`, `sum2`, `sum4` are the adder tree evaluated on the 3x3 square around it |
| CellsLife.TallyCounts | src/cells.cpp:114-138 | the adder tree on a square gives the square's count modulo 8 in binary |
| CellsLife.NeighboursCount | src/cells.cpp:114-138 | at every interior cell, sum1 + 2*sum2 + 4*sum4 is the number of live cells in its 3x3 square (itself included) modulo 8 |
| CellsLife.SquareAround | src/cells.cpp:122-130 | the 3x3 square of an interior cell is the square of bits around its index, one row being 8 bits |
| CellsLife.RuleFromTally | src/cells.cpp:114-121 | on the count modulo 8, the test of `step` decides as the Life rule on the true count, so dropping 8 and 9 is harmless |
| CellsLife.StepBit | src/cells.cpp:95-101 | each bit of `step` is the masked decision (alive with count 4, or count 3) on the square around it |
| CellsLife.StepBorder | src/cells.cpp:99-100 | `step` leaves every cell outside the interior 6x6 (mask 0x007e7e7e7e7e7e00) dead |
| CellsLife.StepRule | src/cells.cpp:87-101 | a cell is alive after `step` iff it is interior and either it was alive with 4 live cells in its 3x3 square or the square held exactly 3 |
| CellsLife.StepBirthSurvival | src/cells.cpp:87-101 | for interior cells `step` is B3/S23: birth with 3 live neighbours, survival with 2 or 3 |
| CellsLife.LiveNeighbours | src/cells.cpp:89-91 | a cell has at most 8 live neighbours |
| CellsLife.NextCell | src/cells.cpp:77-85 | inside the central 4x4 (mask 0x00003c3c3c3c0000) `next` is two `step`s, and every other cell is dead |
| CellsLife.InteriorMaskBits | src/cells.cpp:99 | the interior mask holds exactly the cells with x, y in 1..6 |
| CellsLife.CentreMaskBits | src/cells.cpp:84 | the centre mask holds exactly the cells with x, y in 2..5 |
| CellsPatterns.EmptySquareDecodes | include/cells.hpp:67 | `empty_square()` is bitmap 0 |
| CellsPatterns.BlockDecodes | include/cells.hpp:68 | `block()` is bitmap 0x1818000000 |
| CellsPatterns.BeehiveDecodes | include/cells.hpp:69 | `beehive()` is bitmap 0x182418000000 |
| CellsPatterns.LoafDecodes | include/cells.hpp:70 | `loaf()` is bitmap 0x102824180000 |
| CellsPatterns.BoatDecodes | include/cells.hpp:71 | `boat()` is bitmap 0x8140c000000 |
| CellsPatterns.TubDecodes | include/cells.hpp:72 | `tub()` is bitmap 0x81408000000 |
| CellsPatterns.BlinkerDecodes | include/cells.hpp:73 | `blinker()` is bitmap 0xe0000 |
| CellsPatterns.ToadDecodes | include/cells.hpp:74 | `toad()` is bitmap 0x1c38000000 |
| CellsPatterns.BeaconDecodes | include/cells.hpp:75 | `beacon()` is bitmap 0x30300c0c0000 |
| CellsPatterns.GliderDecodes | include/cells.hpp:76 | `glider()` is bitmap 0x1c04080000 |
| CellsPatterns.MovedGliderDecodes | tests/test-cells.cpp:75 | the moved glider text is bitmap 0xe0204000000 |
| CellsPatterns.DefaultIsEmptySquare | tests/test-cells.cpp:28-35 | a default block, `empty_square()` and `cells{0}` are equal |
| CellsPatterns.EmptySquareIsStill | tests/test-cells.cpp:46-47 | `step` and `next` leave the empty square unchanged |
| CellsPatterns.BlockIsStill | tests/test-cells.cpp:48-49 | `step` and `next` leave the block unchanged |
| CellsPatterns.BeehiveIsStill | tests/test-cells.cpp:50-51 | `step` and `next` leave the beehive unchanged |
| CellsPatterns.LoafIsStill | tests/test-cells.cpp:52-53 | `step` and `next` leave the loaf unchanged |
| CellsPatterns.BoatIsStill | tests/test-cells.cpp:54-55 | `step` and `next` leave the boat unchanged |
| CellsPatterns.TubIsStill | tests/test-cells.cpp:56-57 | `step` and `next` leave the tub unchanged |
| CellsPatterns.BlinkerOscillates | tests/test-cells.cpp:65-66 | the blinker changes after one `step` and returns after two |
| CellsPatterns.ToadOscillates | tests/test-cells.cpp:67-68 | the toad changes after one `step` and returns after two |
| CellsPatterns.BeaconOscillates | tests/test-cells.cpp:69-70 | the beacon changes after one `step` and returns after two |
| CellsPatterns.GliderMoves | tests/test-cells.cpp:73-77 | four `step`s turn the glider into the moved glider |
| CellsPatterns.EmptySquarePopulation | tests/test-cells.cpp:81 | the empty square has population 0 |
| CellsPatterns.BlinkerPopulation | tests/test-cells.cpp:82 | the blinker has population 3 |
| CellsPatterns.BlockPopulation | tests/test-cells.cpp:83 | the block has population 4 |
| CellsPatterns.GliderPopulation | tests/test-cells.cpp:84 | the glider has population 5 |
| CellsPatterns.FilledDies | src/cells.cpp:95-101 | one `step` empties the filled block, whose 3x3 squares all hold 9 |
| Macrocells.Null | include/macrocell.hpp:42-44 | the null pointer is false |
| Macrocells.FromIndex | include/macrocell.hpp:45 | a pointer built from an index below 2^32 keeps it; the pointer is set unless the index's low 32 bits are 2^32 - 1 |
| Macrocells.Index | include/macrocell.hpp:52 | `index()` is below 2^32 |
| Macrocells.IsSet | include/macrocell.hpp:47 | a pointer converts to true iff its offset is not 2^32 - 1 |
| Macrocells.Hash | include/macrocell.hpp:50 | a pointer's hash is its offset |
| Macrocells.Equal | include/macrocell.hpp:48 | pointers are equal iff they are the same pointer |
| Macrocells.NotEqual | include/macrocell.hpp:49 | `!=` is exactly inequality |
| Macrocells.UnsetIsNull | include/macrocell.hpp:47 | a pointer is false iff it is the null pointer |
| Macrocells.IndexRoundTrip | include/macrocell.hpp:45-52 | an index below 2^32 - 1 comes back from `index()` and makes a set pointer |
| Macrocells.FromIndexOfIndex | include/macrocell.hpp:45-52 | rebuilding a pointer from its index gives the same pointer |
| Macrocells.FromIndexTruncates | include/macrocell.hpp:45 | indices equal modulo 2^32 give the same pointer |
| Macrocells.FromIndexEdges | tests/test-macrocell.cpp:30-38 | index 0 gives a set pointer; index 2^32 - 1 gives the null pointer |
| Macrocells.HashInjective | include/macrocell.hpp:48-50 | two pointers hash equally iff they are equal |
| Macrocells.MacrocellHash | include/macrocell.hpp:69 | the hash of a macrocell is the combining function applied to its four children's offsets, in order nw, ne, sw, se |
| Macrocells.AccessorsDetermine | include/macrocell.hpp:64-76 | the six accessors determine a macrocell; it is the one the constructor builds from its children iff both futures are null |
| Macrocells.NewMacrocell | include/macrocell.hpp:64-76 | a new macrocell has null futures, so `step()` and `next()` return the null pointer, and `nw()`, `ne()`, `sw()`, `se()` read back the four children it was built from, in that order |
| Macrocells.MacrocellEqual | include/macrocell.hpp:67 | macrocells are equal iff both futures and all children agree |
| Macrocells.MacrocellNotEqual | include/macrocell.hpp:68 | `!=` is exactly inequality |
| Macrocells.EqualMacrocellsHashEqually | include/macrocell.hpp:67-69 | equal macrocells hash equally, for any combining function |
| Macrocells.HashIgnoresFuture | include/macrocell.hpp:69 | the hash depends on the children only, not on the futures |
| Macrocells.FutureDecidesEquality | include/macrocell.hpp:67 | same children with different futures compare unequal |
| StaticVectors.StaticVector.Empty | include/static_vector.hpp:48 | the default vector has size 0 |
| StaticVectors.StaticVector.constructor | include/static_vector.hpp:49 | `static_vector(count)` has size count, on a fresh array |
| StaticVectors.StaticVector.Filled | include/static_vector.hpp:52-55 | `static_vector(count, v)` has count elements, all equal to v |
| StaticVectors.StaticVector.Copy | include/static_vector.hpp:57-59 | the copy has the source's size and elements, on a fresh array |
| StaticVectors.StaticVector.Assign | include/static_vector.hpp:92-105 | after assignment the target has the source's size and elements; its array is kept when the sizes matched and is a fresh one otherwise |
| StaticVectors.StaticVector.Fill | include/static_vector.hpp:68 | every element becomes the value |
| StaticVectors.StaticVector.At | include/static_vector.hpp:119-123 | reading below the size gives that element |
| StaticVectors.StaticVector.Set | include/static_vector.hpp:107-114 | writing element i changes that element only |
| StaticVectors.StaticVector.Size | include/static_vector.hpp:65 | the size is the number of elements |
| StaticVectors.StaticVector.MaxSize | include/static_vector.hpp:66 | `max_size()` equals `size()` |
| StaticVectors.StaticVector.IsEmpty | include/static_vector.hpp:64 | `empty()` iff there are no elements |
| StaticVectors.StaticVector.Swap | include/static_vector.hpp:69 | the two vectors exchange arrays, and so sizes and elements |
| DenseSets.ReducedHash | include/dense_set.hpp:242 | the tag fits the 7-bit field and has bit 4 cleared by the 0xef mask |
| DenseSets.Colonize | include/dense_set.hpp:438-442 | a colonized sentinel is filled and matches its tag |
| DenseSets.Matches | include/dense_set.hpp:448-451 | a matching sentinel is filled |
| DenseSets.ColonizeMatches | include/dense_set.hpp:438-451 | a colonized sentinel matches exactly its own tag; an empty sentinel matches nothing |
| DenseSets.Wrap | include/dense_set.hpp:80-83 | the inner iterator's `++` stays in the table and moves to the next slot, wrapping from the last to 0 |
| DenseSets.WrapSlot | include/dense_set.hpp:80-83 | stepping from the slot d places after home reaches the slot d + 1 places after |
| DenseSets.SlotInjective | include/dense_set.hpp:377-384 | distances below the capacity name distinct slots, so the walk revisits home only after capacity steps |
| DenseSets.Home | include/dense_set.hpp:247 | the home slot `hash % capacity()` lies in the table |
| DenseSets.ProbeLimit | include/dense_set.hpp:403-417 | the probe looks at min(10, capacity) slots |
| DenseSets.FindFrom | include/dense_set.hpp:372-387 | a lookup returns end() or a filled slot holding the key behind its tag |
| DenseSets.ProbeFrom | include/dense_set.hpp:402-417 | a probe returns an empty slot within the limit with every slot before it filled, and it returns end() iff every slot within the limit is filled |
| DenseSets.Lookup | include/dense_set.hpp:353-358 | `find(key)` returns end() or a filled slot holding the key under the key's reduced hash |
| DenseSets.FreeSlot | include/dense_set.hpp:247-248 | the slot an insertion fills is empty and within min(10, capacity) steps of home; the probe returns end() iff all those slots are filled |
| DenseSets.FindFromReaches | include/dense_set.hpp:372-387 | under the table invariant, lookup from home reaches the slot that stores the key |
| DenseSets.FindCorrect | include/dense_set.hpp:348-387 | under the table invariant, `find` returns a slot holding the key iff the key is stored, and end() otherwise |
| DenseSets.ProbeFails | include/dense_set.hpp:402-417 | insertion finds no slot iff the first min(10, capacity) slots from home are all filled |
| DenseSets.InsertKeepsInvariant | include/dense_set.hpp:244-255 | filling the first free slot with a key not yet stored keeps the invariant and adds exactly that key |
| DenseSets.InsertReachable | include/dense_set.hpp:247-255 | filling the first free slot keeps every stored key reachable from its home slot |
| DenseSets.ClearEmpties | include/dense_set.hpp:424-431 | with every sentinel reset the invariant holds and nothing is stored |
| DenseSets.DistinctKeys | include/dense_set.hpp:244-245 | two different filled slots hold different keys |
| DenseSets.ContentsCount | include/dense_set.hpp:244-255 | with unique keys, the stored keys are as many as the filled slots |
| DenseSets.FilledSlotsCount | include/dense_set.hpp:281-292 | at most every slot is filled, and all are iff each is |
| DenseSets.FullTable | include/dense_set.hpp:244-255 | a table holding as many keys as slots has every slot filled, and conversely |
| DenseSets.FullTableRejects | tests/test-dense_set.cpp:46-62 | a table holding as many keys as slots rejects any new key |
| DenseSets.SmallTableAccepts | tests/test-dense_set.cpp:46-62 | a table of at most 10 slots with a free slot accepts any new key |
| DenseSets.NewDenseSet | include/dense_set.hpp:307-311 | count 0 is refused; otherwise the set has capacity count, size 0, nothing stored, and the invariant holds |
| DenseSets.DenseSet.constructor | include/dense_set.hpp:307-311 | a positive count gives that capacity, every sentinel empty, size 0 |
| DenseSets.DenseSet.Capacity | include/dense_set.hpp:227 | the capacity is the number of slots, which is positive |
| DenseSets.DenseSet.End | include/dense_set.hpp:216 | `end()` is the index one past the last slot, equal to the number of keys and of sentinels |
| DenseSets.DenseSet.Size | include/dense_set.hpp:226 | `size()` is never below the number of stored keys |
| DenseSets.DenseSet.IsEmpty | include/dense_set.hpp:225 | when `empty()` holds, nothing is stored |
| DenseSets.DenseSet.At | include/dense_set.hpp:321-326 | indexing a filled slot gives the key held in that very slot, which is a stored key |
| DenseSets.DenseSet.FindWith | include/dense_set.hpp:372-387 | the do-while walk computes `FindFrom` from `hash % capacity()` |
| DenseSets.DenseSet.Find | include/dense_set.hpp:353-358 | `find(key)` returns a slot holding the key iff it is stored, else end() |
| DenseSets.DenseSet.Probe | include/dense_set.hpp:406-417 | the do-while walk computes `ProbeFrom` with limit min(10, capacity) |
| DenseSets.DenseSet.Emplace | include/dense_set.hpp:238-256 | for a stored key: its slot and `false`, with nothing changed. Otherwise: the home slot, with `true` iff the probe found a slot. On success that slot gets the key and its tag and size grows by 1; nothing else changes |
| DenseSets.DenseSet.Occupy | include/dense_set.hpp:252-254 | colonizing the free slot and storing the key keeps the invariant, adds the key and counts it |
| DenseSets.DenseSet.Insert | include/dense_set.hpp:234-235 | `insert` behaves exactly as `emplace`: the same location and flag, the same slot, tag and size updates, and nothing else changes |
| DenseSets.DenseSet.Count | include/dense_set.hpp:342-346 | `count(key)` is 1 if the key is stored, else 0 |
| DenseSets.DenseSet.Contains | include/dense_set.hpp:397-400 | `contains(key)` iff the key is stored |
| DenseSets.DenseSet.Clear | include/dense_set.hpp:424-431 | every sentinel is reset, nothing is stored, keys and `_size` keep their values, capacity is unchanged |
| Arenas.AllocateAsWritten | include/hash_set.hpp:55-62 | as written, a successful allocation either advances the head by n or moves it backwards (wrap-around) |
| Arenas.AllocateIntended | include/hash_set.hpp:51-62 | an allocation succeeds iff n more elements fit, returning the old head and advancing the head by n |
| Arenas.AllocateAsWrittenWraps | include/hash_set.hpp:57 | with head 1 of 4, a request for 2^64 - 1 elements succeeds and resets the head to 0, which the intended allocation refuses |
| Arenas.AllocateAgreesWithoutWrap | include/hash_set.hpp:57 | the two agree whenever `head + n` does not wrap |
| Arenas.AllocationsDisjoint | include/hash_set.hpp:55-62 | successive successful allocations hand out disjoint, increasing ranges within the arena |
| Arenas.MemoryArena.constructor | include/hash_set.hpp:34-35 | a new arena has `elements` slots and head 0 |
| Arenas.MemoryArena.Size | include/hash_set.hpp:40 | `size()` is the number of slots |
| Arenas.MemoryArena.Full | include/hash_set.hpp:41 | `full()` iff the head is at the end |
| Arenas.MemoryArena.Allocate | include/hash_set.hpp:55-62 | succeeds iff head + n <= elements, returning the old head and advancing it by n; on failure returns null and leaves the head alone |
| Arenas.MemoryArena.Deallocate | include/hash_set.hpp:43 | changes nothing, and the arena stays valid |
| Arenas.ArenaAllocator.constructor | include/hash_set.hpp:72 | the allocator refers to the given arena |
| Arenas.ArenaAllocator.Allocate | include/hash_set.hpp:73 | behaves exactly as the arena's `allocate(n)` |
| Arenas.ArenaAllocator.Deallocate | include/hash_set.hpp:74 | changes nothing |

## Left out

- `cells::hash`, `operator<<` and `std::hash<cells>`: these are `std::hash` and
  stream output.
- `cells::center`, `horizontal`, `vertical`, `shift`, `north`, `south`,
  `east`, `west` and `empty`: they are declared but never defined, so there is
  no behaviour to model. The test that calls three of them is therefore not
  modelled.
- The `layer` class is empty, and nothing calls `macrocell::step/next`, so
  there is no recursive advance to model.
- `variadic_hash` and `hash_combine` (include/hash.hpp) are not part of this
  model. The macrocell hash takes the combining function as a parameter, and
  the set takes its hasher as a parameter.
- The set's `KeyEqual` is Dafny's `==` on keys.
- Copy and move constructors and assignments of `dense_set`, `memory_arena`
  and the move members of `static_vector` are left out; they are library
  plumbing.
- `unique_ptr` ownership, iterators over `static_vector`, `data()` and
  exception safety are left out.
- The skipping `iterator_implementation::operator++` is left out. It loops
  forever on an all-empty table, and the set's own operations never use it.
- The const overload `find(key, hash, reduced_hash)` is left out. It passes a
  type where a value belongs, so it cannot be instantiated.
- The const `find`, `probe` and `operator[]` overloads behave as the
  non-const ones.
- `dense_set::swap` (the whole-object swap) is left out.
- DenseSets.DenseSet.At: `operator[]` returns a `Key&` through which a caller
  can overwrite the key in a slot, which can break the table invariant (the
  sentinel's tag no longer matches). The model's `At` returns the key by value,
  so writes through the reference are not modelled.
- `capacity()` calls `_elements.capacity()`, which `static_vector` does not
  declare. The model uses the vector's size.
- Cells.Alive: the source's `operator()` shifts by `x + 8*y`, which is
  undefined for indices of 64 or more; the model reads such cells as dead, as
  `bit` documents.
- Bitwise.SetBit: `set` with an index of 64 or more is undefined behaviour in
  C++. The model follows its doc comment and treats it as a no-op.
- Cells.Parse: the three `if`s of the loop test different characters, so at
  most one applies. The model chains them. The 32-bit `unsigned` counters are
  64-bit words truncated after every update (`Unsigned`, `Succ`, `CellOf`).
- Cells.Counter: the 32-bit wrap-around of the parser's counters is stated as
  n applications of `Succ` from 0, not as `n % 2^32` converted to a word. The
  verifier cannot relate integer and bit-vector conversions in a proof of
  reasonable size.
- Bitwise.HalfAdd: its own contract states how the sum and carry words cover
  the inputs. The per-bit exclusive or and conjunction are stated by
  `HalfAddSumBit` and `HalfAddCarryBit`.
- Bitwise.FullAdd: its own contract states only that sum and carry together
  cover the inputs. The per-bit parity and majority are stated by
  `FullAddSumBit` and `FullAddCarryBit`.
- StaticVectors.StaticVector.constructor: the elements that `new T[count]`
  leaves are not specified, as in C++.
- Arenas.MemoryArena.Allocate: this models the intended allocation, not the
  wrapping `head + n` check as written. The difference is recorded under
  Findings and in `Arenas.AllocateAsWritten`.
- DenseSets.DenseSet.Size: states only that `size()` is at least the number of
  stored keys, because `clear()` resets the sentinels but leaves `_size` as it
  was.
- Arena pointers are offsets into the arena's array, so the model does not
  track pointer identity.

## Findings

| source | as written | input that shows it | evidently intended | confidence | as-written member | corrected member |
|---|---|---|---|---|---|---|
| include/hash_set.hpp:57 | `new_head = head + n` is computed in `std::size_t` and wraps, so the test `new_head <= elements` can pass for a request far larger than the arena | head 1, elements 4, n = 2^64 - 1: the allocation succeeds and the head goes back to 0, so the next allocation hands out element 0 again | refuse any n with head + n > elements (for example, test n <= elements - head) | medium; not executed | Arenas.AllocateAsWritten (shown by Arenas.AllocateAsWrittenWraps) | Arenas.AllocateIntended, used by Arenas.MemoryArena.Allocate (proved: Arenas.AllocationsDisjoint) |
