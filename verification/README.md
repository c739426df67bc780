# texel core, modelled in Dafny

A model of part of the texel chess engine. It covers:

- the attack test of the move generator (`sqAttacked`, `inCheck`,
  `canTakeKing`);
- its ray walkers (`nextPiece`, `nextPieceSafe`);
- its move list and its bitboard move emitters (`addMovesByMask`,
  `addPawnDoubleMovesByMask`, `addPawnMovesByMask`);
- the `splitString` of the chess tool and the four-field check `readFENFile`
  applies to every line of a training file;
- the 64-byte `AlignedAllocator`;
- the string, vector, range-sum and heap utilities, as their unit tests pin
  them down;
- the `Move` constructor and `equals`, as their unit tests pin them down.

Modules, in dependency order:

| module | file | what it holds |
|---|---|---|
| `Wrappers` | wrappers.dfy | `Option` and `Result` |
| `BitBoard` | bitboard.dfy | 64-bit masks (`bv64`), the squares they hold, `numberOfTrailingZeros`, `mask & (mask - 1)`, the ascending square list |
| `Pieces` | pieces.dfy | the piece codes, squares and their coordinates |
| `Moves` | moves.dfy | `Move` and `equals` |
| `Positions` | position.dfy | the board, the piece and colour bitboards, the king squares and the side to move |
| `Attacks` | attacks.dfy | the attack geometry of every piece kind and the attack tables |
| `AttackTest` | attacktest.dfy | `sqAttacked`, `inCheck`, `canTakeKing` |
| `RayWalk` | raywalk.dfy | `nextPiece`, `nextPieceSafe` |
| `MoveLists` | movelist.dfy | `MoveGen::MoveList` |
| `MoveGen` | movegen.dfy | the three move emitters |
| `ChessTool` | chesstool.dfy | `splitString` and the FEN-line field check |
| `AlignedAlloc` | alloc.dfy | `AlignedAllocator<T>` |
| `Util` | util.dfy | `startsWith`, `contains`, `trim`, `toLowerCase`, the whitespace `splitString` |
| `RangeSum` | rangesum.dfy | `RangeSumArray<N>` |
| `Heaps` | heap.dfy | the max-priority `Heap` |

The attack test is stated against a board-level definition. `AttackedOn`
holds when some enemy piece reaches the square:

- a knight, king or pawn by one of its steps;
- a bishop, rook or queen along a line whose squares between are empty in
  the `occupied` mask.

The engine's attack tables are global arrays filled at start-up. They are a
parameter here (`AttackTables`). The predicate `Geometric` says that every
entry holds exactly the squares the piece reaches, and `StandardTables`
builds tables for which it holds.

The move emitters are stated against reference lists built from the mask's
squares in ascending order (`SquaresAsc`). That is the order in which
`numberOfTrailingZeros` and clearing the lowest bit visit them.

## Model

| member | source | states |
|---|---|---|
| AttackTest.SqAttackedMeaning | texellib/src/moveGen.hpp:122-150 | with geometric tables and piece bitboards that match the board, `sqAttacked<wtm>` holds exactly when some piece of the opponent attacks the square, sliders blocked by `occupied` |
| AttackTest.AttackedByMeaning | texellib/src/moveGen.hpp:124-149 | the five intersections of one side's branch, for any six bitboards holding exactly the attacking pieces, answer the board-level question |
| AttackTest.IntersectionsFindAttackers | texellib/src/moveGen.hpp:125-135 | the early-return chain of intersections is true iff a knight, king, pawn, bishop-or-queen or rook-or-queen of the enemy attacks the square |
| AttackTest.KindsAreAttackers | texellib/src/moveGen.hpp:124-149 | an enemy piece attacks the square iff one of the five kind tests succeeds, so no attacker kind is missed |
| AttackTest.BlackAttackers | texellib/src/moveGen.hpp:124-135 | with white to move, the black piece bitboards are consulted, and the answer is the board-level attack by black |
| AttackTest.WhiteAttackers | texellib/src/moveGen.hpp:136-148 | with black to move, the white piece bitboards are consulted, and the answer is the board-level attack by white |
| AttackTest.SqAttackedOcc | texellib/src/moveGen.hpp:118-121 | the dispatch on the side to move answers whether the opponent of the side to move attacks the square |
| AttackTest.SqAttacked | texellib/src/moveGen.hpp:114-117 | with `occupied` the union of the colour bitboards, the answer is the attack with every occupied square blocking |
| AttackTest.InCheck | texellib/src/moveGen.hpp:91-94 | the side to move is in check iff its king's square is attacked by the opponent |
| AttackTest.CanTakeKing | texellib/src/moveGen.hpp:104-109 | the position is handed back unchanged, and the answer is whether the side to move attacks the opponent's king |
| Attacks.StandardTables | texellib/src/moveGen.hpp:125-146 | the tables the attack test consults can be built so that every entry holds exactly the squares the piece reaches |
| Attacks.KnightAttacks | texellib/src/moveGen.hpp:125 | the knight table entry holds exactly the knight steps from the square |
| Attacks.KingAttacks | texellib/src/moveGen.hpp:127 | the king table entry holds exactly the king steps from the square |
| Attacks.WPawnAttacks | texellib/src/moveGen.hpp:129 | the white-pawn table entry holds exactly the squares a white pawn on the square attacks, which by `PawnMirror` are those from which a black pawn attacks it |
| Attacks.BPawnAttacks | texellib/src/moveGen.hpp:141 | the black-pawn table entry holds exactly the squares a black pawn on the square attacks, which by `PawnMirror` are those from which a white pawn attacks it |
| Attacks.BishopAttacks | texellib/src/moveGen.hpp:132 | the bishop attack mask holds exactly the squares reached diagonally with only empty squares between |
| Attacks.RookAttacks | texellib/src/moveGen.hpp:134 | the rook attack mask holds exactly the squares reached along a rank or file with only empty squares between |
| Attacks.KnightSymmetric | texellib/src/moveGen.hpp:125 | knight steps are symmetric, so looking up the table from the target square finds the attackers |
| Attacks.KingSymmetric | texellib/src/moveGen.hpp:127 | king steps are symmetric |
| Attacks.PawnMirror | texellib/src/moveGen.hpp:129 | a white pawn's capture step, read backwards, is a black pawn's capture step, which is why the white-pawn table finds black pawns |
| Attacks.DiagonalSymmetric | texellib/src/moveGen.hpp:132 | diagonal reach with a given occupancy is symmetric in its two squares |
| Attacks.OrthogonalSymmetric | texellib/src/moveGen.hpp:134 | orthogonal reach with a given occupancy is symmetric in its two squares |
| Positions.GetKingSq | texellib/src/moveGen.hpp:92 | in a consistent position the king square holds the king of that side |
| Positions.SetWhiteMove | texellib/src/moveGen.hpp:105-107 | only the side to move changes, and consistency is kept |
| Positions.OccupiedSquares | texellib/src/moveGen.hpp:115 | the union of the colour bitboards holds exactly the non-empty squares |
| RayWalk.DirectionOf | texellib/src/moveGen.hpp:179-189 | the switch maps each of the eight offsets to its file and rank step, with `delta == dx + 8*dy`, and every other offset to no step |
| RayWalk.NextPieceSafe | texellib/src/moveGen.hpp:178-204 | the answer is `EMPTY` iff every square of the ray up to the board edge is empty; otherwise it is the first piece on the ray |
| RayWalk.FirstOnRayUnique | texellib/src/moveGen.hpp:192-201 | the first piece on a ray is unique, so the contract of `nextPieceSafe` fixes its answer |
| RayWalk.NextPiece | texellib/src/moveGen.hpp:166-175 | when a piece lies within `n` on-board steps, the answer is the first non-empty square met stepping by `delta` |
| MoveLists.NewMoveList | texellib/src/moveGen.hpp:58 | a new list holds no moves |
| MoveLists.Clear | texellib/src/moveGen.hpp:60 | clearing empties the list and leaves the buffer as it was |
| MoveLists.AddMove | texellib/src/moveGen.hpp:65-68 | the move with score 0 is appended and the size grows by one |
| MoveLists.AddMoveBuffer | texellib/src/moveGen.hpp:65-68 | only the buffer slot at the old size is written |
| MoveLists.AddMoveKeepsPrefix | texellib/src/moveGen.hpp:65-68 | the moves listed before stay in place |
| BitBoard.Ntz | texellib/src/moveGen.hpp:250 | `numberOfTrailingZeros` of a non-empty mask is a square of the mask with no square of the mask below it |
| BitBoard.ClearLowest | texellib/src/moveGen.hpp:252 | `mask & (mask - 1)` removes exactly the lowest square and nothing else |
| BitBoard.EmptyIffNoSquares | texellib/src/moveGen.hpp:249 | the loop guard `mask != 0` holds iff squares are left |
| BitBoard.SquaresAscIncreasing | texellib/src/moveGen.hpp:249-253 | the visiting order of the emitter loops is strictly ascending |
| BitBoard.SplitRow1Row8 | texellib/src/moveGen.hpp:210-211 | `promMask` holds the squares of the mask on ranks 1 and 8, and the rest of the mask holds the others |
| MoveGen.AddMovesByMask | texellib/src/moveGen.hpp:248-254 | one move from `sq0` to each square of the mask is appended, in ascending order, and nothing else |
| MoveGen.FixedOriginMovesOfMask | texellib/src/moveGen.hpp:248-254 | the appended moves go to exactly the mask's squares, each once, all from `sq0`, none promoting |
| MoveGen.AddPawnDoubleMovesByMask | texellib/src/moveGen.hpp:239-246 | one move to each square of the mask from `delta` away is appended, in ascending order |
| MoveGen.ShiftMovesOfMask | texellib/src/moveGen.hpp:239-246 | the appended moves go to exactly the mask's squares, each from the square `delta` away |
| MoveGen.AddPromotionsByMask | texellib/src/moveGen.hpp:212-231 | each promotion square gets its promotion moves, in ascending square order |
| MoveGen.AddPromotions | texellib/src/moveGen.hpp:215-229 | white queen, knight (then rook, bishop) on rank 8; the black pieces otherwise |
| MoveGen.AddPawnMovesByMask | texellib/src/moveGen.hpp:206-237 | an empty mask changes nothing; otherwise the promotion moves come first, then one plain move per remaining square |
| MoveGen.PawnMovesCount | texellib/src/moveGen.hpp:206-237 | the number of moves is the plain squares plus 4 (or 2 without all promotions) per promotion square |
| MoveGen.PawnMovesOrder | texellib/src/moveGen.hpp:212-236 | no promotion move follows a plain move |
| MoveGen.PawnMovesTargets | texellib/src/moveGen.hpp:206-237 | every move goes to a square of the mask from `delta` away; it promotes iff the target is on rank 1 or 8, white exactly on rank 8 |
| MoveGen.PawnPromotionsComplete | texellib/src/moveGen.hpp:212-231 | every promotion square of the mask gets a move for each promotion piece |
| MoveGen.PawnPlainComplete | texellib/src/moveGen.hpp:232-236 | every other square of the mask gets its plain move |
| MoveGen.PromotionPiecesContents | texellib/src/moveGen.hpp:215-229 | the pieces are queen and knight, plus rook and bishop exactly with `allPromotions`, white exactly on rank 8 |
| Moves.ConstructorAccessors | texellibtest/src/moveTest.cpp:14-22 | the accessors return the constructor's origin, destination and promotion piece |
| Moves.EqualsTestCases | texellibtest/src/moveTest.cpp:27-37 | moves differing in destination, origin or promotion piece are unequal, and identical ones are equal |
| Moves.DifferingMovesUnequal | texellibtest/src/moveTest.cpp:27-37 | the test cases hold for all squares and pieces |
| Moves.EqualsIgnoresOnlyScore | texellibtest/src/moveTest.cpp:27-37 | two moves are equal iff they agree once the score is ignored |
| Moves.EqualsIsEquivalence | texellibtest/src/moveTest.cpp:27-37 | `equals` is reflexive, symmetric and transitive |
| ChessTool.FindIsFirstOccurrence | texelutil/src/chesstool.cpp:158-160 | `find` gives the first occurrence at or after `start`, and `npos` iff there is none |
| ChessTool.SplitString | texelutil/src/chesstool.cpp:154-166 | the fields of the line are appended to those already present: the text between delimiters, then the rest of the line if it is not empty |
| ChessTool.JoinFields | texelutil/src/chesstool.cpp:154-166 | joining the fields with the delimiter gives back the line, or the line without its final delimiter; when it gives back the whole line the last field is not empty, so a trailing empty field is always dropped (lines 164-165) |
| ChessTool.FieldsHaveNoDelim | texelutil/src/chesstool.cpp:158-161 | no field contains the delimiter |
| ChessTool.FieldsAreLeftmost | texelutil/src/chesstool.cpp:156-162 | each field is the text at its offset, no occurrence of the delimiter starts inside it, and each field but the last is followed by an occurrence: the scan always splits at the leftmost occurrence, even for a delimiter that overlaps itself |
| ChessTool.OverlappingSeparator | texelutil/src/chesstool.cpp:158-160 | with the overlapping separator `" : "`, the line `"x : : y"` splits into `"x"` and `": y"` |
| ChessTool.EmptyFieldAtDelimiter | texelutil/src/chesstool.cpp:158-162 | a delimiter where the scan starts gives an empty field |
| ChessTool.EmptyLineNoFields | texelutil/src/chesstool.cpp:164-165 | the empty line has no fields |
| ChessTool.ReadFENLine | texelutil/src/chesstool.cpp:177-183 | a line passes the field-count check iff it splits on `" : "` into exactly four fields, and otherwise the error is "Invalid file format"; the later number conversions are not modelled |
| AlignedAlloc.AlignDown | texellib/src/alignedAlloc.hpp:56 | the masked value is the largest multiple of 64 not above its input |
| AlignedAlloc.MaskIsAlignDown | texellib/src/alignedAlloc.hpp:56 | `x & ~63` on a 64-bit word equals `x - x % 64` |
| AlignedAlloc.Allocate | texellib/src/alignedAlloc.hpp:50-59 | a null `malloc` result raises `bad_alloc`; otherwise the pointer is 64-byte aligned and the word below it holds `mem`, with no other word changed |
| AlignedAlloc.AllocationInsideBlock | texellib/src/alignedAlloc.hpp:50-59 | within `max_size()`, the header word and the `n` elements lie inside the block `malloc` returned |
| AlignedAlloc.MaxSizeNoOverflow | texellib/src/alignedAlloc.hpp:51-68 | `n <= max_size()` iff the size computation does not wrap |
| AlignedAlloc.DeallocateFreesMalloced | texellib/src/alignedAlloc.hpp:61-64 | deallocating the pointer `allocate` returned frees exactly what `malloc` returned, whatever `n` and whichever allocator |
| AlignedAlloc.NotEqual | texellib/src/alignedAlloc.hpp:83-86 | two aligned allocators never compare unequal |
| Util.StartsWith | texellibtest/src/utilTest.cpp:55-59 | `startsWith` holds iff the prefix is no longer than the string and equals its front |
| Util.StartsWithExamples | texellibtest/src/utilTest.cpp:55-59 | the five assertions of the unit test |
| Util.Contains | texellibtest/src/utilTest.cpp:61-65 | `contains` holds iff some index of the vector holds the value |
| Util.ContainsIsMembership | texellibtest/src/utilTest.cpp:61-65 | `contains` is membership, and the empty vector contains nothing |
| Util.ContainsExamples | texellibtest/src/utilTest.cpp:61-65 | the five assertions of the unit test |
| Util.Trim | texellibtest/src/utilTest.cpp:67-68 | the result is a slice of the input with only blanks cut off both ends, and it neither starts nor ends with a blank |
| Util.TrimSurrounded | texellibtest/src/utilTest.cpp:67-68 | trimming blanks around a text without blank ends gives that text back, interior blanks included |
| Util.TrimIdempotent | texellibtest/src/utilTest.cpp:67-68 | trimming twice is trimming once |
| Util.TrimExampleSpaces | texellibtest/src/utilTest.cpp:67 | `trim(" asdf  adf  ")` is `"asdf  adf"` |
| Util.TrimExampleTab | texellibtest/src/utilTest.cpp:68 | `trim("\t asdf xyz")` is `"asdf xyz"` |
| Util.ToLowerCase | texellibtest/src/utilTest.cpp:54 | the length is kept; a capital `A`..`Z` becomes the small letter at the same place in the alphabet, and any other character is kept |
| Util.ToLowerCaseIdempotent | texellibtest/src/utilTest.cpp:54 | no capital letter is left, so lower-casing twice is lower-casing once |
| Util.ToLowerCaseExample | texellibtest/src/utilTest.cpp:54 | `toLowerCase("Peter")` is `"peter"` |
| Util.Tokens | texellibtest/src/utilTest.cpp:41-44 | every piece the whitespace split yields is a non-empty word without whitespace |
| Util.TokensOfJoined | texellibtest/src/utilTest.cpp:41-44 | splitting words joined by single spaces gives back the words |
| Util.TokensExample | texellibtest/src/utilTest.cpp:41-44 | `"a b c def"` splits into `a`, `b`, `c`, `def` |
| RangeSum.New | texellibtest/src/utilTest.cpp:141-144 | a new array of `N` entries reads 0 everywhere |
| RangeSum.Add | texellibtest/src/utilTest.cpp:145-146 | `add(i, v)` raises entry `i` by `v` and leaves every other entry unchanged |
| RangeSum.SumIsSumOfGets | texellibtest/src/utilTest.cpp:149-156 | `sum(i, j)` is the sum of `get(k)` for `i <= k < j`, for all `0 <= i <= j <= N` |
| RangeSum.AddChangesCoveringSums | texellibtest/src/utilTest.cpp:145-156 | adding to one entry changes exactly the range sums that cover it, by the amount added |
| RangeSum.AddAll | texellibtest/src/utilTest.cpp:145-148 | adding `vs[k]` to each entry `k` in turn raises each entry by its value |
| RangeSum.UnitTest | texellibtest/src/utilTest.cpp:140-157 | after the fifteen additions `get(i)` is `1 << i` and every range sum is the sum of its entries |
| Heaps.Front | texellibtest/src/utilTest.cpp:178-179 | `front()` is an entry of maximal priority, and there is none for the empty heap |
| Heaps.Insert | texellibtest/src/utilTest.cpp:171-175 | inserting adds exactly the new entry, and ids stay unique |
| Heaps.Remove | texellibtest/src/utilTest.cpp:182 | removing takes out exactly the object's entry |
| Heaps.NewPrio | texellibtest/src/utilTest.cpp:185-191 | the object's priority becomes the new one, and no other entry changes |
| Heaps.DrainContents | texellibtest/src/utilTest.cpp:194-228 | repeated `front`/`remove` yields every entry exactly once |
| Heaps.DrainSorted | texellibtest/src/utilTest.cpp:194-228 | repeated `front`/`remove` yields the entries by non-increasing priority |
| Heaps.DrainOfDistinct | texellibtest/src/utilTest.cpp:194-228 | when priorities are distinct the drain order is forced: it is the arrangement by decreasing priority |
| Heaps.TestSetUp | texellibtest/src/utilTest.cpp:168-182 | after the ten inserts, the front is object 1009, and removing it leaves 1000..1008 |
| Heaps.TestPriorityChanges | texellibtest/src/utilTest.cpp:185-191 | the three `newPrio` calls give objects 1005, 1004 and 1007 the priorities 15, 3 and 9 |
| Heaps.UnitTest | texellibtest/src/utilTest.cpp:160-229 | the objects then come out in the order 1008, 1005, 1006, 1007, 1003, 1002, 1004, 1001, 1000 |

## Left out

- The engine-control and SPSA headers (`enginecontrol.hpp`, `spsa.hpp`) are not modelled.
- In the chess tool:
  - reading the stream, parsing the FEN and the three numbers, and the rest of `ChessTool` (floating point, I/O) are not modelled;
  - the diagnostic printing before the "Invalid file format" error is output only.
- In the utility tests:
  - `COUNT_OF`, `str2Num`, `hexStr2Num`, `num2Str` and `num2Hex` (`utilTest.cpp:38-39`, `46-52`) are number formatting outside this model;
  - `SampleStatistics` and `TimeSampleStatistics` are floating point and clocks.
- The declared-only move-generator functions (`pseudoLegalMoves`, `checkEvasions`, `givesCheck`, `removeIllegal`, `isLegal`, `MoveList::filter`) are defined in `moveGen.cpp`, which is not part of this model.
- The debug-only `assert(false)` returns of the ray walkers are unreachable and not modelled.
- `position.hpp`, `move.hpp`, `bitboard.hpp`, `util.hpp`, `heap.hpp` and `rangeSumArray.hpp` are not part of this model. What the engine uses from them is defined here from its meaning:
  - `Move` is a value with `equals`;
  - `Position` is a board with consistent bitboards;
  - `numberOfTrailingZeros` gives the lowest set bit;
  - the attack tables are geometric;
  - the heap and the range-sum array are specified through their unit tests.
- `AttackTables`: the engine's global attack arrays and magic-bitboard slider lookups are a parameter constrained by `Geometric`; how the engine fills them is not modelled.
- `AlignedAlloc.Allocate`:
  - `malloc` is not called; its result is a parameter;
  - `construct`, `destroy`, `rebind` and the odd `operator=` returning `true` are not modelled;
  - the header is only written when the aligned pointer is at least 8, because an address below 8 has no word under it in the model. This happens only when `n` exceeds `max_size()`: then the size computation at `texellib/src/alignedAlloc.hpp:51` wraps (for example to 0 with `sizeof(T)` 1, `n` = 2^64 - 72 and `mem` = 2^64 - 8), the aligned pointer wraps to 0, and the engine itself writes the header outside the block. Within `max_size()` a non-null block always gets its header (`AllocationInsideBlock`).
- ChessTool.ReadFENLine: models only the field-count check of `readFENFile`. Reading the file, `TextIO::readFEN` of the first field, serialising the position and the `str2Num` conversions of the other three fields (`texelutil/src/chesstool.cpp:184-189`, which throw the same error when a number does not parse) are not modelled.
- Positions.SetWhiteMove: only flips the side to move. The engine's `setWhiteMove` also updates the position's hash key; the hash key is not modelled, and `canTakeKing` flips the side twice, which restores the key as well.
- AlignedAlloc.Deallocate: has no ensures of its own. It answers `None` when no header word is stored below the pointer, a case the engine does not check (undefined behaviour there). Its contract is the round trip `DeallocateFreesMalloced`.
- AlignedAlloc.AllocationInsideBlock: holds only up to `max_size()`. Beyond it the size computation wraps and the block is too small, which `NeededSize` models explicitly.
- RayWalk.NextPieceSafe: requires one of the eight direction offsets. For any other offset the engine's steps are both 0, and the loop does not end on an empty square.
- RayWalk.NextPiece: the engine trusts its caller to hit a piece before leaving the board. The model makes that a requirement through the ghost step bound `n`.
- ChessTool.SplitString: requires a non-empty delimiter. With an empty one, `find` keeps returning `start` and the loop does not end.
- Util.Trim: the unit test only shows spaces and tabs being stripped, so the model strips exactly those two characters.
- `MoveLists`: the buffer is a sequence of moves rather than raw `int` storage, and `MAX_MOVES` overflow is a requirement on the caller, as the engine relies on it without checking.
- The `MOVELIST_DEBUG` block (`moveGen.hpp:35-40`) is switched off in the source and not modelled.
- Integer widths: square indices, `delta` and `sq0` are unbounded integers. The engine's values are small and do not wrap.
