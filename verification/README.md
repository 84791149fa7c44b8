# checke-rs: bitboards, squares, checkers notation and turns in Dafny

This project models the core of checke-rs, a checkers library. It covers
two layers below the unfinished rules engine.

The first layer is the 64-bit board representation:
- `BitBoard` and its operators;
- the single-bit refinement `MonoBitBoard`;
- the edge, corner and colour masks;
- `CellIter`, the cursor that walks the set cells of a board.

The second layer is the checkers-notation layer:
- the 32 playable squares and their conversions from numbers, text and single-bit boards;
- a square's `Position` against the board edges;
- moves and their notation `<source>[-xX]<destination>`;
- turns, which are comma-separated lists of moves.

The crate holds two copies of the notation layer.
- `src/position.rs` is the one declared in `src/lib.rs`.
- `src/square.rs` and `src/moves.rs` are the ones `src/turn.rs` imports.

Both copies have the same grammar, the same number and text conversions
and the same parse, so one `Square`, one `Move` and one parser serve both.
The copies differ in three places:
- the iteration order in `square.rs` repeats `TwentyTwo` in place of
  `ThirtyTwo`; it is modelled separately (see Findings);
- `Square::as_bitboard` in `square.rs` is `todo!()`, while `position.rs`
  has the 32-entry table `to_bitboard`;
- `Square::try_from(MonoBitBoard)` exists only in `position.rs`.

Modules:
- `BitBoards`: board words as `bv64`, and cell sets `Cells(v)` as the specification of every operator.
  - `CellIter` is a class with a cursor field. Its `Next` method carries the `find` loop.
- `Decimal`: Rust's `str::parse::<u8>`. It accepts one optional `+`, then one or more ASCII digits, with value at most 255. Leading zeros are allowed. Every failure is one error.
- `Squares`: the square enum, the number conversions, the bit table and its closed form, and the reverse lookup.
- `Moves`: `Move::new` and the grammar, as a character-level recognizer. Also the parse, with its inverse `Notation`.
- `Positions`: `Position::from`.
- `Turns`: `split(',')`, the short-circuiting `collect`, and `Turn::try_from`, with its inverse `TurnNotation`.
- `MoveExamples`, `TurnExamples`: the documented and tested texts, as concrete lemmas.
- `Errors`, `Wrappers`: `NotationError` and the `Option`/`Result` types.

## Model

| member | source | states |
|---|---|---|
| BitBoards.Empty | src/bitboard.rs:47-51 | a board is empty exactly when its word is zero, which is exactly when it holds no cell |
| BitBoards.ZeroIffNoCells | src/bitboard.rs:47-51 | a word is zero if and only if its cell set is empty |
| BitBoards.And | src/bitboard.rs:65-71 | the cells of `a & b` are the intersection of the two boards' cells |
| BitBoards.Or | src/bitboard.rs:73-79 | the cells of `a \| b` are the union of the two boards' cells |
| BitBoards.AndMono | src/bitboard.rs:81-87 | `BitBoard & MonoBitBoard` keeps at most the one cell of the single-bit board |
| BitBoards.OrMono | src/bitboard.rs:89-95 | `BitBoard \| MonoBitBoard` adds the one cell of the single-bit board |
| BitBoards.Xor | src/bitboard.rs:97-103 | the cells of `a ^ b` are the symmetric difference of the two boards' cells |
| BitBoards.XorAssign | src/bitboard.rs:105-109 | the value `self` holds after `self ^= rhs` has the symmetric difference of cells |
| BitBoards.XorAssignTwice | src/bitboard.rs:105-109 | applying `^= rhs` twice restores the original board |
| BitBoards.CellsInjective | src/bitboard.rs:156-175 | two words with the same cells are equal, so equality of boards is equality of cell sets |
| BitBoards.Contains | src/bitboard.rs:58-62 | `contains` is true exactly when the board and the single-bit board share a cell |
| BitBoards.ContainsIndex | src/bitboard.rs:58-62 | containment is membership of the single-bit board's one cell |
| BitBoards.Decrement | src/bitboard.rs:123 | `value - 1` is evaluated only on a non-zero value, so it never underflows |
| BitBoards.SingleBitCharacterised | src/bitboard.rs:122-123 | the test `v != 0 && v & (v - 1) == 0` holds if and only if `v` is a power of two, if and only if exactly one bit is set |
| BitBoards.New | src/bitboard.rs:120-128 | `MonoBitBoard::new(v)` succeeds if and only if exactly one bit of `v` is set, and then holds `v` unchanged |
| BitBoards.MonoFromBitBoard | src/bitboard.rs:147-154 | `MonoBitBoard::try_from(BitBoard)` succeeds exactly for one-cell boards, holding the same word |
| BitBoards.IndexOf | src/bitboard.rs:115-118 | every single-bit board has exactly one cell |
| BitBoards.MonoAnd | src/bitboard.rs:131-137 | `MonoBitBoard & MonoBitBoard` has the intersection of the two single cells |
| BitBoards.MonoOr | src/bitboard.rs:139-145 | `MonoBitBoard \| MonoBitBoard` has both cells |
| BitBoards.MaskRelations | src/bitboard.rs:5-30 | the masks satisfy these relations: LEFT and RIGHT are disjoint; TOP and BOTTOM are disjoint; LEFT_AND_RIGHT is their union, as is TOP_AND_BOTTOM; CORNER is the intersection of the two unions; BLACK and WHITE partition all 64 cells |
| BitBoards.CellIter.constructor | src/bitboard.rs:183-188 | a new cursor has every set cell of the board still to yield, in ascending order |
| BitBoards.CellIter.Next | src/bitboard.rs:190-197 | `next` yields the lowest remaining set cell as a single-bit board and moves past it, or `None` once none is left; the `unwrap` never fails |
| BitBoards.SetBitsFromSound | src/bitboard.rs:193-196 | the cells the cursor yields are strictly ascending and each is set in the board |
| BitBoards.SetBitsFromComplete | src/bitboard.rs:193-196 | every set cell at or above the cursor is yielded |
| BitBoards.SetBitsFromCount | src/bitboard.rs:193-196 | the cursor yields exactly as many cells as are set at or above it |
| BitBoards.UsedCellsEnumeration | src/bitboard.rs:53-56 | `used_cells` yields every set cell once, in strictly ascending order, as many as the popcount |
| BitBoards.CollectUsedCells | src/bitboard.rs:53-56 | draining the cursor `used_cells` returns yields, in order, the single-bit board of each set cell in ascending order, as many as the popcount, and then stops |
| Decimal.ParseU8 | src/square.rs:80 | a parsed `u8` is below 256 |
| Decimal.ParseDecimalText | src/square.rs:80 | the decimal text of any number below 256 parses back to that number |
| Decimal.ParseLeadingZero | src/square.rs:80 | leading zeros do not change the parsed value |
| Decimal.ParsePlusSign | src/square.rs:80 | one leading `+` is accepted and ignored; a second one is a format error |
| Decimal.ValueLowerBound | src/square.rs:80 | digit text with a non-zero lead and four or more digits is never a `u8` |
| Decimal.ValueOfDecimalText | src/square.rs:80 | the decimal text of `n` has value `n` |
| Squares.Number | src/position.rs:174-176 | `to_number` (and `as_number` at src/square.rs:61-65) is total and lies in 1..32 |
| Squares.FromU8 | src/position.rs:179-185 | `Square::try_from(n)` (here and at src/square.rs:68-74) succeeds if and only if 1 <= n <= 32, and then the square's number is `n`; otherwise `OutOfRange` |
| Squares.NumberRoundTrip | src/square.rs:61-74 | converting a square to its number and back gives the square |
| Squares.FromText | src/position.rs:187-194 | `Square::try_from(&str)` (here and at src/square.rs:76-83): text that is not a `u8` is `InvalidFormat`; a `u8` outside 1..32 is `OutOfRange`; a success has the parsed number |
| Squares.SquareExamples | tests/square_tests.rs:4-58 | 1 and "1" are square One; 0 is `OutOfRange`; One and ThirtyTwo map to bits 62 and 1 |
| Squares.TableMatchesClosedForm | src/position.rs:127-161 | the hand-written table puts square `n` on bit `63 - 8r - 2c - (r even ? 1 : 0)`, where `r = (n-1)/4` and `c = (n-1)%4` |
| Squares.ToBitBoard | src/position.rs:127-163 | `to_bitboard` is a single-bit board, on the closed-form cell, so the `unwrap` never fails |
| Squares.NumberInjective | src/position.rs:68-101 | no two squares share a discriminant |
| Squares.CellOfInjective | src/position.rs:127-161 | no two squares share a cell under the closed form, so no two table entries are equal |
| Squares.ToBitBoardInjective | src/position.rs:127-163 | distinct squares have distinct single-bit boards |
| Squares.SquaresInOrder | src/position.rs:113-124 | `Square::iter` has 32 entries, entry `k` being square `k + 1` |
| Squares.AllSquaresListed | src/position.rs:113-124 | every square occurs in `Square::iter` |
| Squares.LegacySquaresRepeat | src/square.rs:44-55 | the iteration order as written has 32 entries and agrees with the correct order up to entry 31; its last entry is `TwentyTwo` again, and `ThirtyTwo` never occurs |
| Squares.FindSquare | src/position.rs:224-228 | `find` returns a listed square with the given board, or nothing exactly when no listed square has it |
| Squares.FromBitBoard | src/position.rs:196-228 | the conversion returns a square whose board is the input, and fails exactly when no square has that board |
| Squares.BitBoardRoundTrip | src/position.rs:199-210 | converting a square to its board and back gives the square |
| Squares.LowestCellRejected | src/position.rs:212-223 | the board `0b1` is not a square |
| Squares.FromBitBoardIffDark | src/position.rs:224-228 | the dark and light masks partition the board, and a single-bit board is a square if and only if its cell is dark |
| Squares.SquareIsDark | src/position.rs:127-161 | every square's cell is dark and not light |
| Squares.NumberOnDarkCell | src/position.rs:127-161 | for every number 1..32 the closed-form cell is dark and not light |
| Squares.DarkCellNumbers | src/position.rs:127-161 | reading the closed form backwards on any dark cell gives a number in 1..32 whose cell is that dark cell |
| Squares.DarkCellHoldsSquare | src/position.rs:127-161 | every dark cell holds a square |
| Squares.ContainsCell | src/bitboard.rs:58-62 | a board contains a square's board exactly when it has the square's cell |
| Squares.ColourMasksSplitSquares | src/bitboard.rs:5-9 | square One lies in BLACK_SQUARES, but square Five lies in WHITE_SQUARES |
| Moves.NewMove | src/moves.rs:32-37 | `Move::new` (here and at src/position.rs:251-256) fails, with `Idle`, if and only if source equals destination; otherwise it keeps both in order |
| Moves.Match | src/moves.rs:55-58 | a match splits the text into a number token, a separator and a number token |
| Moves.MatchComplete | src/moves.rs:55-58 | every token-separator-token text matches, with exactly those captures |
| Moves.MatchSplitsAtSeparator | src/moves.rs:55-58 | a matching text splits at its separator into the two tokens |
| Moves.ParseCaptures | src/moves.rs:65-73 | `parse_captures` (here and at src/position.rs:279-287) parses the source first, then the destination, then applies `Move::new`; the first error is returned |
| Moves.FromNotation | src/moves.rs:53-62 | `Move::try_from(&str)` (here and at src/position.rs:268-277): text outside the pattern is `InvalidFormat`; a bad source number gives its own error; a move read is never idle |
| Moves.FromNotationCanonical | src/moves.rs:53-73 | a text that reads as a move is the move's two canonical numbers around its separator |
| Moves.TokenIsNumberText | src/moves.rs:55 | a number token that reads as a square is that square's canonical number text |
| Moves.TokensEqualByValue | src/moves.rs:55 | two number tokens with the same value are the same text |
| Moves.SeparatorIrrelevant | src/moves.rs:65-73 | `-`, `x` and `X` give the same result |
| Moves.NotationRoundTrip | src/moves.rs:53-73 | the notation of any pair of squares reads back as `Move::new` of that pair |
| Moves.TextRoundTrip | src/square.rs:79-82 | a square's number text reads back as the square |
| Moves.SourceErrorFirst | src/moves.rs:69-70 | when both numbers are bad, the source's error is reported |
| Moves.NumberClassified | src/moves.rs:69-70 | inside the pattern, numbers above 255 are `InvalidFormat`, numbers 33..255 are `OutOfRange`, and 1..32 exactly succeed |
| Moves.Notation | src/moves.rs:53-62 | a non-idle move written in notation reads back as the move; the text has only digits and separators |
| Moves.NotationAlphabet | src/moves.rs:55 | text in the pattern is made of digits and separators only |
| MoveExamples.NotationExampleNineTwelve | tests/move_tests.rs:6-12 | "9x12" reads as Nine to Twelve; no board rule is checked |
| MoveExamples.NotationExampleTenTwelve | tests/move_tests.rs:6-12 | "10-12" reads as Ten to Twelve |
| MoveExamples.NotationExampleTenFourteen | tests/move_tests.rs:6-12 | "10x14" reads as Ten to Fourteen |
| MoveExamples.NotationExampleNineEighteen | src/turn.rs:24 | "9x18" reads as Nine to Eighteen |
| MoveExamples.NotationExampleEighteenTwentyFive | src/moves.rs:48-51 | "18x25" reads as Eighteen to TwentyFive |
| MoveExamples.MalformedExamples | tests/move_tests.rs:14-22 | "", "a", "a-b", "cxd" and "09x10" are `InvalidFormat` |
| Positions.OppositeEdgesExclusive | src/position.rs:29-32 | no single cell is on both LEFT and RIGHT, or on both TOP and BOTTOM |
| Positions.PositionOf | src/position.rs:27-47 | the position touches exactly the edges whose masks contain the cell |
| Positions.PositionOfEdges | src/position.rs:34-45 | each arm touches exactly the edges whose tests are true; with no two opposite edges, the panicking arm is unreachable |
| Positions.SquareEdges | src/position.rs:28-32 | a square's position edges are its cell's membership in the edge masks |
| Positions.NoSquareInLightCorner | src/position.rs:34-44 | no square has position TopLeft or BottomRight |
| Positions.SquarePosition | src/position.rs:27-47 | squares 1-4 are on the top edge and 29-32 on the bottom edge; 5, 13, 21 and 29 are on the left and 4, 12, 20 and 28 on the right |
| Positions.EdgesOfNumber | src/bitboard.rs:15-27 | the closed-form cell of number `n` is on TOP exactly for `n <= 4`, on BOTTOM for `n >= 29`, on LEFT for 5, 13, 21, 29 and on RIGHT for 4, 12, 20, 28 |
| Turns.NewTurn | src/turn.rs:12-14 | `Turn::new` stores the moves unchanged |
| Turns.Split | src/turn.rs:29 | `split(',')` gives at least one segment, none holding a comma, and the segments join back to the text |
| Turns.SplitJoin | src/turn.rs:29 | splitting comma-free segments joined by commas gives them back |
| Turns.ParseMoves | src/turn.rs:29-31 | `collect` succeeds if and only if every segment is a move, with one move per segment, in order |
| Turns.LeftmostErrorWins | src/turn.rs:29-31 | the error is that of the leftmost failing segment |
| Turns.ParseMovesExact | src/turn.rs:29-31 | segments that each read as the move at the same index collect to exactly those moves |
| Turns.FromTurnNotation | src/turn.rs:28-34 | success has at least one move, one per segment in text order; it succeeds if and only if every segment is a move |
| Turns.MoveNotationsRead | src/turn.rs:28-34 | the segments of non-idle moves hold no comma and collect back to the moves |
| Turns.TurnRoundTrip | src/turn.rs:4-5 | any non-empty list of non-idle moves, chained or not, written as a turn, reads back as those moves |
| Turns.MoveTextHasNoComma | src/turn.rs:29 | a move text holds no comma, so it is one whole segment |
| Turns.TwoMoveTurn | src/turn.rs:28-34 | two move texts joined by a comma read as the turn of those two moves, in order |
| Turns.EmptySegmentRejected | src/turn.rs:29-33 | an empty segment makes the turn fail, with `InvalidFormat` when every earlier segment is a move |
| Turns.LeadingEmptySegment | src/turn.rs:29-33 | empty text, or text that starts with a comma, is `InvalidFormat` |
| TurnExamples.TurnExample | src/turn.rs:20-27 | "9x18,18x25" splits into two segments and reads as the two moves Nine-Eighteen and Eighteen-TwentyFive |

## Left out

- `MoveIter` in `src/position.rs` (lines 309-357) is not modelled. It emits a fixed move once per piece and calls a `Board` method that does not exist.
- `MoveIter` in `src/moves.rs` (lines 88-134) is not modelled. It does not compile: `return Some();` has no value, and `SIDE_SQUARES` is not defined in `src/bitboard.rs`.
- `src/board.rs` is not part of this model. Its operations are `todo!()` and it holds no piece state.
- `Square::as_bitboard` in `src/square.rs` (lines 57-59) is `todo!()`, so it has no behaviour to model. The same goes for the `From<Square> for BitBoard` built on it.
- The regex crate and `lazy_static` are left out. The notation grammar is modelled directly as a recognizer: a leading digit run, one separator, then a digit run.
- The error messages (`thiserror` `Display` strings) and the `Debug` derives are left out. `src/error.rs` is the datatype `Errors.NotationError`.
- `BitBoard::new` and the `PartialEq` impls (including comparison with a bare `u64`) are Dafny datatype construction and equality.
- BitBoards.XorAssign: `^=` is modelled as a function returning the new value of `self`, not as an update in place. `BitBoard` is `Copy` and has no aliasing, so nothing observable is lost.
- BitBoards.CellIter.Next: the `Range<usize>` cursor is the start of the remaining range, held as an 8-bit index from 0 to 64. `find` is modelled by its loop.
- Decimal.ParseU8: the digit loop of `str::parse::<u8>` is modelled by value, as a left fold. The Rust library's code is not part of this model.
- `tests/bitboard_tests.rs` calls `BitBoard::contains_single_piece` and a public tuple constructor, neither of which exists. `BitBoards.New` states the single-bit test instead.
- `tests/turn_tests.rs` and `tests/board_tests.rs` use `Turn::from_notation`, `Move::from_squares` and board builders, which do not exist in the source. They are not modelled.
- `Square::try_from(MonoBitBoard)` exists only in `src/position.rs`. It is modelled as `Squares.FromBitBoard`, which searches the correct iteration order.

## Findings

| source | as written | input that shows it | evidently intended | confidence | as-written member | corrected member |
|---|---|---|---|---|---|---|
| src/square.rs:53 | the last entry of `Square::iter` is `Square::TwentyTwo` | iterating all 32 entries: `ThirtyTwo` never appears and `TwentyTwo` appears twice | the 32 squares in order, ending with `ThirtyTwo`, as in `src/position.rs:122` | not executed | Squares.LegacySquaresRepeat | Squares.AllSquaresListed |
| src/bitboard.rs:6-9 | `BLACK_SQUARES = 0x5555555555555555` and `WHITE_SQUARES = 0xAAAAAAAAAAAAAAAA`, which are alternating columns | square Five (bit 55) is in `WHITE_SQUARES`, while square One (bit 62) is in `BLACK_SQUARES` | one mask holding exactly the 32 playable squares, `0x55AA55AA55AA55AA`, and its complement | not executed | Squares.ColourMasksSplitSquares | Squares.FromBitBoardIffDark |
