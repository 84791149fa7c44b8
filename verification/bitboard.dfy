/** The 64-bit board representation: `BitBoard`, its single-bit refinement
    `MonoBitBoard`, the edge and colour masks, and `CellIter`, the cursor
    that walks the set bits of a board in ascending order. */
module BitBoards {
  import opened Wrappers

  /** Index of one of the 64 cells; cell `i` is the bit of weight 2^i.
      Indices are 8-bit words so that shifting by one stays bit-level. */
  type CellIndex = i: bv8 | i < 64

  /** The word whose only set bit is cell `i`. */
  function Bit(i: CellIndex): bv64 {
    1 << i
  }

  /** Whether cell `i` is set in `v`. */
  predicate Has(v: bv64, i: CellIndex) {
    v & Bit(i) != 0
  }

  /** The indices `from`, `from + 1`, ..., 63. */
  function Indices(from: bv8): seq<CellIndex>
    requires from <= 64
    decreases 64 - from
  {
    if from == 64 then [] else [from] + Indices(from + 1)
  }

  /** The cells set in `v` at index `from` or above. */
  ghost function CellsFrom(v: bv64, from: bv8): set<CellIndex>
    requires from <= 64
  {
    set i | i in Indices(from) && Has(v, i)
  }

  /** The cells set in `v`, viewed as a set of indices. */
  ghost function Cells(v: bv64): set<CellIndex> {
    CellsFrom(v, 0)
  }

  /** The number of set bits of `v`. */
  ghost function PopCount(v: bv64): nat {
    |Cells(v)|
  }

  /** `v` is a power of two that fits in 64 bits. */
  ghost predicate IsPowerOfTwo(v: bv64) {
    exists i: CellIndex :: v == Bit(i)
  }

  // ---------------------------------------------------------------------
  // Facts about single cells

  lemma {:induction false} IndicesComplete(from: bv8, i: CellIndex)
    requires from <= 64
    ensures i in Indices(from) <==> from <= i
    decreases 64 - from
  {
    if from < 64 {
      IndicesComplete(from + 1, i);
    }
  }

  lemma InCellsFrom(v: bv64, from: bv8, i: CellIndex)
    requires from <= 64
    ensures i in CellsFrom(v, from) <==> from <= i && Has(v, i)
  {
    IndicesComplete(from, i);
  }

  lemma InCells(v: bv64, i: CellIndex)
    ensures i in Cells(v) <==> Has(v, i)
  {
    InCellsFrom(v, 0, i);
  }

  lemma BitHas(i: CellIndex, j: CellIndex)
    ensures Has(Bit(i), j) <==> i == j
  {
  }

  lemma CellsOfBit(i: CellIndex)
    ensures Cells(Bit(i)) == {i}
  {
    forall j: CellIndex ensures j in Cells(Bit(i)) <==> j == i {
      BitHas(i, j);
      InCells(Bit(i), j);
    }
  }

  /** No cell below `from` is set in `v`. */
  predicate ClearBelow(v: bv64, from: CellIndex) {
    v & (Bit(from) - 1) == 0
  }

  /** A non-zero word none of whose cells below `from` is set has a set cell
      at `from` or above. */
  lemma {:induction false} SomeCellFrom(v: bv64, from: CellIndex) returns (i: CellIndex)
    requires v != 0
    requires ClearBelow(v, from)
    ensures from <= i && Has(v, i)
    decreases 64 - from
  {
    i := from;
    if !Has(v, from) {
      if from == 63 {
        NoneBelowOrAtTop(v);
        assert false;
      }
      LowMaskStep(v, from);
      i := SomeCellFrom(v, from + 1);
    }
  }

  lemma LowMaskStep(v: bv64, from: CellIndex)
    requires from < 63
    requires ClearBelow(v, from) && !Has(v, from)
    ensures ClearBelow(v, from + 1)
  {
  }

  lemma NoneBelowOrAtTop(v: bv64)
    requires ClearBelow(v, 63) && !Has(v, 63)
    ensures v == 0
  {
  }

  /** A word is zero exactly when it has no set cell. */
  lemma ZeroIffNoCells(v: bv64)
    ensures v == 0 <==> Cells(v) == {}
  {
    if v != 0 {
      ClearBelowZero(v);
      var i := SomeCellFrom(v, 0);
      InCells(v, i);
    }
  }

  /** Two words with the same cells are equal. */
  lemma CellsInjective(a: bv64, b: bv64)
    requires Cells(a) == Cells(b)
    ensures a == b
  {
    if a != b {
      var i := CellWhereTheyDiffer(a, b);
      InCells(a, i);
      InCells(b, i);
    }
  }

  lemma CellWhereTheyDiffer(a: bv64, b: bv64) returns (i: CellIndex)
    requires a != b
    ensures Has(a, i) != Has(b, i)
  {
    ClearBelowZero(a ^ b);
    i := SomeCellFrom(a ^ b, 0);
    XorBit(a, b, i);
  }

  lemma ClearBelowZero(v: bv64)
    ensures ClearBelow(v, 0)
  {
  }

  lemma AndBit(a: bv64, b: bv64, i: CellIndex)
    ensures Has(a & b, i) <==> Has(a, i) && Has(b, i)
  {
  }

  lemma OrBit(a: bv64, b: bv64, i: CellIndex)
    ensures Has(a | b, i) <==> Has(a, i) || Has(b, i)
  {
    assert (a | b) & Bit(i) == (a & Bit(i)) | (b & Bit(i));
  }

  lemma XorBit(a: bv64, b: bv64, i: CellIndex)
    ensures Has(a ^ b, i) <==> Has(a, i) != Has(b, i)
  {
  }

  lemma AndCells(a: bv64, b: bv64)
    ensures Cells(a & b) == Cells(a) * Cells(b)
  {
    forall i: CellIndex
      ensures i in Cells(a & b) <==> i in Cells(a) * Cells(b)
    {
      AndCellAt(a, b, i);
    }
  }

  lemma AndCellAt(a: bv64, b: bv64, i: CellIndex)
    ensures i in Cells(a & b) <==> i in Cells(a) && i in Cells(b)
  {
    AndBit(a, b, i);
    InCells(a & b, i);
    InCells(a, i);
    InCells(b, i);
  }

  lemma OrCells(a: bv64, b: bv64)
    ensures Cells(a | b) == Cells(a) + Cells(b)
  {
    forall i: CellIndex
      ensures i in Cells(a | b) <==> i in Cells(a) + Cells(b)
    {
      OrCellAt(a, b, i);
    }
  }

  lemma OrCellAt(a: bv64, b: bv64, i: CellIndex)
    ensures i in Cells(a | b) <==> i in Cells(a) || i in Cells(b)
  {
    OrBit(a, b, i);
    InCells(a | b, i);
    InCells(a, i);
    InCells(b, i);
  }

  lemma XorCells(a: bv64, b: bv64)
    ensures Cells(a ^ b) == (Cells(a) - Cells(b)) + (Cells(b) - Cells(a))
  {
    forall i: CellIndex
      ensures i in Cells(a ^ b) <==> i in (Cells(a) - Cells(b)) + (Cells(b) - Cells(a))
    {
      XorCellAt(a, b, i);
    }
  }

  lemma XorCellAt(a: bv64, b: bv64, i: CellIndex)
    ensures i in Cells(a ^ b) <==> (i in Cells(a)) != (i in Cells(b))
  {
    XorBit(a, b, i);
    InCells(a ^ b, i);
    InCells(a, i);
    InCells(b, i);
  }

  // ---------------------------------------------------------------------
  // BitBoard

  /** A set of cells held as a 64-bit word. */
  datatype BitBoard = BitBoard(bits: bv64)

  /** The board is empty exactly when it holds no cell. */
  function Empty(b: BitBoard): (r: bool)
    ensures r <==> Cells(b.bits) == {}
    ensures r <==> b.bits == 0
  {
    ZeroIffNoCells(b.bits);
    b.bits == 0
  }

  /** `&`: the cells the two boards share. */
  function And(a: BitBoard, b: BitBoard): (r: BitBoard)
    ensures Cells(r.bits) == Cells(a.bits) * Cells(b.bits)
  {
    AndCells(a.bits, b.bits);
    BitBoard(a.bits & b.bits)
  }

  /** `|`: the cells of either board. */
  function Or(a: BitBoard, b: BitBoard): (r: BitBoard)
    ensures Cells(r.bits) == Cells(a.bits) + Cells(b.bits)
  {
    OrCells(a.bits, b.bits);
    BitBoard(a.bits | b.bits)
  }

  /** `^`: the cells of exactly one of the boards. */
  function Xor(a: BitBoard, b: BitBoard): (r: BitBoard)
    ensures Cells(r.bits) == (Cells(a.bits) - Cells(b.bits)) + (Cells(b.bits) - Cells(a.bits))
  {
    XorCells(a.bits, b.bits);
    BitBoard(a.bits ^ b.bits)
  }

  /** `self ^= rhs`: the value `self` holds afterwards; `rhs` is passed by
      value and is left as it was. */
  function XorAssign(self: BitBoard, rhs: BitBoard): (updated: BitBoard)
    ensures Cells(updated.bits) == (Cells(self.bits) - Cells(rhs.bits)) + (Cells(rhs.bits) - Cells(self.bits))
  {
    XorCells(self.bits, rhs.bits);
    BitBoard(self.bits ^ rhs.bits)
  }

  /** Toggling the same cells twice restores the board. */
  lemma XorAssignTwice(self: BitBoard, rhs: BitBoard)
    ensures XorAssign(XorAssign(self, rhs), rhs) == self
  {
    var twice := XorAssign(XorAssign(self, rhs), rhs);
    CellsInjective(twice.bits, self.bits);
  }

  // ---------------------------------------------------------------------
  // MonoBitBoard

  /** `value - 1` on a u64 whose caller has already ruled out zero, so the
      subtraction never underflows. */
  function Decrement(v: bv64): (r: bv64)
    requires v != 0
    ensures r < v && r + 1 == v
  {
    v - 1
  }

  /** The test `MonoBitBoard::new` applies: non-zero, and clearing the lowest
      set bit leaves nothing. The zero test runs first. */
  predicate IsSingleBit(v: bv64) {
    v != 0 && v & Decrement(v) == 0
  }

  type SingleBit = v: bv64 | IsSingleBit(v) witness 1

  /** A board holding exactly one cell. */
  datatype MonoBitBoard = MonoBitBoard(bits: SingleBit)

  /** The error `MonoBitBoard::new` reports for zero or several set bits. */
  datatype MonoBitBoardError = MonoBitBoardError

  lemma SingleBitIsBit(v: bv64, i: CellIndex)
    requires IsSingleBit(v) && Has(v, i)
    ensures v == Bit(i)
  {
  }

  lemma BitIsSingle(i: CellIndex)
    ensures IsSingleBit(Bit(i))
  {
  }

  /** The source's test accepts exactly the powers of two, which are exactly
      the words with one set cell. */
  lemma {:induction false} SingleBitCharacterised(v: bv64)
    ensures IsSingleBit(v) <==> IsPowerOfTwo(v)
    ensures IsSingleBit(v) <==> PopCount(v) == 1
  {
    if IsSingleBit(v) {
      ClearBelowZero(v);
      var i := SomeCellFrom(v, 0);
      SingleBitIsBit(v, i);
      CellsOfBit(i);
    } else if PopCount(v) == 1 {
      var i :| i in Cells(v);
      assert Cells(v) == {i} by {
        assert |Cells(v) - {i}| == 0;
      }
      CellsOfBit(i);
      CellsInjective(v, Bit(i));
      BitIsSingle(i);
      assert false;
    } else if IsPowerOfTwo(v) {
      var i: CellIndex :| v == Bit(i);
      BitIsSingle(i);
      assert false;
    }
  }

  /** `MonoBitBoard::new`: succeeds exactly when `v` has one set bit, and
      then holds `v` unchanged. */
  function New(v: bv64): (r: Result<MonoBitBoard, MonoBitBoardError>)
    ensures r.Ok? <==> PopCount(v) == 1
    ensures r.Ok? <==> IsPowerOfTwo(v)
    ensures r.Ok? ==> r.value.bits == v
  {
    SingleBitCharacterised(v);
    if IsSingleBit(v) then Ok(MonoBitBoard(v)) else Err(MonoBitBoardError)
  }

  /** `MonoBitBoard::try_from(BitBoard)`: the same answer as `New` on the
      board's word. */
  function MonoFromBitBoard(b: BitBoard): (r: Result<MonoBitBoard, MonoBitBoardError>)
    ensures r.Ok? <==> PopCount(b.bits) == 1
    ensures r.Ok? ==> r.value.bits == b.bits
  {
    New(b.bits)
  }

  /** The index of the one cell of a single-bit board. */
  ghost function IndexOf(m: MonoBitBoard): (i: CellIndex)
    ensures m.bits == Bit(i)
    ensures Cells(m.bits) == {i}
  {
    SingleBitCharacterised(m.bits);
    var i: CellIndex :| m.bits == Bit(i);
    CellsOfBit(i);
    i
  }

  /** `BitBoard & MonoBitBoard`. */
  function AndMono(a: BitBoard, m: MonoBitBoard): (r: BitBoard)
    ensures Cells(r.bits) == Cells(a.bits) * {IndexOf(m)}
  {
    And(a, BitBoard(m.bits))
  }

  /** `BitBoard | MonoBitBoard`. */
  function OrMono(a: BitBoard, m: MonoBitBoard): (r: BitBoard)
    ensures Cells(r.bits) == Cells(a.bits) + {IndexOf(m)}
  {
    Or(a, BitBoard(m.bits))
  }

  /** `MonoBitBoard & MonoBitBoard`: the shared cell, if the two are the same. */
  function MonoAnd(m: MonoBitBoard, n: MonoBitBoard): (r: BitBoard)
    ensures Cells(r.bits) == {IndexOf(m)} * {IndexOf(n)}
  {
    And(BitBoard(m.bits), BitBoard(n.bits))
  }

  /** `MonoBitBoard | MonoBitBoard`: both cells. */
  function MonoOr(m: MonoBitBoard, n: MonoBitBoard): (r: BitBoard)
    ensures Cells(r.bits) == {IndexOf(m), IndexOf(n)}
  {
    Or(BitBoard(m.bits), BitBoard(n.bits))
  }

  /** `BitBoard::contains`: the board and `m` share a cell, that is, the
      board holds the one cell of `m`. */
  function Contains(b: BitBoard, m: MonoBitBoard): (r: bool)
    ensures r <==> Cells(b.bits) * Cells(m.bits) != {}
  {
    !Empty(AndMono(b, m))
  }

  /** Containment asks only whether the board holds the one cell of `m`. */
  lemma ContainsIndex(b: BitBoard, m: MonoBitBoard)
    ensures Contains(b, m) <==> IndexOf(m) in Cells(b.bits)
  {
    MeetsSingleton(Cells(b.bits), IndexOf(m));
  }

  lemma MeetsSingleton(s: set<CellIndex>, x: CellIndex)
    ensures s * {x} != {} <==> x in s
  {
    if x in s {
      assert x in s * {x};
    }
  }

  // ---------------------------------------------------------------------
  // Masks

  const BLACK_SQUARES := BitBoard(0x5555555555555555)
  const WHITE_SQUARES := BitBoard(0xAAAAAAAAAAAAAAAA)
  const CORNER_SQUARES := BitBoard(0x8100000000000081)
  const LEFT_SQUARES := BitBoard(0x8080808080808080)
  const RIGHT_SQUARES := BitBoard(0x101010101010101)
  const LEFT_AND_RIGHT_SQUARES := BitBoard(0x8181818181818181)
  const TOP_SQUARES := BitBoard(0xFF00000000000000)
  const BOTTOM_SQUARES := BitBoard(0x00000000000000FF)
  const TOP_AND_BOTTOM_SQUARES := BitBoard(0xFF000000000000FF)

  /** The edges do not overlap, the combined masks are unions of the single
      edges, the corners are where a side edge meets a top or bottom edge,
      and the two colours split the 64 cells between them. */
  lemma MaskRelations()
    ensures Empty(And(LEFT_SQUARES, RIGHT_SQUARES))
    ensures Empty(And(TOP_SQUARES, BOTTOM_SQUARES))
    ensures Or(LEFT_SQUARES, RIGHT_SQUARES) == LEFT_AND_RIGHT_SQUARES
    ensures Or(TOP_SQUARES, BOTTOM_SQUARES) == TOP_AND_BOTTOM_SQUARES
    ensures And(LEFT_AND_RIGHT_SQUARES, TOP_AND_BOTTOM_SQUARES) == CORNER_SQUARES
    ensures Empty(And(BLACK_SQUARES, WHITE_SQUARES))
    ensures Or(BLACK_SQUARES, WHITE_SQUARES).bits == 0xFFFF_FFFF_FFFF_FFFF
  {
  }

  // ---------------------------------------------------------------------
  // CellIter

  /** The set cells of `v` with index `from` or above, in ascending order. */
  function SetBitsFrom(v: bv64, from: bv8): seq<CellIndex>
    requires from <= 64
    decreases 64 - from
  {
    if from == 64 then []
    else if Has(v, from) then [from] + SetBitsFrom(v, from + 1)
    else SetBitsFrom(v, from + 1)
  }

  ghost predicate StrictlyAscending(s: seq<CellIndex>) {
    forall j, k :: 0 <= j < k < |s| ==> s[j] < s[k]
  }

  /** `SetBitsFrom` lists set cells at or above `from`, in strictly
      ascending order. */
  lemma {:induction false} SetBitsFromSound(v: bv64, from: bv8)
    requires from <= 64
    ensures StrictlyAscending(SetBitsFrom(v, from))
    ensures forall k :: 0 <= k < |SetBitsFrom(v, from)| ==>
              from <= SetBitsFrom(v, from)[k] && Has(v, SetBitsFrom(v, from)[k])
    decreases 64 - from
  {
    if from < 64 {
      SetBitsFromSound(v, from + 1);
      if Has(v, from) {
        AscendingCons(from, SetBitsFrom(v, from + 1));
      }
    }
  }

  /** A cell below every entry of an ascending list extends it. */
  lemma AscendingCons(x: CellIndex, rest: seq<CellIndex>)
    requires StrictlyAscending(rest)
    requires forall k :: 0 <= k < |rest| ==> x + 1 <= rest[k]
    ensures StrictlyAscending([x] + rest)
  {
    var s := [x] + rest;
    forall j, k | 0 <= j < k < |s|
      ensures s[j] < s[k]
    {
      assert s[k] == rest[k - 1];
      if j > 0 {
        assert s[j] == rest[j - 1];
      }
    }
  }

  /** `SetBitsFrom` misses no set cell at or above `from`. */
  lemma {:induction false} SetBitsFromComplete(v: bv64, from: bv8, i: CellIndex)
    requires from <= i && Has(v, i)
    ensures i in SetBitsFrom(v, from)
    decreases 64 - from
  {
    if from < i {
      SetBitsFromComplete(v, from + 1, i);
    }
  }

  /** `SetBitsFrom` has one entry per set cell at or above `from`. */
  lemma {:induction false} SetBitsFromCount(v: bv64, from: bv8)
    requires from <= 64
    ensures |SetBitsFrom(v, from)| == |CellsFrom(v, from)|
    decreases 64 - from
  {
    if from < 64 {
      SetBitsFromCount(v, from + 1);
      CellsFromStep(v, from);
    } else {
      assert Indices(from) == [];
      assert CellsFrom(v, from) == {};
    }
  }

  /** The set cells from `from` on: `from` itself when set, and those above. */
  lemma CellsFromStep(v: bv64, from: CellIndex)
    ensures from !in CellsFrom(v, from + 1)
    ensures CellsFrom(v, from) ==
              if Has(v, from) then {from} + CellsFrom(v, from + 1) else CellsFrom(v, from + 1)
  {
    forall i: CellIndex
      ensures i in CellsFrom(v, from) <==> (i == from && Has(v, from)) || i in CellsFrom(v, from + 1)
    {
      InCellsFrom(v, from, i);
      InCellsFrom(v, from + 1, i);
    }
    InCellsFrom(v, from + 1, from);
  }

  /** The whole enumeration of a board: ascending, every cell in the board,
      every set cell present, and as many entries as set bits. */
  lemma UsedCellsEnumeration(v: bv64)
    ensures StrictlyAscending(SetBitsFrom(v, 0))
    ensures forall k :: 0 <= k < |SetBitsFrom(v, 0)| ==> SetBitsFrom(v, 0)[k] in Cells(v)
    ensures forall i :: i in Cells(v) ==> i in SetBitsFrom(v, 0)
    ensures |SetBitsFrom(v, 0)| == PopCount(v)
  {
    SetBitsFromSound(v, 0);
    SetBitsFromCount(v, 0);
    forall k | 0 <= k < |SetBitsFrom(v, 0)| ensures SetBitsFrom(v, 0)[k] in Cells(v) {
      InCells(v, SetBitsFrom(v, 0)[k]);
    }
    forall i | i in Cells(v) ensures i in SetBitsFrom(v, 0) {
      InCells(v, i);
      SetBitsFromComplete(v, 0, i);
    }
  }

  /** Walks the set cells of a board in ascending order. `index` is the start
      of the range `index..64` of cells not yet examined. */
  class CellIter {
    const board: BitBoard
    var index: bv8

    ghost predicate Valid()
      reads this
    {
      index <= 64
    }

    /** The cells still to be yielded, in the order they will come. */
    ghost function Remaining(): seq<CellIndex>
      reads this
      requires Valid()
    {
      SetBitsFrom(board.bits, index)
    }

    /** `CellIter::new`: a cursor over the whole range `0..64`. */
    constructor (board: BitBoard)
      ensures Valid() && this.board == board
      ensures Remaining() == SetBitsFrom(board.bits, 0)
    {
      this.board := board;
      index := 0;
    }

    /** `Iterator::next`: skips unset cells, yields the next set cell as a
        single-bit board and moves past it; yields `None` once the range is
        exhausted. */
    method Next() returns (cell: Option<MonoBitBoard>)
      requires Valid()
      modifies this
      ensures Valid()
      ensures old(Remaining()) == [] ==> cell == None && Remaining() == []
      ensures old(Remaining()) != [] ==>
                && cell.Some?
                && cell.value.bits == Bit(old(Remaining())[0])
                && Remaining() == old(Remaining())[1..]
    {
      while index < 64 && !Has(board.bits, index)
        invariant index <= 64
        invariant SetBitsFrom(board.bits, index) == old(SetBitsFrom(board.bits, index))
        decreases 64 - index
      {
        index := index + 1;
      }
      if index == 64 {
        cell := None;
      } else {
        var found := index;
        index := index + 1;
        BitIsSingle(found);
        var single := New(Bit(found));
        cell := Some(single.value);
      }
    }
  }

  /** `used_cells().collect()`: draining a fresh cursor yields one
      single-bit board per set cell of the board, in ascending order of
      cell, as many as the popcount, and then `None`. */
  method CollectUsedCells(b: BitBoard) returns (yielded: seq<MonoBitBoard>)
    ensures |yielded| == |SetBitsFrom(b.bits, 0)| == PopCount(b.bits)
    ensures forall k :: 0 <= k < |yielded| ==> yielded[k].bits == Bit(SetBitsFrom(b.bits, 0)[k])
  {
    UsedCellsEnumeration(b.bits);
    var iter := new CellIter(b);
    yielded := [];
    while true
      invariant iter.Valid() && iter.board == b
      invariant |yielded| <= |SetBitsFrom(b.bits, 0)|
      invariant iter.Remaining() == SetBitsFrom(b.bits, 0)[|yielded|..]
      invariant forall k :: 0 <= k < |yielded| ==> yielded[k].bits == Bit(SetBitsFrom(b.bits, 0)[k])
      decreases |iter.Remaining()|
    {
      var next := iter.Next();
      if next.None? {
        break;
      }
      yielded := yielded + [next.value];
    }
  }
}
