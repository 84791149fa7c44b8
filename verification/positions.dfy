/** Where a single cell lies relative to the edges of the board: `Position`
    and `Position::from` in `position.rs`. */
module Positions {
  import opened BitBoards
  import opened Squares

  datatype Position =
    | Bottom | Left | BottomLeft | BottomRight | Top | Right | TopRight | TopLeft | Interior
  {
    /** The edges a position touches. */
    predicate OnLeft() { this == Left || this == BottomLeft || this == TopLeft }
    predicate OnRight() { this == Right || this == BottomRight || this == TopRight }
    predicate OnTop() { this == Top || this == TopLeft || this == TopRight }
    predicate OnBottom() { this == Bottom || this == BottomLeft || this == BottomRight }
  }

  /** A single cell is never on two opposite edges. */
  lemma OppositeEdgesExclusive(m: MonoBitBoard)
    ensures !(Contains(LEFT_SQUARES, m) && Contains(RIGHT_SQUARES, m))
    ensures !(Contains(TOP_SQUARES, m) && Contains(BOTTOM_SQUARES, m))
  {
    MaskRelations();
    var i := IndexOf(m);
    ContainsIndex(LEFT_SQUARES, m);
    ContainsIndex(RIGHT_SQUARES, m);
    ContainsIndex(TOP_SQUARES, m);
    ContainsIndex(BOTTOM_SQUARES, m);
    AndCells(LEFT_SQUARES.bits, RIGHT_SQUARES.bits);
    AndCells(TOP_SQUARES.bits, BOTTOM_SQUARES.bits);
    ZeroIffNoCells(And(LEFT_SQUARES, RIGHT_SQUARES).bits);
    ZeroIffNoCells(And(TOP_SQUARES, BOTTOM_SQUARES).bits);
  }

  /** `Position::from`: the position is read off the four edge masks, and
      it touches exactly the edges whose masks contain the cell. */
  function PositionOf(m: MonoBitBoard): (p: Position)
    ensures p.OnLeft() <==> Contains(LEFT_SQUARES, m)
    ensures p.OnRight() <==> Contains(RIGHT_SQUARES, m)
    ensures p.OnTop() <==> Contains(TOP_SQUARES, m)
    ensures p.OnBottom() <==> Contains(BOTTOM_SQUARES, m)
  {
    OppositeEdgesExclusive(m);
    PositionOfEdges(
      Contains(LEFT_SQUARES, m), Contains(RIGHT_SQUARES, m),
      Contains(TOP_SQUARES, m), Contains(BOTTOM_SQUARES, m))
  }

  /** The `match` of `Position::from` on the four edge tests. Every
      combination without two opposite edges has its own arm, so the
      panicking arm is never reached. */
  function PositionOfEdges(left: bool, right: bool, top: bool, bottom: bool): (p: Position)
    requires !(left && right) && !(top && bottom)
    ensures p.OnLeft() <==> left
    ensures p.OnRight() <==> right
    ensures p.OnTop() <==> top
    ensures p.OnBottom() <==> bottom
  {
    match (left, right, top, bottom)
    case (false, false, false, true) => Bottom
    case (true, false, false, false) => Left
    case (true, false, false, true) => BottomLeft
    case (false, true, false, true) => BottomRight
    case (false, false, true, false) => Top
    case (false, true, false, false) => Right
    case (false, true, true, false) => TopRight
    case (true, false, true, false) => TopLeft
    case (false, false, false, false) => Interior
    case _ => assert false; Interior
  }

  /** The edges of a square's position are read off the square's cell. */
  lemma SquareEdges(s: Square)
    ensures PositionOf(ToBitBoard(s)).OnLeft() <==> Has(LEFT_SQUARES.bits, CellOf(s))
    ensures PositionOf(ToBitBoard(s)).OnRight() <==> Has(RIGHT_SQUARES.bits, CellOf(s))
    ensures PositionOf(ToBitBoard(s)).OnTop() <==> Has(TOP_SQUARES.bits, CellOf(s))
    ensures PositionOf(ToBitBoard(s)).OnBottom() <==> Has(BOTTOM_SQUARES.bits, CellOf(s))
  {
    ContainsCell(LEFT_SQUARES, s);
    ContainsCell(RIGHT_SQUARES, s);
    ContainsCell(TOP_SQUARES, s);
    ContainsCell(BOTTOM_SQUARES, s);
  }

  /** The corner cells top-left and bottom-right are light, so no square
      has either of those positions. */
  lemma NoSquareInLightCorner(s: Square)
    ensures PositionOf(ToBitBoard(s)) != TopLeft
    ensures PositionOf(ToBitBoard(s)) != BottomRight
  {
    var i := CellOf(s);
    SquareEdges(s);
    SquareIsDark(s);
    ContainsCell(DARK_SQUARES, s);
    AndBit(DARK_SQUARES.bits, LEFT_SQUARES.bits, i);
    AndBit(DARK_SQUARES.bits & LEFT_SQUARES.bits, TOP_SQUARES.bits, i);
    AndBit(DARK_SQUARES.bits, RIGHT_SQUARES.bits, i);
    AndBit(DARK_SQUARES.bits & RIGHT_SQUARES.bits, BOTTOM_SQUARES.bits, i);
  }

  /** The position of every square, by its number: squares 1 to 4 are on
      the top edge, 29 to 32 on the bottom edge, 5, 13, 21 and 29 on the
      left edge and 4, 12, 20 and 28 on the right edge. */
  lemma SquarePosition(s: Square)
    ensures PositionOf(ToBitBoard(s)).OnTop() <==> Number(s) <= 4
    ensures PositionOf(ToBitBoard(s)).OnBottom() <==> Number(s) >= 29
    ensures PositionOf(ToBitBoard(s)).OnLeft() <==> Number(s) in {5, 13, 21, 29}
    ensures PositionOf(ToBitBoard(s)).OnRight() <==> Number(s) in {4, 12, 20, 28}
  {
    SquareEdges(s);
    EdgesOfSquare(s);
  }

  /** Every square's edges, by its number. */
  lemma EdgesOfSquare(s: Square)
    ensures EdgesByNumber(s)
  {
    EdgesOfNumber(NumberByte(s));
  }

  /** Whether a square's cell is on each edge, by its number. */
  predicate EdgesByNumber(s: Square) {
    var n, i := Number(s), CellOf(s);
    && (Has(TOP_SQUARES.bits, i) <==> n <= 4)
    && (Has(BOTTOM_SQUARES.bits, i) <==> n >= 29)
    && (Has(LEFT_SQUARES.bits, i) <==> n in {5, 13, 21, 29})
    && (Has(RIGHT_SQUARES.bits, i) <==> n in {4, 12, 20, 28})
  }

  /** The edges of the cell of square `n`, worked out on the byte. */
  lemma {:induction false} EdgesOfNumber(n: bv8)
    requires 1 <= n <= 32
    ensures Has(TOP_SQUARES.bits, CellOfNumber(n)) <==> n as int <= 4
    ensures Has(BOTTOM_SQUARES.bits, CellOfNumber(n)) <==> n as int >= 29
    ensures Has(LEFT_SQUARES.bits, CellOfNumber(n)) <==> n as int in {5, 13, 21, 29}
    ensures Has(RIGHT_SQUARES.bits, CellOfNumber(n)) <==> n as int in {4, 12, 20, 28}
  {
  }
}
