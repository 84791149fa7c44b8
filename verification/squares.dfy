/** The 32 playable squares, numbered 1..32 in the conventional checkers
    order, their fixed single-bit cells, and their conversions from numbers,
    text and single-bit boards. */
module Squares {
  import opened Wrappers
  import opened Errors
  import opened BitBoards
  import Decimal

  /** A playable square; its number is the position in this declaration. */
  datatype Square =
    | One | Two | Three | Four
    | Five | Six | Seven | Eight
    | Nine | Ten | Eleven | Twelve
    | Thirteen | Fourteen | Fifteen | Sixteen
    | Seventeen | Eighteen | Nineteen | Twenty
    | TwentyOne | TwentyTwo | TwentyThree | TwentyFour
    | TwentyFive | TwentySix | TwentySeven | TwentyEight
    | TwentyNine | Thirty | ThirtyOne | ThirtyTwo

  /** An unsigned 8-bit value. */
  type U8 = n: nat | n < 256

  /** The square's number: `Square::to_number` and `Square::as_number`.
      Every number fits in a `u8`, so both conversions are total. */
  function Number(s: Square): (n: U8)
    ensures 1 <= n <= 32
  {
    match s
    case One => 1
    case Two => 2
    case Three => 3
    case Four => 4
    case Five => 5
    case Six => 6
    case Seven => 7
    case Eight => 8
    case Nine => 9
    case Ten => 10
    case Eleven => 11
    case Twelve => 12
    case Thirteen => 13
    case Fourteen => 14
    case Fifteen => 15
    case Sixteen => 16
    case Seventeen => 17
    case Eighteen => 18
    case Nineteen => 19
    case Twenty => 20
    case TwentyOne => 21
    case TwentyTwo => 22
    case TwentyThree => 23
    case TwentyFour => 24
    case TwentyFive => 25
    case TwentySix => 26
    case TwentySeven => 27
    case TwentyEight => 28
    case TwentyNine => 29
    case Thirty => 30
    case ThirtyOne => 31
    case ThirtyTwo => 32
  }

  /** `Square::try_from(u8)`: the square whose number is `n`, found by
      comparing `n` with each discriminant in turn (written here as two
      halves of sixteen comparisons), or `OutOfRange` when none matches. */
  function FromU8(n: U8): (r: Result<Square, NotationError>)
    ensures r.Ok? <==> 1 <= n <= 32
    ensures r.Ok? ==> Number(r.value) == n
    ensures r.Err? ==> r.error == OutOfRange
  {
    if 1 <= n <= 16 then Ok(LowerHalf(n))
    else if 17 <= n <= 32 then Ok(UpperHalf(n))
    else Err(OutOfRange)
  }

  /** The comparisons with discriminants 1 to 16. */
  function LowerHalf(n: U8): (s: Square)
    requires 1 <= n <= 16
    ensures Number(s) == n
  {
    if n == 1 then One
    else if n == 2 then Two
    else if n == 3 then Three
    else if n == 4 then Four
    else if n == 5 then Five
    else if n == 6 then Six
    else if n == 7 then Seven
    else if n == 8 then Eight
    else if n == 9 then Nine
    else if n == 10 then Ten
    else if n == 11 then Eleven
    else if n == 12 then Twelve
    else if n == 13 then Thirteen
    else if n == 14 then Fourteen
    else if n == 15 then Fifteen
    else Sixteen
  }

  /** The comparisons with discriminants 17 to 32. */
  function UpperHalf(n: U8): (s: Square)
    requires 17 <= n <= 32
    ensures Number(s) == n
  {
    if n == 17 then Seventeen
    else if n == 18 then Eighteen
    else if n == 19 then Nineteen
    else if n == 20 then Twenty
    else if n == 21 then TwentyOne
    else if n == 22 then TwentyTwo
    else if n == 23 then TwentyThree
    else if n == 24 then TwentyFour
    else if n == 25 then TwentyFive
    else if n == 26 then TwentySix
    else if n == 27 then TwentySeven
    else if n == 28 then TwentyEight
    else if n == 29 then TwentyNine
    else if n == 30 then Thirty
    else if n == 31 then ThirtyOne
    else ThirtyTwo
  }

  /** Converting a square to its number and back gives the square again,
      so no two squares share a number. */
  lemma NumberRoundTrip(s: Square)
    ensures FromU8(Number(s)) == Ok(s)
  {
    match s
    case One =>
    case Two =>
    case Three =>
    case Four =>
    case Five =>
    case Six =>
    case Seven =>
    case Eight =>
    case Nine =>
    case Ten =>
    case Eleven =>
    case Twelve =>
    case Thirteen =>
    case Fourteen =>
    case Fifteen =>
    case Sixteen =>
    case Seventeen =>
    case Eighteen =>
    case Nineteen =>
    case Twenty =>
    case TwentyOne =>
    case TwentyTwo =>
    case TwentyThree =>
    case TwentyFour =>
    case TwentyFive =>
    case TwentySix =>
    case TwentySeven =>
    case TwentyEight =>
    case TwentyNine =>
    case Thirty =>
    case ThirtyOne =>
    case ThirtyTwo =>
  }

  /** `Square::try_from(&str)`: text that is not a `u8` is `InvalidFormat`;
      a `u8` outside 1..32 is `OutOfRange`; otherwise the square with that
      number. */
  function FromText(text: string): (r: Result<Square, NotationError>)
    ensures Decimal.ParseU8(text).None? ==> r == Err(InvalidFormat)
    ensures Decimal.ParseU8(text).Some? ==>
              (r.Ok? <==> 1 <= Decimal.ParseU8(text).value <= 32)
    ensures r.Ok? ==> Decimal.ParseU8(text) == Some(Number(r.value))
    ensures r.Err? && Decimal.ParseU8(text).Some? ==> r.error == OutOfRange
  {
    match Decimal.ParseU8(text)
    case None => Err(InvalidFormat)
    case Some(n) => FromU8(n)
  }

  // The text and the last square are parameters pinned by `requires`, so the
  // proof goes through the table and round-trip lemmas rather than unrolling
  // the conversions on literal arguments.
  /** Conversions of the first and last squares: number 1 and the text
      "1" are square One, 0 is out of range, and the two ends of the table
      are bits 62 and 1. */
  lemma SquareExamples(text: string, last: Square)
    requires text == "1" && last == ThirtyTwo
    ensures FromU8(1) == Ok(One) && Number(One) == 1
    ensures FromU8(0) == Err(OutOfRange)
    ensures FromText(text) == Ok(One)
    ensures ToBitBoard(One).bits == 0x4000_0000_0000_0000
    ensures ToBitBoard(last).bits == 0x2
  {
    Decimal.ParseDecimalText(1);
    assert Decimal.DecimalText(1) == text;
  }

  /** `Square::iter` in `position.rs`: every square, in increasing order. */
  const SQUARES: seq<Square> := [
    One, Two, Three, Four,
    Five, Six, Seven, Eight,
    Nine, Ten, Eleven, Twelve,
    Thirteen, Fourteen, Fifteen, Sixteen,
    Seventeen, Eighteen, Nineteen, Twenty,
    TwentyOne, TwentyTwo, TwentyThree, TwentyFour,
    TwentyFive, TwentySix, TwentySeven, TwentyEight,
    TwentyNine, Thirty, ThirtyOne, ThirtyTwo
  ]

  /** `Square::iter` in `square.rs`, as written: its last entry repeats
      `TwentyTwo` where `ThirtyTwo` belongs. */
  const LEGACY_SQUARES: seq<Square> := [
    One, Two, Three, Four,
    Five, Six, Seven, Eight,
    Nine, Ten, Eleven, Twelve,
    Thirteen, Fourteen, Fifteen, Sixteen,
    Seventeen, Eighteen, Nineteen, Twenty,
    TwentyOne, TwentyTwo, TwentyThree, TwentyFour,
    TwentyFive, TwentySix, TwentySeven, TwentyEight,
    TwentyNine, Thirty, ThirtyOne, TwentyTwo
  ]

  /** The raw word `Square::to_bitboard` assigns to each square. */
  function TableBits(s: Square): bv64 {
    match s
    case One => 0x4000000000000000
    case Two => 0x1000000000000000
    case Three => 0x400000000000000
    case Four => 0x100000000000000
    case Five => 0x80000000000000
    case Six => 0x20000000000000
    case Seven => 0x8000000000000
    case Eight => 0x2000000000000
    case Nine => 0x400000000000
    case Ten => 0x100000000000
    case Eleven => 0x40000000000
    case Twelve => 0x10000000000
    case Thirteen => 0x8000000000
    case Fourteen => 0x2000000000
    case Fifteen => 0x800000000
    case Sixteen => 0x200000000
    case Seventeen => 0x40000000
    case Eighteen => 0x10000000
    case Nineteen => 0x4000000
    case Twenty => 0x1000000
    case TwentyOne => 0x800000
    case TwentyTwo => 0x200000
    case TwentyThree => 0x80000
    case TwentyFour => 0x20000
    case TwentyFive => 0x4000
    case TwentySix => 0x1000
    case TwentySeven => 0x400
    case TwentyEight => 0x100
    case TwentyNine => 0x80
    case Thirty => 0x20
    case ThirtyOne => 0x8
    case ThirtyTwo => 0x2
  }

  /** The number of a square as a byte, the width the cell arithmetic
      works in. */
  function NumberByte(s: Square): (b: bv8)
    ensures 1 <= b <= 32 && b as int == Number(s)
  {
    Number(s) as bv8
  }

  /** The cell of square `n`: counting rows `r = (n - 1) / 4` from the top
      and `c = (n - 1) % 4` within a row, the square lies `8r + 2c` cells
      below the top-left cell 63, one cell further on rows with even `r`. */
  function CellOfNumber(n: bv8): CellIndex
    requires 1 <= n <= 32
  {
    var r := (n - 1) / 4;
    var c := (n - 1) % 4;
    63 - 8 * r - 2 * c - (if r % 2 == 0 then 1 else 0)
  }

  /** The cell of a square, by the closed form. */
  function CellOf(s: Square): CellIndex {
    CellOfNumber(NumberByte(s))
  }

  /** The hand-written table follows the closed form. */
  lemma {:induction false} TableMatchesClosedForm(s: Square)
    ensures TableBits(s) == Bit(CellOf(s))
  {
    match s
    case One => EntryOne();
    case Two => EntryTwo();
    case Three => EntryThree();
    case Four => EntryFour();
    case Five => EntryFive();
    case Six => EntrySix();
    case Seven => EntrySeven();
    case Eight => EntryEight();
    case Nine => EntryNine();
    case Ten => EntryTen();
    case Eleven => EntryEleven();
    case Twelve => EntryTwelve();
    case Thirteen => EntryThirteen();
    case Fourteen => EntryFourteen();
    case Fifteen => EntryFifteen();
    case Sixteen => EntrySixteen();
    case Seventeen => EntrySeventeen();
    case Eighteen => EntryEighteen();
    case Nineteen => EntryNineteen();
    case Twenty => EntryTwenty();
    case TwentyOne => EntryTwentyOne();
    case TwentyTwo => EntryTwentyTwo();
    case TwentyThree => EntryTwentyThree();
    case TwentyFour => EntryTwentyFour();
    case TwentyFive => EntryTwentyFive();
    case TwentySix => EntryTwentySix();
    case TwentySeven => EntryTwentySeven();
    case TwentyEight => EntryTwentyEight();
    case TwentyNine => EntryTwentyNine();
    case Thirty => EntryThirty();
    case ThirtyOne => EntryThirtyOne();
    case ThirtyTwo => EntryThirtyTwo();
  }

  // One lemma per table entry keeps each computation to a single square.

  lemma EntryOne()
    ensures TableBits(One) == Bit(CellOf(One))
  {
  }

  lemma EntryTwo()
    ensures TableBits(Two) == Bit(CellOf(Two))
  {
  }

  lemma EntryThree()
    ensures TableBits(Three) == Bit(CellOf(Three))
  {
  }

  lemma EntryFour()
    ensures TableBits(Four) == Bit(CellOf(Four))
  {
  }

  lemma EntryFive()
    ensures TableBits(Five) == Bit(CellOf(Five))
  {
  }

  lemma EntrySix()
    ensures TableBits(Six) == Bit(CellOf(Six))
  {
  }

  lemma EntrySeven()
    ensures TableBits(Seven) == Bit(CellOf(Seven))
  {
  }

  lemma EntryEight()
    ensures TableBits(Eight) == Bit(CellOf(Eight))
  {
  }

  lemma EntryNine()
    ensures TableBits(Nine) == Bit(CellOf(Nine))
  {
  }

  lemma EntryTen()
    ensures TableBits(Ten) == Bit(CellOf(Ten))
  {
  }

  lemma EntryEleven()
    ensures TableBits(Eleven) == Bit(CellOf(Eleven))
  {
  }

  lemma EntryTwelve()
    ensures TableBits(Twelve) == Bit(CellOf(Twelve))
  {
  }

  lemma EntryThirteen()
    ensures TableBits(Thirteen) == Bit(CellOf(Thirteen))
  {
  }

  lemma EntryFourteen()
    ensures TableBits(Fourteen) == Bit(CellOf(Fourteen))
  {
  }

  lemma EntryFifteen()
    ensures TableBits(Fifteen) == Bit(CellOf(Fifteen))
  {
  }

  lemma EntrySixteen()
    ensures TableBits(Sixteen) == Bit(CellOf(Sixteen))
  {
  }

  lemma EntrySeventeen()
    ensures TableBits(Seventeen) == Bit(CellOf(Seventeen))
  {
  }

  lemma EntryEighteen()
    ensures TableBits(Eighteen) == Bit(CellOf(Eighteen))
  {
  }

  lemma EntryNineteen()
    ensures TableBits(Nineteen) == Bit(CellOf(Nineteen))
  {
  }

  lemma EntryTwenty()
    ensures TableBits(Twenty) == Bit(CellOf(Twenty))
  {
  }

  lemma EntryTwentyOne()
    ensures TableBits(TwentyOne) == Bit(CellOf(TwentyOne))
  {
  }

  lemma EntryTwentyTwo()
    ensures TableBits(TwentyTwo) == Bit(CellOf(TwentyTwo))
  {
  }

  lemma EntryTwentyThree()
    ensures TableBits(TwentyThree) == Bit(CellOf(TwentyThree))
  {
  }

  lemma EntryTwentyFour()
    ensures TableBits(TwentyFour) == Bit(CellOf(TwentyFour))
  {
  }

  lemma EntryTwentyFive()
    ensures TableBits(TwentyFive) == Bit(CellOf(TwentyFive))
  {
  }

  lemma EntryTwentySix()
    ensures TableBits(TwentySix) == Bit(CellOf(TwentySix))
  {
  }

  lemma EntryTwentySeven()
    ensures TableBits(TwentySeven) == Bit(CellOf(TwentySeven))
  {
  }

  lemma EntryTwentyEight()
    ensures TableBits(TwentyEight) == Bit(CellOf(TwentyEight))
  {
  }

  lemma EntryTwentyNine()
    ensures TableBits(TwentyNine) == Bit(CellOf(TwentyNine))
  {
  }

  lemma EntryThirty()
    ensures TableBits(Thirty) == Bit(CellOf(Thirty))
  {
  }

  lemma EntryThirtyOne()
    ensures TableBits(ThirtyOne) == Bit(CellOf(ThirtyOne))
  {
  }

  lemma EntryThirtyTwo()
    ensures TableBits(ThirtyTwo) == Bit(CellOf(ThirtyTwo))
  {
  }

  /** `Square::to_bitboard`: the table entry made a single-bit board; the
      `unwrap` never fails because every entry is one bit, the one the
      closed form names. */
  function ToBitBoard(s: Square): (m: MonoBitBoard)
    ensures m.bits == TableBits(s)
    ensures m.bits == Bit(CellOf(s))
  {
    TableMatchesClosedForm(s);
    New(TableBits(s)).value
  }

  /** No two squares share a cell. */
  lemma CellOfInjective(s: Square, t: Square)
    ensures CellOf(s) == CellOf(t) ==> s == t
  {
    CellOfNumberInjective(NumberByte(s), NumberByte(t));
    NumberInjective(s, t);
  }

  /** No two squares share a number. */
  lemma NumberInjective(s: Square, t: Square)
    ensures Number(s) == Number(t) ==> s == t
  {
    NumberRoundTrip(s);
    NumberRoundTrip(t);
  }

  /** The closed form sends distinct numbers to distinct cells. */
  lemma {:induction false} CellOfNumberInjective(n: bv8, k: bv8)
    requires 1 <= n <= 32 && 1 <= k <= 32
    ensures CellOfNumber(n) == CellOfNumber(k) ==> n == k
  {
  }

  /** Distinct squares have distinct single-bit boards. */
  lemma ToBitBoardInjective(s: Square, t: Square)
    ensures ToBitBoard(s) == ToBitBoard(t) ==> s == t
  {
    BitHas(CellOf(s), CellOf(t));
    CellOfInjective(s, t);
  }

  /** `SQUARES` lists the squares in increasing number, 32 in all. */
  lemma SquaresInOrder()
    ensures |SQUARES| == 32
    ensures forall k :: 0 <= k < |SQUARES| ==> Number(SQUARES[k]) == k + 1
  {
    SquaresInOrderPart1();
    SquaresInOrderPart2();
    SquaresInOrderPart3();
    SquaresInOrderPart4();
  }

  // Eight entries of `SQUARES` at a time.

  lemma SquaresInOrderPart1()
    ensures forall k :: 0 <= k < 8 ==> Number(SQUARES[k]) == k + 1
  {
  }

  lemma SquaresInOrderPart2()
    ensures forall k :: 8 <= k < 16 ==> Number(SQUARES[k]) == k + 1
  {
  }

  lemma SquaresInOrderPart3()
    ensures forall k :: 16 <= k < 24 ==> Number(SQUARES[k]) == k + 1
  {
  }

  lemma SquaresInOrderPart4()
    ensures forall k :: 24 <= k < 32 ==> Number(SQUARES[k]) == k + 1
  {
  }

  /** Every square occurs in `SQUARES`: at the index one below its number. */
  lemma AllSquaresListed()
    ensures forall s: Square :: s in SQUARES
  {
    SquaresInOrder();
    forall s: Square
      ensures s in SQUARES
    {
      var k := Number(s) - 1;
      NumberRoundTrip(s);
      NumberRoundTrip(SQUARES[k]);
      assert SQUARES[k] == s;
    }
  }

  /** The iteration order of `square.rs`, as written: still 32 entries, but
      `ThirtyTwo` is never produced and `TwentyTwo` is produced twice. */
  lemma LegacySquaresRepeat()
    ensures |LEGACY_SQUARES| == 32
    ensures LEGACY_SQUARES[..31] == SQUARES[..31]
    ensures LEGACY_SQUARES[21] == LEGACY_SQUARES[31] == TwentyTwo
    ensures ThirtyTwo !in LEGACY_SQUARES
  {
  }

  /** The error of `Square::try_from(MonoBitBoard)`. */
  datatype SquareConversionError = SquareConversionError

  /** The `find` over an iteration order: the first square in `squares`
      whose board is `m`. */
  function FindSquare(squares: seq<Square>, m: MonoBitBoard): (r: Option<Square>)
    ensures r.Some? ==> r.value in squares && ToBitBoard(r.value) == m
    ensures r.None? <==> forall s :: s in squares ==> ToBitBoard(s) != m
  {
    if squares == [] then None
    else if ToBitBoard(squares[0]) == m then Some(squares[0])
    else FindSquare(squares[1..], m)
  }

  /** `Square::try_from(MonoBitBoard)`: the square whose table entry is the
      given board, or `SquareConversionError` when no square has it. */
  function FromBitBoard(m: MonoBitBoard): (r: Result<Square, SquareConversionError>)
    ensures r.Ok? ==> ToBitBoard(r.value) == m
    ensures r.Err? <==> forall s: Square :: ToBitBoard(s) != m
  {
    AllSquaresListed();
    match FindSquare(SQUARES, m)
    case Some(s) => Ok(s)
    case None => Err(SquareConversionError)
  }

  /** Converting a square to its board and back gives the square. */
  lemma BitBoardRoundTrip(s: Square)
    ensures FromBitBoard(ToBitBoard(s)) == Ok(s)
  {
    var m := ToBitBoard(s);
    var r := FromBitBoard(m);
    assert r.Ok? by {
      assert ToBitBoard(s) == m;
    }
    ToBitBoardInjective(r.value, s);
  }

  /** The lowest cell holds no square, so its board is rejected. */
  lemma LowestCellRejected()
    ensures FromBitBoard(MonoBitBoard(1)).Err?
  {
    forall s: Square
      ensures ToBitBoard(s) != MonoBitBoard(1)
    {
      TableMatchesClosedForm(s);
    }
  }

  /** The dark cells, which hold the 32 playable squares, and the light
      cells, which hold none. */
  const DARK_SQUARES := BitBoard(0x55AA55AA55AA55AA)
  const LIGHT_SQUARES := BitBoard(0xAA55AA55AA55AA55)

  /** The number of the square on dark cell `i`, reading the closed form
      backwards: row `(63 - i) / 8`, and within it every second cell. */
  function NumberAtCell(i: CellIndex): bv8 {
    var row := (63 - i) / 8;
    var col := ((63 - i) % 8) / 2;
    4 * row + col + 1
  }

  /** The closed form and its reverse reading agree on every dark cell,
      and every square's cell is dark and not light. */
  lemma {:induction false} DarkCellNumbers(i: CellIndex)
    requires Has(DARK_SQUARES.bits, i)
    ensures 1 <= NumberAtCell(i) <= 32 && CellOfNumber(NumberAtCell(i)) == i
  {
  }

  lemma {:induction false} NumberOnDarkCell(n: bv8)
    requires 1 <= n <= 32
    ensures Has(DARK_SQUARES.bits, CellOfNumber(n))
    ensures !Has(LIGHT_SQUARES.bits, CellOfNumber(n))
  {
  }

  /** The square on dark cell `i`. */
  function SquareAtCell(i: CellIndex): Square
    requires Has(DARK_SQUARES.bits, i)
  {
    DarkCellNumbers(i);
    FromU8(NumberAtCell(i) as int).value
  }

  /** Every dark cell holds the square `SquareAtCell` names. */
  lemma {:induction false} DarkCellHoldsSquare(i: CellIndex)
    requires Has(DARK_SQUARES.bits, i)
    ensures CellOf(SquareAtCell(i)) == i
  {
    DarkCellNumbers(i);
    assert NumberByte(SquareAtCell(i)) == NumberAtCell(i);
  }

  /** Square One lies in `BLACK_SQUARES` and square Five in `WHITE_SQUARES`:
      the colour masks as written stripe columns rather than alternate like
      a checkerboard, so the playable squares fall in both. */
  lemma ColourMasksSplitSquares()
    ensures Contains(BLACK_SQUARES, ToBitBoard(One))
    ensures !Contains(BLACK_SQUARES, ToBitBoard(Five))
    ensures Contains(WHITE_SQUARES, ToBitBoard(Five))
  {
    assert CellOf(One) == 62;
    assert CellOf(Five) == 55;
    ContainsCell(BLACK_SQUARES, One);
    ContainsCell(BLACK_SQUARES, Five);
    ContainsCell(WHITE_SQUARES, Five);
  }

  /** A board contains a square's board exactly when it has the square's
      cell. */
  lemma ContainsCell(b: BitBoard, s: Square)
    ensures Contains(b, ToBitBoard(s)) <==> Has(b.bits, CellOf(s))
  {
    var m := ToBitBoard(s);
    ContainsIndex(b, m);
    CellsOfBit(CellOf(s));
    InCells(b.bits, CellOf(s));
  }

  /** Every square lies on a dark cell and on no light cell. */
  lemma SquareIsDark(s: Square)
    ensures Contains(DARK_SQUARES, ToBitBoard(s))
    ensures !Contains(LIGHT_SQUARES, ToBitBoard(s))
  {
    ContainsCell(DARK_SQUARES, s);
    ContainsCell(LIGHT_SQUARES, s);
    NumberOnDarkCell(NumberByte(s));
  }

  /** Dark and light cells partition the board, and a single-bit board
      names a square exactly when its cell is dark. */
  lemma FromBitBoardIffDark(m: MonoBitBoard)
    ensures Empty(And(DARK_SQUARES, LIGHT_SQUARES))
    ensures Or(DARK_SQUARES, LIGHT_SQUARES).bits == 0xFFFF_FFFF_FFFF_FFFF
    ensures FromBitBoard(m).Ok? <==> Contains(DARK_SQUARES, m)
  {
    var r := FromBitBoard(m);
    if r.Ok? {
      SquareIsDark(r.value);
    }
    if Contains(DARK_SQUARES, m) {
      var i := IndexOf(m);
      ContainsIndex(DARK_SQUARES, m);
      InCells(DARK_SQUARES.bits, i);
      var s := SquareAtCell(i);
      DarkCellHoldsSquare(i);
      assert ToBitBoard(s) == m;
    }
  }
}
