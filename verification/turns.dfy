/** A turn: the moves of one player's turn, read from comma-separated
    notation (`turn.rs`). */
module Turns {
  import opened Wrappers
  import opened Errors
  import opened Squares
  import opened Moves
  import Decimal

  /** The moves of a turn, in the order they are made. */
  datatype Turn = Turn(moves: seq<Move>)

  /** `Turn::new`: the turn holds the given moves unchanged. */
  function NewTurn(moves: seq<Move>): (t: Turn)
    ensures t.moves == moves
  {
    Turn(moves)
  }

  // ---------------------------------------------------------------------
  // `str::split(',')`
  // ---------------------------------------------------------------------

  /** The segments joined back together with commas between them. */
  function Join(segments: seq<string>): string
    requires |segments| >= 1
  {
    if |segments| == 1 then segments[0]
    else segments[0] + [','] + Join(segments[1..])
  }

  predicate NoComma(s: string) {
    forall i :: 0 <= i < |s| ==> s[i] != ','
  }

  /** The index of the first comma in `s`, or `|s|` when there is none. */
  function FirstComma(s: string): (k: nat)
    ensures k <= |s|
    ensures NoComma(s[..k])
    ensures k < |s| ==> s[k] == ','
  {
    if s == [] || s[0] == ',' then 0
    else
      var k := 1 + FirstComma(s[1..]);
      assert s[..k] == [s[0]] + s[1..][..k - 1];
      k
  }

  /** `text.split(',')`: the maximal comma-free pieces of the text, in
      order; there is always at least one, possibly empty. */
  function Split(text: string): (r: seq<string>)
    ensures |r| >= 1
    ensures forall k :: 0 <= k < |r| ==> NoComma(r[k])
    ensures Join(r) == text
    decreases |text|
  {
    var k := FirstComma(text);
    if k == |text| then
      assert text[..k] == text;
      [text]
    else
      var rest := Split(text[k + 1..]);
      assert text == text[..k] + [','] + text[k + 1..];
      [text[..k]] + rest
  }

  /** The first comma of a join is the end of its first segment. */
  lemma {:induction false} FirstCommaOfJoin(a: string, b: string)
    requires NoComma(a)
    ensures FirstComma(a + [','] + b) == |a|
  {
    if a != [] {
      assert (a + [','] + b)[1..] == a[1..] + [','] + b;
      FirstCommaOfJoin(a[1..], b);
    }
  }

  /** A text without commas has the text itself as its first comma index. */
  lemma {:induction false} FirstCommaOfNoComma(a: string)
    requires NoComma(a)
    ensures FirstComma(a) == |a|
  {
    if a != [] {
      FirstCommaOfNoComma(a[1..]);
    }
  }

  /** Splitting comma-free segments joined by commas gives them back. */
  lemma {:induction false} SplitJoin(segments: seq<string>)
    requires |segments| >= 1
    requires forall k :: 0 <= k < |segments| ==> NoComma(segments[k])
    ensures Split(Join(segments)) == segments
    decreases |segments|
  {
    if |segments| == 1 {
      FirstCommaOfNoComma(segments[0]);
    } else {
      var text := Join(segments);
      FirstCommaOfJoin(segments[0], Join(segments[1..]));
      assert text[..|segments[0]|] == segments[0];
      assert text[|segments[0]| + 1..] == Join(segments[1..]);
      SplitJoin(segments[1..]);
      assert segments == [segments[0]] + segments[1..];
    }
  }

  // ---------------------------------------------------------------------
  // Parsing a turn
  // ---------------------------------------------------------------------

  /** `map(Move::try_from).collect()`: the segments are read in order,
      one move each, and reading stops at the first one that fails. */
  function ParseMoves(segments: seq<string>): (r: Result<seq<Move>, NotationError>)
    ensures r.Ok? <==> forall k :: 0 <= k < |segments| ==> FromNotation(segments[k]).Ok?
    ensures r.Ok? ==> |r.value| == |segments|
    ensures r.Ok? ==> forall k :: 0 <= k < |segments| ==> r.value[k] == FromNotation(segments[k]).value
  {
    if segments == [] then Ok([])
    else
      var m :- FromNotation(segments[0]);
      var rest :- ParseMoves(segments[1..]);
      Ok([m] + rest)
  }

  /** The leftmost segment that is not a move decides the error, whatever
      the segments after it hold. */
  lemma {:induction false} LeftmostErrorWins(segments: seq<string>, k: nat)
    requires k < |segments| && FromNotation(segments[k]).Err?
    requires forall j :: 0 <= j < k ==> FromNotation(segments[j]).Ok?
    ensures ParseMoves(segments) == Err(FromNotation(segments[k]).error)
  {
    if k > 0 {
      var rest := segments[1..];
      LeftmostErrorWins(rest, k - 1);
      assert FromNotation(segments[0]).Ok?;
    }
  }

  /** `Turn::try_from(&str)`: one move per comma-separated segment, in text
      order, or an error as soon as a segment is not a move. */
  function FromTurnNotation(text: string): (r: Result<Turn, NotationError>)
    ensures r.Ok? ==> |r.value.moves| == |Split(text)| >= 1
    ensures r.Ok? ==> forall k :: 0 <= k < |Split(text)| ==>
                        FromNotation(Split(text)[k]) == Ok(r.value.moves[k])
    ensures r.Ok? <==> forall k :: 0 <= k < |Split(text)| ==> FromNotation(Split(text)[k]).Ok?
  {
    var segments := Split(text);
    match ParseMoves(segments)
    case Ok(moves) => Ok(NewTurn(moves))
    case Err(e) => Err(e)
  }

  /** The notation of a turn: its moves' notations joined by commas. */
  function TurnNotation(moves: seq<Move>, separator: char): (text: string)
    requires |moves| >= 1 && IsSeparator(separator)
  {
    Join(MoveNotations(moves, separator))
  }

  /** Each move in notation, one segment per move. */
  function MoveNotations(moves: seq<Move>, separator: char): (segments: seq<string>)
    requires IsSeparator(separator)
    ensures |segments| == |moves|
    ensures forall k :: 0 <= k < |moves| ==> segments[k] == Notation(moves[k], separator)
  {
    seq(|moves|, k requires 0 <= k < |moves| => Notation(moves[k], separator))
  }

  /** The segments of non-idle moves hold no comma and read back as the moves. */
  lemma MoveNotationsRead(moves: seq<Move>, separator: char)
    requires IsSeparator(separator)
    requires forall k :: 0 <= k < |moves| ==> moves[k].source != moves[k].dest
    ensures forall k :: 0 <= k < |moves| ==> NoComma(MoveNotations(moves, separator)[k])
    ensures ParseMoves(MoveNotations(moves, separator)) == Ok(moves)
  {
    var segments := MoveNotations(moves, separator);
    forall k | 0 <= k < |moves|
      ensures NoComma(segments[k])
      ensures FromNotation(segments[k]) == Ok(moves[k])
    {
      assert segments[k] == Notation(moves[k], separator);
    }
    ParseMovesExact(segments, moves);
  }

  /** When every segment reads as the move at the same index, the segments
      read as exactly those moves. */
  lemma ParseMovesExact(segments: seq<string>, moves: seq<Move>)
    requires |segments| == |moves|
    requires forall k :: 0 <= k < |segments| ==> FromNotation(segments[k]) == Ok(moves[k])
    ensures ParseMoves(segments) == Ok(moves)
  {
    var r := ParseMoves(segments);
    assert r.Ok?;
    assert r.value == moves;
  }

  /** A text that reads as a move holds no comma, so it is one whole
      segment of any turn it appears in. */
  lemma MoveTextHasNoComma(text: string)
    requires Match(text).Some?
    ensures NoComma(text)
  {
    var c := Match(text).value;
    NotationAlphabet(c.source, c.separator, c.dest);
  }

  /** Writing any non-empty sequence of non-idle moves as a turn and reading
      it back gives the same moves. No move has to start where the previous
      one ended: the parse checks no chaining. */
  lemma TurnRoundTrip(moves: seq<Move>, separator: char)
    requires |moves| >= 1 && IsSeparator(separator)
    requires forall k :: 0 <= k < |moves| ==> moves[k].source != moves[k].dest
    ensures FromTurnNotation(TurnNotation(moves, separator)) == Ok(Turn(moves))
  {
    MoveNotationsRead(moves, separator);
    SplitJoin(MoveNotations(moves, separator));
  }

  /** Two move texts joined by a comma read as the turn of those two
      moves, in order. */
  lemma TwoMoveTurn(a: string, b: string)
    requires FromNotation(a).Ok? && FromNotation(b).Ok?
    ensures Split(a + [','] + b) == [a, b]
    ensures FromTurnNotation(a + [','] + b) == Ok(Turn([FromNotation(a).value, FromNotation(b).value]))
  {
    MoveTextHasNoComma(a);
    MoveTextHasNoComma(b);
    assert Join([a, b]) == a + [','] + b;
    SplitJoin([a, b]);
    var r := FromTurnNotation(a + [','] + b);
    assert r.Ok?;
    assert r.value.moves == [FromNotation(a).value, FromNotation(b).value];
  }

  /** A segment with nothing in it is not a move, so a turn with an empty
      segment (from empty text or a leading, trailing or doubled comma)
      fails; when every segment before it is a move, it fails with
      `InvalidFormat`. */
  lemma EmptySegmentRejected(text: string, k: nat)
    requires k < |Split(text)| && Split(text)[k] == []
    ensures FromTurnNotation(text).Err?
    ensures (forall j :: 0 <= j < k ==> FromNotation(Split(text)[j]).Ok?) ==>
              FromTurnNotation(text) == Err(InvalidFormat)
  {
    assert FromNotation([]) == Err(InvalidFormat);
    if forall j :: 0 <= j < k ==> FromNotation(Split(text)[j]).Ok? {
      LeftmostErrorWins(Split(text), k);
    }
  }

  /** Empty text, and text that starts with a comma, is `InvalidFormat`. */
  lemma LeadingEmptySegment(text: string)
    requires text == [] || text[0] == ','
    ensures Split(text)[0] == []
    ensures FromTurnNotation(text) == Err(InvalidFormat)
  {
    EmptySegmentRejected(text, 0);
  }
}
