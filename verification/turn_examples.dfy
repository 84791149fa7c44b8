/** A concrete turn text and what it reads as. */
module TurnExamples {
  import opened Wrappers
  import opened Squares
  import opened Moves
  import opened Turns
  import opened MoveExamples

  // The texts are parameters pinned by `requires`, so the proof goes through
  // the general splitting and parsing lemmas, not an evaluation of the literal.
  /** The turn "9x18,18x25": two segments, two jumps, read in order. */
  lemma TurnExample(a: string, b: string, text: string)
    requires a == "9x18" && b == "18x25" && text == a + [','] + b
    ensures Split(text) == [a, b]
    ensures FromTurnNotation(text) == Ok(Turn([Move(Nine, Eighteen), Move(Eighteen, TwentyFive)]))
  {
    NotationExampleNineEighteen(a);
    NotationExampleEighteenTwentyFive(b);
    TwoMoveTurn(a, b);
  }
}
