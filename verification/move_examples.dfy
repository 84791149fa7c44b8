/** Concrete notation texts and what they read as. */
module MoveExamples {
  import opened Wrappers
  import opened Errors
  import opened Squares
  import opened Moves
  import Decimal

  // Each text is a parameter pinned by `requires` rather than a literal in
  // the `ensures`, so the proof goes through the general parsing lemmas
  // instead of having the verifier evaluate the parser on the literal.

  /** Well-formed pairs parse with no board check: "9x12" is not a legal
      checkers move, yet it reads as one. */
  lemma NotationExampleNineTwelve(text: string)
    requires text == "9x12"
    ensures FromNotation(text) == Ok(Move(Nine, Twelve))
  {
    var source, dest := NumberText(Nine), NumberText(Twelve);
    Decimal.TwoDigitText(12);
    assert source + ['x'] + dest == text;
    NotationRoundTrip(Nine, Twelve, 'x');
  }

  lemma NotationExampleNineEighteen(text: string)
    requires text == "9x18"
    ensures FromNotation(text) == Ok(Move(Nine, Eighteen))
  {
    var source, dest := NumberText(Nine), NumberText(Eighteen);
    Decimal.TwoDigitText(18);
    assert source + ['x'] + dest == text;
    NotationRoundTrip(Nine, Eighteen, 'x');
  }

  lemma NotationExampleTenTwelve(text: string)
    requires text == "10-12"
    ensures FromNotation(text) == Ok(Move(Ten, Twelve))
  {
    var source, dest := NumberText(Ten), NumberText(Twelve);
    Decimal.TwoDigitText(10);
    Decimal.TwoDigitText(12);
    assert source + ['-'] + dest == text;
    NotationRoundTrip(Ten, Twelve, '-');
  }

  lemma NotationExampleTenFourteen(text: string)
    requires text == "10x14"
    ensures FromNotation(text) == Ok(Move(Ten, Fourteen))
  {
    var source, dest := NumberText(Ten), NumberText(Fourteen);
    Decimal.TwoDigitText(10);
    Decimal.TwoDigitText(14);
    assert source + ['x'] + dest == text;
    NotationRoundTrip(Ten, Fourteen, 'x');
  }

  lemma NotationExampleEighteenTwentyFive(text: string)
    requires text == "18x25"
    ensures FromNotation(text) == Ok(Move(Eighteen, TwentyFive))
  {
    var source, dest := NumberText(Eighteen), NumberText(TwentyFive);
    Decimal.TwoDigitText(18);
    Decimal.TwoDigitText(25);
    assert source + ['x'] + dest == text;
    NotationRoundTrip(Eighteen, TwentyFive, 'x');
  }

  /** Text outside the pattern, including a number with a leading zero, is
      `InvalidFormat`. */
  lemma MalformedExamples()
    ensures FromNotation("") == Err(InvalidFormat)
    ensures FromNotation("a") == Err(InvalidFormat)
    ensures FromNotation("a-b") == Err(InvalidFormat)
    ensures FromNotation("cxd") == Err(InvalidFormat)
    ensures FromNotation("09x10") == Err(InvalidFormat)
  {
  }
}
