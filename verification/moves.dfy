/** Moves and the checkers notation `<source><separator><destination>`.
    `position.rs` and `moves.rs` define the same move, the same grammar and
    the same parse, so one model serves both. */
module Moves {
  import opened Wrappers
  import opened Errors
  import opened Squares
  import Decimal

  /** A move from one square to another; no board rule is applied. */
  datatype Move = Move(source: Square, dest: Square)

  /** `Move::new`: a move whose destination is its source is `Idle`. */
  function NewMove(source: Square, dest: Square): (r: Result<Move, NotationError>)
    ensures r.Err? <==> source == dest
    ensures r.Err? ==> r.error == Idle
    ensures r.Ok? ==> r.value.source == source && r.value.dest == dest
  {
    if source != dest then Ok(Move(source, dest)) else Err(Idle)
  }

  // ---------------------------------------------------------------------
  // The grammar `^([1-9]+[0-9]*)([-xX])([1-9]+[0-9]*)$`
  // ---------------------------------------------------------------------

  predicate IsSeparator(c: char) {
    c == '-' || c == 'x' || c == 'X'
  }

  /** `[1-9]+[0-9]*`: one or more digits, the first not zero. */
  predicate IsNumberToken(t: string) {
    t != [] && '1' <= t[0] <= '9' && Decimal.AllDigits(t)
  }

  /** The three capture groups of a match. */
  datatype Captures = Captures(source: string, separator: char, dest: string)

  /** The length of the run of digits that starts `s`. */
  function DigitRun(s: string): (k: nat)
    ensures k <= |s|
    ensures Decimal.AllDigits(s[..k])
    ensures k < |s| ==> !Decimal.IsDigit(s[k])
  {
    if s == [] || !Decimal.IsDigit(s[0]) then 0
    else
      var k := 1 + DigitRun(s[1..]);
      assert s[..k] == [s[0]] + s[1..][..k - 1];
      k
  }

  /** Matching the notation pattern against the whole of `s`. A separator
      is never a digit, so the first group is the leading digit run and the
      match, when there is one, is unique. */
  function Match(s: string): (r: Option<Captures>)
    ensures r.Some? ==> s == r.value.source + [r.value.separator] + r.value.dest
    ensures r.Some? ==> IsNumberToken(r.value.source) && IsNumberToken(r.value.dest)
    ensures r.Some? ==> IsSeparator(r.value.separator)
  {
    var k := DigitRun(s);
    if k < |s| && IsSeparator(s[k]) && IsNumberToken(s[..k]) && IsNumberToken(s[k + 1..]) then
      assert s == s[..k] + [s[k]] + s[k + 1..];
      Some(Captures(s[..k], s[k], s[k + 1..]))
    else
      None
  }

  /** The digit run of a number token followed by a separator is the token. */
  lemma {:induction false} DigitRunOfToken(a: string, c: char, b: string)
    requires Decimal.AllDigits(a) && IsSeparator(c)
    ensures DigitRun(a + [c] + b) == |a|
  {
    if a != [] {
      assert (a + [c] + b)[1..] == a[1..] + [c] + b;
      DigitRunOfToken(a[1..], c, b);
    } else {
      assert (a + [c] + b)[0] == c;
    }
  }

  /** Every text of the form token, separator, token matches, with exactly
      those captures: the match recognises the whole pattern language. */
  lemma MatchComplete(a: string, c: char, b: string)
    requires IsNumberToken(a) && IsSeparator(c) && IsNumberToken(b)
    ensures Match(a + [c] + b) == Some(Captures(a, c, b))
  {
    var s := a + [c] + b;
    DigitRunOfToken(a, c, b);
    assert s[..|a|] == a;
    assert s[|a| + 1..] == b;
  }

  // ---------------------------------------------------------------------
  // Parsing
  // ---------------------------------------------------------------------

  /** `parse_captures`: the source square, then the destination square,
      then `Move::new`; the first error wins. */
  function ParseCaptures(captures: Captures): (r: Result<Move, NotationError>)
    ensures FromText(captures.source).Err? ==> r == Err(FromText(captures.source).error)
    ensures FromText(captures.source).Ok? && FromText(captures.dest).Err? ==>
              r == Err(FromText(captures.dest).error)
    ensures FromText(captures.source).Ok? && FromText(captures.dest).Ok? ==>
              r == NewMove(FromText(captures.source).value, FromText(captures.dest).value)
  {
    var source :- FromText(captures.source);
    var dest :- FromText(captures.dest);
    NewMove(source, dest)
  }

  /** `Move::from_notation` and `Move::try_from(&str)`: text outside the
      pattern is `InvalidFormat`; otherwise the captures are parsed, source
      first, and a move read this way is never idle. */
  function FromNotation(text: string): (r: Result<Move, NotationError>)
    ensures Match(text).None? ==> r == Err(InvalidFormat)
    ensures Match(text).Some? && FromText(Match(text).value.source).Err? ==>
              r == Err(FromText(Match(text).value.source).error)
    ensures r.Ok? ==> Match(text).Some? && r.value.source != r.value.dest
  {
    match Match(text)
    case None => Err(InvalidFormat)
    case Some(captures) => ParseCaptures(captures)
  }

  /** A text that reads as a move is that move written with its canonical
      numbers: one token per square, no leading zeros. */
  lemma FromNotationCanonical(text: string)
    requires FromNotation(text).Ok?
    ensures text == NumberText(FromNotation(text).value.source) +
                    [Match(text).value.separator] + NumberText(FromNotation(text).value.dest)
  {
    var captures := Match(text).value;
    var m := FromNotation(text).value;
    TokenIsNumberText(captures.source, m.source);
    TokenIsNumberText(captures.dest, m.dest);
  }

  /** The notation text of a square's number. */
  function NumberText(s: Square): (t: string)
    ensures IsNumberToken(t)
  {
    Decimal.DecimalText(Number(s))
  }

  /** A number token that reads as a square is that square's number text:
      tokens have no leading zero, so each square has exactly one. */
  lemma TokenIsNumberText(t: string, s: Square)
    requires IsNumberToken(t) && FromText(t) == Ok(s)
    ensures t == NumberText(s)
  {
    Decimal.ValueOfDecimalText(Number(s));
    TokensEqualByValue(t, NumberText(s));
  }

  /** Two number tokens with the same value are the same text. */
  lemma {:induction false} TokensEqualByValue(a: string, b: string)
    requires Decimal.AllDigits(a) && Decimal.AllDigits(b)
    requires a != [] && a[0] != '0' && b != [] && b[0] != '0'
    requires Decimal.Value(a) == Decimal.Value(b)
    ensures a == b
  {
    var a', b' := a[..|a| - 1], b[..|b| - 1];
    var x, y := a[|a| - 1], b[|b| - 1];
    assert Decimal.Value(a) == Decimal.Value(a') * 10 + Decimal.DigitValue(x);
    assert Decimal.Value(b) == Decimal.Value(b') * 10 + Decimal.DigitValue(y);
    assert Decimal.DigitValue(x) == Decimal.DigitValue(y);
    assert Decimal.Value(a') == Decimal.Value(b');
    if a' == [] || b' == [] {
      if a' != [] {
        NonZeroLead(a');
      } else if b' != [] {
        NonZeroLead(b');
      }
    } else {
      TokensEqualByValue(a', b');
    }
    assert a == a' + [x] && b == b' + [y];
  }

  /** A non-empty digit string without a leading zero has a positive value. */
  lemma {:induction false} NonZeroLead(s: string)
    requires s != [] && Decimal.AllDigits(s) && s[0] != '0'
    ensures Decimal.Value(s) >= 1
  {
    Decimal.ValueLowerBound(s);
  }

  /** A matched text splits at its one separator: if `a + [c] + b` matches
      for a separator `c`, then `a` and `b` are the two numbers. */
  lemma MatchSplitsAtSeparator(a: string, c: char, b: string)
    requires IsSeparator(c) && Match(a + [c] + b).Some?
    ensures IsNumberToken(a) && IsNumberToken(b)
    ensures Match(a + [c] + b) == Some(Captures(a, c, b))
  {
    var s := a + [c] + b;
    var m := Match(s).value;
    assert s[|a|] == c;
    assert m.source == s[..|a|] == a;
    assert m.dest == s[|a| + 1..] == b;
  }

  /** `-`, `x` and `X` read the same: the separator never changes the result. */
  lemma SeparatorIrrelevant(a: string, b: string, c1: char, c2: char)
    requires IsSeparator(c1) && IsSeparator(c2)
    ensures FromNotation(a + [c1] + b) == FromNotation(a + [c2] + b)
  {
    if IsNumberToken(a) && IsNumberToken(b) {
      MatchComplete(a, c1, b);
      MatchComplete(a, c2, b);
    } else {
      if Match(a + [c1] + b).Some? {
        MatchSplitsAtSeparator(a, c1, b);
      }
      if Match(a + [c2] + b).Some? {
        MatchSplitsAtSeparator(a, c2, b);
      }
    }
  }

  /** Writing a move in notation and reading it back gives the move, for
      every separator; an idle pair reads back as `Idle`. */
  lemma NotationRoundTrip(source: Square, dest: Square, c: char)
    requires IsSeparator(c)
    ensures FromNotation(NumberText(source) + [c] + NumberText(dest)) == NewMove(source, dest)
  {
    MatchComplete(NumberText(source), c, NumberText(dest));
    TextRoundTrip(source);
    TextRoundTrip(dest);
  }

  /** The number text of a square reads back as the square. */
  lemma TextRoundTrip(s: Square)
    ensures FromText(NumberText(s)) == Ok(s)
  {
    Decimal.ParseDecimalText(Number(s));
    NumberRoundTrip(s);
  }

  /** Within the pattern the source is read first: when both numbers are
      bad, the source's error is the one reported. */
  lemma SourceErrorFirst(a: string, c: char, b: string)
    requires IsNumberToken(a) && IsSeparator(c) && IsNumberToken(b)
    requires FromText(a).Err?
    ensures FromNotation(a + [c] + b) == Err(FromText(a).error)
  {
    MatchComplete(a, c, b);
  }

  /** Within the pattern a number above 255 is not a `u8` and gives
      `InvalidFormat`, and a number from 33 to 255 gives `OutOfRange`. */
  lemma NumberClassified(t: string)
    requires IsNumberToken(t)
    ensures Decimal.Value(t) > 255 ==> FromText(t) == Err(InvalidFormat)
    ensures 33 <= Decimal.Value(t) <= 255 ==> FromText(t) == Err(OutOfRange)
    ensures 1 <= Decimal.Value(t) <= 32 <==> FromText(t).Ok?
  {
    NonZeroLead(t);
  }

  /** A move written in notation with the given separator. */
  function Notation(m: Move, separator: char): (text: string)
    requires IsSeparator(separator)
    ensures m.source != m.dest ==> FromNotation(text) == Ok(m)
    ensures forall i :: 0 <= i < |text| ==> Decimal.IsDigit(text[i]) || IsSeparator(text[i])
  {
    NotationRoundTrip(m.source, m.dest, separator);
    NotationAlphabet(NumberText(m.source), separator, NumberText(m.dest));
    NumberText(m.source) + [separator] + NumberText(m.dest)
  }

  /** Text in the pattern is made of digits and separators only. */
  lemma NotationAlphabet(a: string, c: char, b: string)
    requires IsNumberToken(a) && IsSeparator(c) && IsNumberToken(b)
    ensures forall i :: 0 <= i < |a + [c] + b| ==>
              Decimal.IsDigit((a + [c] + b)[i]) || IsSeparator((a + [c] + b)[i])
  {
    var text := a + [c] + b;
    forall i | 0 <= i < |text|
      ensures Decimal.IsDigit(text[i]) || IsSeparator(text[i])
    {
      if i < |a| {
        assert text[i] == a[i];
      } else if i > |a| {
        assert text[i] == b[i - |a| - 1];
      }
    }
  }
}
