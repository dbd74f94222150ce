/**
 * The scan of a few small texts: a keyword against an identifier, the
 * longest operator, integers against reals, and an unclosed comment.
 */
module Examples {
  import opened Rat24f
  import opened Recognisers
  import opened Scanner

  /** A text that one pass reads whole scans to that one token. */
  lemma OneToken(s: string, t: Token)
    requires 0 < |s| && Step(s, 0) == Emit(t, |s|)
    ensures Scan(s, 0) == Ok([t])
  {
    var end := |s|;
    assert Scan(s, end) == Ok([]);
    OneTokenList(t);
  }

  /** A one-token list before nothing. */
  lemma OneTokenList(t: Token)
    ensures Prepend([t], Ok([])) == Ok([t])
  {
    assert [t] + [] == [t];
  }

  /** A word is a keyword only when it is one exactly: `integerX` is an identifier. */
  lemma KeywordOrIdentifier()
    ensures Scan("integer", 0) == Ok([Token(Keyword, "integer")])
    ensures Scan("integerX", 0) == Ok([Token(Identifier, "integerX")])
  {
    assert WordEnd("integer", 0) == 7;
    StepWord("integer", 0, "integer");
    OneToken("integer", Token(Keyword, "integer"));
    assert WordEnd("integerX", 0) == 8;
    assert "integerX" !in Keywords;
    StepWord("integerX", 0, "integerX");
    OneToken("integerX", Token(Identifier, "integerX"));
  }

  /** `<=` is one operator, not `<` and then `=`. */
  lemma LongestOperator()
    ensures Scan("<=", 0) == Ok([Token(Operator, "<=")])
  {
    OperatorStarts('<');
    assert Slice("<=", 0, 2) == "<=";
    StepOperator("<=", 0, "<=");
    OneToken("<=", Token(Operator, "<="));
  }

  /** A number is a real when a `.` follows its digits, with or without digits after the `.`. */
  lemma IntegerOrReal()
    ensures Scan("123", 0) == Ok([Token(Integer, "123")])
    ensures Scan("123.45", 0) == Ok([Token(Real, "123.45")])
    ensures Scan("123.", 0) == Ok([Token(Real, "123.")])
  {
    assert DigitsEnd("123", 0) == 3;
    StepNumber("123", 0, "123", false);
    OneToken("123", Token(Integer, "123"));
    assert DigitsEnd("123.45", 0) == 3 && DigitsEnd("123.45", 4) == 6;
    StepNumber("123.45", 0, "123.45", true);
    OneToken("123.45", Token(Real, "123.45"));
    assert DigitsEnd("123.", 0) == 3 && DigitsEnd("123.", 4) == 4;
    StepNumber("123.", 0, "123.", true);
    OneToken("123.", Token(Real, "123."));
  }

  /** A comment that is never closed stops the scan, tokens before it notwithstanding. */
  lemma CommentUnclosed()
    ensures Scan("a [*x", 0) == Err(UnterminatedComment)
  {
    var s := "a [*x";
    forall j: nat | 2 <= j ensures !CloserAt(s, j) {
      if j + 2 <= |s| {
        assert s[j..j + 2][1] == s[j + 1];
      }
    }
    assert WordEnd(s, 0) == 1;
    StepWord(s, 0, "a");
    StepSpace(s, 1);
    StepComment(s, 2, Err(UnterminatedComment));
    assert Scan(s, 2) == Err(UnterminatedComment);
    assert Scan(s, 0) == Prepend([Token(WordCategory("a"), "a")], Scan(s, 1));
  }
}
