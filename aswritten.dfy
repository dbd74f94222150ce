/**
 * One pass of the scanner's loop exactly as written, with the two places
 * where it goes wrong: a character that starts no token (and a lone `!`)
 * leaves the cursor where it is, so the loop never ends, and a `[` as the
 * last character reads one past the end of the text. `Scanner.Step` is the
 * corrected pass; the lemmas here show the defects and that the correction
 * changes nothing else.
 */
module AsWritten {
  import opened Rat24f
  import opened Recognisers
  import opened Scanner

  /** The exceptions the loop as written can raise. */
  datatype Raised = IndexError | ValueError

  /** The loop's state after one pass: the tokens so far and the cursor, or an exception. */
  datatype Iteration = Next(tokens: seq<Token>, pos: nat) | Raise(exception: Raised)

  /**
   * One pass as written. The comment test reads `s[pos + 1]` without a bound
   * check, the operator branch appends whatever `GetOperator` returns, even
   * nothing, and a character no branch takes leaves the state as it was.
   */
  function WrittenPass(s: string, tokens: seq<Token>, pos: nat): Iteration
    requires pos < |s|
  {
    var c := s[pos];
    if IsSpace(c) then Next(tokens, pos + 1)
    else if c == '[' && |s| <= pos + 1 then Raise(IndexError)
    else if c == '[' && s[pos + 1] == '*' then
      match HandleComment(s, pos)
      case Ok(next) => Next(tokens, next)
      case Err(_) => Raise(ValueError)
    else if IsLetter(c) then
      var lexeme := Slice(s, pos, WordEnd(s, pos));
      Next(tokens + [Token(WordCategory(lexeme), lexeme)], pos + |lexeme|)
    else if IsDigit(c) then
      var lexeme := Slice(s, pos, NumberEnd(s, pos));
      Next(tokens + [Token(NumberCategory(HasFraction(s, pos)), lexeme)], pos + |lexeme|)
    else if IsOperatorStart(c) then
      var op := GetOperator(s, pos);
      Next(tokens + [Token(Operator, op)], pos + |op|)
    else if [c] in Separators then Next(tokens + [Token(Separator, [c])], pos + 1)
    else Next(tokens, pos)
  }

  /** At most `n` passes of the loop as written, stopping at the end of the text or at an exception. */
  function Run(s: string, tokens: seq<Token>, pos: nat, n: nat): Iteration
    decreases n
  {
    if n == 0 || |s| <= pos then Next(tokens, pos)
    else match WrittenPass(s, tokens, pos)
      case Next(tokens', pos') => Run(s, tokens', pos', n - 1)
      case Raise(e) => Raise(e)
  }

  /** `n` copies of `t`. */
  function Copies(t: Token, n: nat): (r: seq<Token>)
    ensures |r| == n && forall i :: 0 <= i < n ==> r[i] == t
  {
    if n == 0 then [] else [t] + Copies(t, n - 1)
  }

  /**
   * A character that starts no token, including a `[` followed by something
   * other than `*`, leaves the loop where it is: however many passes run, the
   * cursor stays on it and no token is added, so the loop as written never
   * ends.
   */
  lemma {:induction false} StuckWhereNothingStarts(s: string, tokens: seq<Token>, pos: nat, n: nat)
    requires pos < |s| && (s[pos] != '[' || (pos + 1 < |s| && s[pos + 1] != '*'))
    requires !IsSpace(s[pos]) && !IsLetter(s[pos]) && !IsDigit(s[pos])
    requires !IsOperatorStart(s[pos]) && [s[pos]] !in Separators
    ensures Run(s, tokens, pos, n) == Next(tokens, pos)
    decreases n
  {
    if n > 0 {
      assert WrittenPass(s, tokens, pos) == Next(tokens, pos);
      StuckWhereNothingStarts(s, tokens, pos, n - 1);
    }
  }

  /** `@` is such a character; so is `_`, which can continue a word but not start one, and so is `[` before `x`. */
  lemma AtSignStuck(n: nat)
    ensures Run("@", [], 0, n) == Next([], 0)
    ensures Run("_x", [], 0, n) == Next([], 0)
    ensures Run("[x", [], 0, n) == Next([], 0)
  {
    StuckWhereNothingStarts("@", [], 0, n);
    StuckWhereNothingStarts("_x", [], 0, n);
    StuckWhereNothingStarts("[x", [], 0, n);
  }

  /**
   * A `!` not followed by `=` is an operator start, but no operator: each pass
   * appends an operator token with an empty lexeme and leaves the cursor on
   * the `!`, so the token list grows without end.
   */
  lemma {:induction false} BangRepeats(s: string, tokens: seq<Token>, pos: nat, n: nat)
    requires pos < |s| && s[pos] == '!' && (pos + 1 == |s| || s[pos + 1] != '=')
    ensures Run(s, tokens, pos, n) == Next(tokens + Copies(Token(Operator, []), n), pos)
    decreases n
  {
    var empty := Token(Operator, []);
    if n == 0 {
      assert tokens + Copies(empty, 0) == tokens;
    } else {
      LoneBang(s, pos);
      assert WrittenPass(s, tokens, pos) == Next(tokens + [empty], pos);
      BangRepeats(s, tokens + [empty], pos, n - 1);
      assert tokens + [empty] + Copies(empty, n - 1) == tokens + Copies(empty, n);
    }
  }

  /** A `[` as the last character makes the loop as written index past the end of the text. */
  lemma BracketAtEnd(s: string, tokens: seq<Token>)
    requires |s| > 0 && s[|s| - 1] == '['
    ensures WrittenPass(s, tokens, |s| - 1) == Raise(IndexError)
  {
  }

  /** The corrected pass stops at each of these characters with `UnrecognizedCharacter`. */
  lemma CorrectedStops(s: string, pos: nat)
    requires pos < |s|
    requires (s[pos] == '[' && pos + 1 == |s|)
      || (s[pos] == '!' && (pos + 1 == |s| || s[pos + 1] != '='))
      || (s[pos] != '[' && !IsSpace(s[pos]) && !IsLetter(s[pos]) && !IsDigit(s[pos])
          && !IsOperatorStart(s[pos]) && [s[pos]] !in Separators)
    ensures Step(s, pos) == Fail(UnrecognizedCharacter(pos))
  {
    ClassesDisjoint(s[pos]);
    if s[pos] == '!' && (pos + 1 == |s| || s[pos + 1] != '=') {
      LoneBang(s, pos);
    }
  }

  /** At a `!` not followed by `=` the operator reader finds nothing. */
  lemma LoneBang(s: string, pos: nat)
    requires pos < |s| && s[pos] == '!' && (pos + 1 == |s| || s[pos + 1] != '=')
    ensures IsOperatorStart(s[pos]) && GetOperator(s, pos) == []
  {
    OperatorStarts('!');
    var two := Slice(s, pos, pos + 2);
    OperatorShape(two);
    OperatorShape("!");
  }

  /**
   * Everywhere else the corrected pass does what the loop as written does: it
   * skips or emits the same and moves to the same cursor, and stops on an
   * unclosed comment where the loop raises `ValueError`. Where it stops on an
   * unrecognised character, the loop as written either raises `IndexError` or
   * does not move.
   */
  lemma AgreesElsewhere(s: string, tokens: seq<Token>, pos: nat)
    requires pos < |s|
    ensures Step(s, pos).Skip? ==> WrittenPass(s, tokens, pos) == Next(tokens, Step(s, pos).next)
    ensures Step(s, pos).Emit? ==> WrittenPass(s, tokens, pos) == Next(tokens + [Step(s, pos).token], Step(s, pos).next)
    ensures Step(s, pos) == Fail(UnterminatedComment) ==> WrittenPass(s, tokens, pos) == Raise(ValueError)
    ensures Step(s, pos) == Fail(UnrecognizedCharacter(pos)) ==>
      WrittenPass(s, tokens, pos) == Raise(IndexError) || (WrittenPass(s, tokens, pos).Next? && WrittenPass(s, tokens, pos).pos == pos)
  {
    ClassesDisjoint(s[pos]);
  }
}
