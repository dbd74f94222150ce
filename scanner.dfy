/**
 * The driving loop of the RAT24F scanner. `Step` says what one pass of the
 * loop does at the cursor, `Scan` runs passes until the end of the text, and
 * the method `Lex` is the loop itself, proved to compute `Scan` and to emit
 * every token as a non-empty piece of the text, in text order.
 */
module Scanner {
  import opened Rat24f
  import opened Recognisers

  /** What one pass of the loop does: skip to `next`, emit a token and move to `next`, or stop. */
  datatype Outcome = Skip(next: nat) | Emit(token: Token, next: nat) | Fail(error: LexError)

  /** The category of a word lexeme: `keyword` when it is in the table, `identifier` otherwise. */
  function WordCategory(lexeme: string): Category {
    if lexeme in Keywords then Keyword else Identifier
  }

  /** The category of a number lexeme: `real` when a `.` was taken, `integer` otherwise. */
  function NumberCategory(isReal: bool): Category {
    if isReal then Real else Integer
  }

  /**
   * One pass of the loop at `pos`, trying in order whitespace, a comment, a
   * word, a number, an operator and a separator. A character that starts none
   * of them, an `!` not followed by `=`, and a `[` not followed by `*` stop the
   * scan with `UnrecognizedCharacter`. Every pass that does not stop moves the
   * cursor forward, and a token's lexeme is the text between the old and the
   * new cursor.
   */
  function Step(s: string, pos: nat): (o: Outcome)
    requires pos < |s|
    ensures o.Skip? || o.Emit? ==> pos < o.next <= |s|
    ensures o.Emit? ==> o.token.lexeme == s[pos..o.next]
  {
    var c := s[pos];
    if IsSpace(c) then Skip(pos + 1)
    else if CommentOpensAt(s, pos) then
      match HandleComment(s, pos)
      case Ok(next) => Skip(next)
      case Err(e) => Fail(e)
    else if IsLetter(c) then
      var next := WordEnd(s, pos);
      Emit(Token(WordCategory(s[pos..next]), s[pos..next]), next)
    else if IsDigit(c) then
      var next := NumberEnd(s, pos);
      Emit(Token(NumberCategory(HasFraction(s, pos)), s[pos..next]), next)
    else if IsOperatorStart(c) then
      var op := GetOperator(s, pos);
      if op == [] then Fail(UnrecognizedCharacter(pos))
      else Emit(Token(Operator, op), pos + |op|)
    else if [c] in Separators then Emit(Token(Separator, [c]), pos + 1)
    else Fail(UnrecognizedCharacter(pos))
  }

  /** Puts `tokens` in front of the tokens of a successful scan; an error stays the error. */
  function Prepend(tokens: seq<Token>, r: Result<seq<Token>>): Result<seq<Token>> {
    match r
    case Ok(rest) => Ok(tokens + rest)
    case Err(e) => Err(e)
  }

  /** The scan from `pos` to the end of the text: the tokens in order, or the first error. */
  function Scan(s: string, pos: nat): Result<seq<Token>>
    decreases |s| - pos
  {
    if |s| <= pos then Ok([])
    else match Step(s, pos)
      case Skip(next) => Scan(s, next)
      case Emit(t, next) => Prepend([t], Scan(s, next))
      case Fail(e) => Err(e)
  }

  /**
   * `tokens[i]` was read at `starts[i]`: its lexeme is the non-empty piece of
   * the text there, and it ends before the next token starts.
   */
  ghost predicate Placed(s: string, tokens: seq<Token>, starts: seq<nat>) {
    |starts| == |tokens|
    && (forall i :: 0 <= i < |tokens| ==>
          tokens[i].lexeme != [] && starts[i] + |tokens[i].lexeme| <= |s|
          && s[starts[i]..starts[i] + |tokens[i].lexeme|] == tokens[i].lexeme)
    && (forall i, j :: 0 <= i < j < |tokens| ==> starts[i] + |tokens[i].lexeme| <= starts[j])
  }

  /**
   * The loop's invariant: the cursor `pos` is in the text, the scan from the
   * start, `whole`, is `tokens` followed by the scan from `pos`, and `tokens` were read
   * at `starts`, all before `pos`.
   */
  ghost predicate Scanned(s: string, whole: Result<seq<Token>>, tokens: seq<Token>, starts: seq<nat>, pos: nat) {
    && pos <= |s|
    && whole == Prepend(tokens, Scan(s, pos))
    && Placed(s, tokens, starts)
    && forall i :: 0 <= i < |tokens| ==> starts[i] + |tokens[i].lexeme| <= pos
  }

  /**
   * One pass of the scanner's loop at the cursor `pos`: skips whitespace or a
   * comment, or reads one token with the reader for the class of the
   * character there. The outcome is the step `Step(s, pos)`.
   */
  method Pass(s: string, pos: nat) returns (o: Outcome)
    requires pos < |s|
    ensures o == Step(s, pos)
  {
    var c := s[pos];
    if IsSpace(c) {
      StepSpace(s, pos);
      o := Skip(pos + 1);
    } else if c == '[' && pos + 1 < |s| && s[pos + 1] == '*' {
      var skipped := HandleComment(s, pos);
      StepComment(s, pos, skipped);
      if skipped.Err? {
        o := Fail(skipped.error);
      } else {
        o := Skip(skipped.value);
      }
    } else if IsLetter(c) {
      var lexeme := GetIdentifier(s, pos);
      StepWord(s, pos, lexeme);
      o := Emit(Token(WordCategory(lexeme), lexeme), pos + |lexeme|);
    } else if IsDigit(c) {
      var lexeme, isReal := GetNumber(s, pos);
      StepNumber(s, pos, lexeme, isReal);
      o := Emit(Token(NumberCategory(isReal), lexeme), pos + |lexeme|);
    } else if IsOperatorStart(c) {
      var lexeme := GetOperator(s, pos);
      StepOperator(s, pos, lexeme);
      if lexeme == [] {
        o := Fail(UnrecognizedCharacter(pos));
      } else {
        o := Emit(Token(Operator, lexeme), pos + |lexeme|);
      }
    } else {
      StepSeparator(s, pos, c);
      if [c] in Separators {
        o := Emit(Token(Separator, [c]), pos + 1);
      } else {
        o := Fail(UnrecognizedCharacter(pos));
      }
    }
  }

  /**
   * The scanner: moves a cursor from the start of `s` to its end and appends
   * one token per word, number, operator and separator. The result is the
   * scan `Scan(s, 0)`; on success, `starts` gives where each token was read.
   */
  method Lex(s: string) returns (r: Result<seq<Token>>, ghost starts: seq<nat>)
    ensures r == Scan(s, 0)
    ensures r.Ok? ==> Placed(s, r.value, starts)
  {
    var pos: nat := 0;
    var tokens: seq<Token> := [];
    starts := [];
    ghost var whole := Scan(s, 0);
    PrependNothing(whole);
    while pos < |s|
      invariant Scanned(s, whole, tokens, starts, pos)
      decreases |s| - pos
    {
      var o := Pass(s, pos);
      if o.Fail? {
        StepFails(s, whole, tokens, starts, pos, o.error);
        r := Err(o.error);
        return;
      }
      StepKeeps(s, whole, tokens, starts, pos, o);
      if o.Emit? {
        tokens, starts := tokens + [o.token], starts + [pos];
      }
      pos := o.next;
    }
    assert tokens + [] == tokens;
    r := Ok(tokens);
  }

  // What one pass does, branch by branch, stated apart from the loop.

  lemma StepSpace(s: string, pos: nat)
    requires pos < |s| && IsSpace(s[pos])
    ensures Step(s, pos) == Skip(pos + 1)
  {
  }

  lemma StepComment(s: string, pos: nat, skipped: Result<nat>)
    requires pos < |s| && CommentOpensAt(s, pos) && skipped == HandleComment(s, pos)
    ensures Step(s, pos) == if skipped.Ok? then Skip(skipped.value) else Fail(skipped.error)
  {
    assert !IsSpace(s[pos]);
  }

  lemma StepWord(s: string, pos: nat, lexeme: string)
    requires pos < |s| && IsLetter(s[pos])
    requires lexeme == Slice(s, pos, WordEnd(s, pos))
    ensures Step(s, pos) == Emit(Token(WordCategory(lexeme), lexeme), pos + |lexeme|)
  {
    assert !IsSpace(s[pos]) && s[pos] != '[';
  }

  lemma StepNumber(s: string, pos: nat, lexeme: string, isReal: bool)
    requires pos < |s| && IsDigit(s[pos])
    requires isReal == HasFraction(s, pos) && lexeme == Slice(s, pos, NumberEnd(s, pos))
    ensures Step(s, pos) == Emit(Token(NumberCategory(isReal), lexeme), pos + |lexeme|)
  {
    assert !IsSpace(s[pos]) && s[pos] != '[' && !IsLetter(s[pos]);
  }

  lemma StepOperator(s: string, pos: nat, op: string)
    requires pos < |s| && IsOperatorStart(s[pos]) && op == GetOperator(s, pos)
    ensures Step(s, pos) == if op == [] then Fail(UnrecognizedCharacter(pos)) else Emit(Token(Operator, op), pos + |op|)
  {
    ClassesDisjoint(s[pos]);
  }

  lemma StepSeparator(s: string, pos: nat, c: char)
    requires pos < |s| && c == s[pos] && !IsSpace(c) && !CommentOpensAt(s, pos)
    requires !IsLetter(c) && !IsDigit(c) && !IsOperatorStart(c)
    ensures Step(s, pos) == if [c] in Separators then Emit(Token(Separator, [c]), pos + 1)
      else Fail(UnrecognizedCharacter(pos))
  {
  }

  /** A pass that does not stop carries the loop's invariant to the cursor it moves to. */
  lemma StepKeeps(s: string, whole: Result<seq<Token>>, tokens: seq<Token>, starts: seq<nat>, pos: nat, step: Outcome)
    requires pos < |s| && step == Step(s, pos) && !step.Fail?
    requires Scanned(s, whole, tokens, starts, pos)
    ensures step.Skip? ==> Scanned(s, whole, tokens, starts, step.next)
    ensures step.Emit? ==> Scanned(s, whole, tokens + [step.token], starts + [pos], step.next)
  {
    if step.Emit? {
      PrependTwice(tokens, [step.token], Scan(s, step.next));
      PlacedAppend(s, tokens, starts, step.token, pos);
    }
  }

  /** A pass that stops ends the whole scan with its error. */
  lemma StepFails(s: string, whole: Result<seq<Token>>, tokens: seq<Token>, starts: seq<nat>, pos: nat, e: LexError)
    requires pos < |s| && Step(s, pos) == Fail(e)
    requires Scanned(s, whole, tokens, starts, pos)
    ensures whole == Err(e)
  {
  }

  lemma PlacedAppend(s: string, tokens: seq<Token>, starts: seq<nat>, t: Token, pos: nat)
    requires Placed(s, tokens, starts)
    requires forall i :: 0 <= i < |tokens| ==> starts[i] + |tokens[i].lexeme| <= pos
    requires t.lexeme != [] && pos + |t.lexeme| <= |s| && s[pos..pos + |t.lexeme|] == t.lexeme
    ensures Placed(s, tokens + [t], starts + [pos])
    ensures forall i :: 0 <= i < |tokens| + 1 ==>
      (starts + [pos])[i] + |(tokens + [t])[i].lexeme| <= pos + |t.lexeme|
  {
  }

  lemma PrependNothing(r: Result<seq<Token>>)
    ensures Prepend([], r) == r
  {
    if r.Ok? {
      assert [] + r.value == r.value;
    }
  }

  lemma PrependTwice(first: seq<Token>, second: seq<Token>, r: Result<seq<Token>>)
    ensures Prepend(first, Prepend(second, r)) == Prepend(first + second, r)
  {
    if r.Ok? {
      assert first + (second + r.value) == (first + second) + r.value;
    }
  }
}
