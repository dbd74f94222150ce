/**
 * What the scan promises about the tokens it returns and about the text it
 * leaves out, stated one pass at a time and then, by induction, for the whole
 * scan `Scan(s, pos)`.
 */
module Properties {
  import opened Rat24f
  import opened Recognisers
  import opened Scanner

  /**
   * A token whose category agrees with its lexeme: a keyword is in the
   * keyword table and an identifier is a word that is not; an integer is a
   * digit run and a real a digit run with a `.`; an operator or a separator is
   * in its table.
   */
  predicate WellFormed(t: Token) {
    match t.category
    case Keyword => t.lexeme in Keywords
    case Identifier =>
      t.lexeme !in Keywords && |t.lexeme| > 0 && IsLetter(t.lexeme[0])
      && forall k :: 0 <= k < |t.lexeme| ==> IsWordChar(t.lexeme[k])
    case Integer => IsNumeral(t.lexeme) && '.' !in t.lexeme
    case Real => IsNumeral(t.lexeme) && '.' in t.lexeme
    case Operator => t.lexeme in Operators
    case Separator => t.lexeme in Separators
  }

  /** Every token one pass emits is well formed; in particular a word is a keyword exactly when it is in the table. */
  lemma StepWellFormed(s: string, pos: nat)
    requires pos < |s| && Step(s, pos).Emit?
    ensures WellFormed(Step(s, pos).token)
    ensures Step(s, pos).token.category in {Keyword, Identifier} ==>
      (Step(s, pos).token.category == Keyword <==> Step(s, pos).token.lexeme in Keywords)
  {
    var c := s[pos];
    ClassesDisjoint(c);
    if IsLetter(c) {
      StepWord(s, pos, Slice(s, pos, WordEnd(s, pos)));
    } else if IsDigit(c) {
      StepNumber(s, pos, Slice(s, pos, NumberEnd(s, pos)), HasFraction(s, pos));
      NumberShape(s, pos);
    }
  }

  /**
   * Maximal munch: a word stops before a character that could continue it, a
   * number before a digit (an integer also before a `.`), and an operator is
   * the longest one at the cursor.
   */
  lemma StepLongest(s: string, pos: nat)
    requires pos < |s| && Step(s, pos).Emit?
    ensures var o := Step(s, pos);
      o.token.category in {Keyword, Identifier} ==> o.next == |s| || !IsWordChar(s[o.next])
    ensures var o := Step(s, pos);
      o.token.category in {Integer, Real} ==> o.next == |s| || !IsDigit(s[o.next])
    ensures var o := Step(s, pos);
      o.token.category == Integer ==> o.next == |s| || s[o.next] != '.'
    ensures var o := Step(s, pos);
      o.token.category == Operator ==> forall op :: op in Operators && OperatorAt(s, pos, op) ==> |op| <= |o.token.lexeme|
  {
    var o := Step(s, pos);
    if o.token.category == Operator {
      forall op | op in Operators && OperatorAt(s, pos, op) ensures |op| <= |o.token.lexeme| {
        GetOperatorLongest(s, pos, op);
      }
    }
  }

  /** The character at `pos` starts no token: no whitespace, comment, word, number, operator or separator begins there. */
  predicate StartsNothing(s: string, pos: nat)
    requires pos < |s|
  {
    var c := s[pos];
    !IsSpace(c) && !CommentOpensAt(s, pos) && !IsLetter(c) && !IsDigit(c)
    && (forall op :: op in Operators ==> !OperatorAt(s, pos, op))
    && [c] !in Separators
  }

  /**
   * When a pass stops: with `UnterminatedComment` exactly at a comment opener
   * with no `*]` from it on, with `UnrecognizedCharacter` exactly where no
   * token starts, and with nothing else.
   */
  lemma StepFailure(s: string, pos: nat)
    requires pos < |s|
    ensures Step(s, pos) == Fail(UnterminatedComment) <==>
      CommentOpensAt(s, pos) && forall j: nat :: pos <= j ==> !CloserAt(s, j)
    ensures Step(s, pos) == Fail(UnrecognizedCharacter(pos)) <==> StartsNothing(s, pos)
    ensures Step(s, pos).Fail? ==> Step(s, pos) == Fail(UnterminatedComment) || Step(s, pos) == Fail(UnrecognizedCharacter(pos))
  {
    var c := s[pos];
    ClassesDisjoint(c);
    if IsOperatorStart(c) {
      GetOperatorEmpty(s, pos);
    }
  }

  /** Every token of a successful scan is well formed. */
  lemma {:induction false} ScanWellFormed(s: string, pos: nat)
    requires Scan(s, pos).Ok?
    ensures forall i :: 0 <= i < |Scan(s, pos).value| ==> WellFormed(Scan(s, pos).value[i])
    decreases |s| - pos
  {
    if pos < |s| {
      var o := Step(s, pos);
      if o.Skip? {
        ScanWellFormed(s, o.next);
      } else if o.Emit? {
        ScanWellFormed(s, o.next);
        StepWellFormed(s, pos);
        var rest := Scan(s, o.next).value;
        assert Scan(s, pos).value == [o.token] + rest;
      }
    }
  }

  /** A failed scan stopped at a pass that fails with the same error. */
  lemma {:induction false} ScanStopsAt(s: string, pos: nat)
    requires Scan(s, pos).Err?
    ensures exists at :: pos <= at < |s| && Step(s, at) == Fail(Scan(s, pos).error)
    decreases |s| - pos
  {
    var o := Step(s, pos);
    if o.Skip? || o.Emit? {
      ScanStopsAt(s, o.next);
      var at :| o.next <= at < |s| && Step(s, at) == Fail(Scan(s, o.next).error);
      assert pos <= at;
    } else {
      assert Step(s, pos) == Fail(Scan(s, pos).error);
    }
  }

  /**
   * A scan that stops on an unrecognised character points at a character in
   * the text where no token starts.
   */
  lemma ScanUnrecognized(s: string, pos: nat)
    requires Scan(s, pos).Err? && Scan(s, pos).error.UnrecognizedCharacter?
    ensures pos <= Scan(s, pos).error.at < |s| && StartsNothing(s, Scan(s, pos).error.at)
  {
    ScanStopsAt(s, pos);
    var at :| pos <= at < |s| && Step(s, at) == Fail(Scan(s, pos).error);
    StepFailure(s, at);
  }

  // The text a scan keeps.

  /** `prefix` put in front of a successful result; an error stays the error. */
  function Preceded(prefix: string, r: Result<string>): Result<string> {
    match r
    case Ok(rest) => Ok(prefix + rest)
    case Err(e) => Err(e)
  }

  /**
   * The text from `pos` with whitespace and comments removed, by the comment
   * rule alone and without regard to tokens: an error when a comment is not
   * closed.
   */
  function Significant(s: string, pos: nat): Result<string>
    decreases |s| - pos
  {
    if |s| <= pos then Ok([])
    else if IsSpace(s[pos]) then Significant(s, pos + 1)
    else if CommentOpensAt(s, pos) then
      match HandleComment(s, pos)
      case Ok(next) => Significant(s, next)
      case Err(e) => Err(e)
    else Preceded([s[pos]], Significant(s, pos + 1))
  }

  /** The lexemes of `tokens`, joined. */
  function Concat(tokens: seq<Token>): string {
    if tokens == [] then [] else tokens[0].lexeme + Concat(tokens[1..])
  }

  /**
   * A successful scan keeps the text exactly, less its whitespace and
   * comments: joining the lexemes gives back the significant text.
   */
  lemma {:induction false} ScanSignificant(s: string, pos: nat)
    requires Scan(s, pos).Ok?
    ensures Significant(s, pos) == Ok(Concat(Scan(s, pos).value))
    decreases |s| - pos
  {
    if pos < |s| {
      var o := Step(s, pos);
      if o.Skip? {
        ScanSignificant(s, o.next);
        SkipSignificant(s, pos);
      } else if o.Emit? {
        ScanSignificant(s, o.next);
        EmitChars(s, pos);
        SignificantRun(s, pos, o.next);
        var rest := Scan(s, o.next).value;
        assert Scan(s, pos).value == [o.token] + rest;
        assert ([o.token] + rest)[1..] == rest;
      }
    }
  }

  /** Whitespace or a comment skipped by a pass is also left out of the significant text. */
  lemma SkipSignificant(s: string, pos: nat)
    requires pos < |s| && Step(s, pos).Skip?
    ensures Significant(s, pos) == Significant(s, Step(s, pos).next)
  {
  }

  /** No character of an emitted lexeme is whitespace or a `[`. */
  lemma EmitChars(s: string, pos: nat)
    requires pos < |s| && Step(s, pos).Emit?
    ensures forall k :: pos <= k < Step(s, pos).next ==> !IsSpace(s[k]) && s[k] != '['
  {
    var o := Step(s, pos);
    forall k | pos <= k < o.next ensures !IsSpace(s[k]) && s[k] != '[' {
      var c := s[k];
      CharSetsDisjoint(c);
      if o.token.category == Operator {
        assert o.token.lexeme[k - pos] == c;
        OperatorChars(o.token.lexeme, k - pos);
        OperatorStarts(c);
      } else if o.token.category == Separator {
        SeparatorChars(c);
      } else if o.token.category in {Integer, Real} {
        assert IsDigit(c) || c == '.';
      }
    }
  }

  /** A piece of text with no whitespace and no `[` is kept as it stands. */
  lemma {:induction false} SignificantRun(s: string, pos: nat, next: nat)
    requires pos <= next <= |s|
    requires forall k :: pos <= k < next ==> !IsSpace(s[k]) && s[k] != '['
    ensures Significant(s, pos) == Preceded(s[pos..next], Significant(s, next))
    decreases next - pos
  {
    if pos == next {
      if Significant(s, next).Ok? {
        assert [] + Significant(s, next).value == Significant(s, next).value;
      }
    } else {
      SignificantRun(s, pos + 1, next);
      assert s[pos..next] == [s[pos]] + s[pos + 1..next];
      if Significant(s, next).Ok? {
        var rest := Significant(s, next).value;
        assert [s[pos]] + (s[pos + 1..next] + rest) == s[pos..next] + rest;
      }
    }
  }

  /** The characters of the text from `pos` that are not whitespace, in order. */
  function WithoutSpaces(s: string, pos: nat): string
    decreases |s| - pos
  {
    if |s| <= pos then []
    else if IsSpace(s[pos]) then WithoutSpaces(s, pos + 1)
    else [s[pos]] + WithoutSpaces(s, pos + 1)
  }

  /** Without comments, the significant text is the text less its whitespace. */
  lemma {:induction false} NoCommentsSignificant(s: string, pos: nat)
    requires forall k :: pos <= k < |s| ==> !CommentOpensAt(s, k)
    ensures Significant(s, pos) == Ok(WithoutSpaces(s, pos))
    decreases |s| - pos
  {
    if pos < |s| {
      NoCommentsSignificant(s, pos + 1);
    }
  }

  /**
   * On a text with no comment, a successful scan's lexemes, joined, are the
   * text less its whitespace.
   */
  lemma NoCommentsKept(s: string)
    requires forall k :: 0 <= k < |s| ==> !CommentOpensAt(s, k)
    requires Scan(s, 0).Ok?
    ensures Concat(Scan(s, 0).value) == WithoutSpaces(s, 0)
  {
    ScanSignificant(s, 0);
    NoCommentsSignificant(s, 0);
  }
}
