/**
 * The vocabulary of the RAT24F scanner: token categories, tokens, the scan
 * error, the three fixed tables, and the character classes the scanner tests.
 */
module Rat24f {

  datatype Category = Keyword | Identifier | Integer | Real | Operator | Separator

  /** A `(category, lexeme)` pair as the scanner appends it. */
  datatype Token = Token(category: Category, lexeme: string)

  /**
   * Why a scan stops. `UnterminatedComment` is the scanner's one error; an
   * `UnrecognizedCharacter` replaces the cases where the loop made no progress.
   */
  datatype LexError = UnterminatedComment | UnrecognizedCharacter(at: nat)

  datatype Result<T> = Ok(value: T) | Err(error: LexError)

  /** The reserved words, matched exactly and case-sensitively. */
  const Keywords: seq<string> := ["integer", "if", "else", "fi", "while", "return", "get", "put"]

  /** One- and two-character operators. */
  const Operators: seq<string> := ["+", "-", "*", "/", "=", "<", ">", "<=", ">=", "==", "!="]

  /** Single-character separators. */
  const Separators: seq<string> := ["(", ")", "{", "}", ",", ";"]

  /** `isalpha` restricted to ASCII. */
  predicate IsLetter(c: char) {
    'a' <= c <= 'z' || 'A' <= c <= 'Z'
  }

  /** `isdigit` restricted to ASCII. */
  predicate IsDigit(c: char) {
    '0' <= c <= '9'
  }

  /** A character an identifier may continue with: `isalnum()` or `_`. */
  predicate IsWordChar(c: char) {
    IsLetter(c) || IsDigit(c) || c == '_'
  }

  /** `isspace` restricted to ASCII: space, tab to carriage return, and the four separators 0x1C to 0x1F. */
  predicate IsSpace(c: char) {
    c == ' ' || '\t' <= c <= '\r' || '\U{1C}' <= c <= '\U{1F}'
  }

  /**
   * The operator table by shape: a one-character operator is one of the seven characters
   * `+ - * / = < >`, a two-character one is `<`, `>`, `=` or `!` followed by `=`.
   */
  lemma OperatorShape(op: string)
    ensures op in Operators <==>
      (|op| == 1 && op[0] in "+-*/=<>") || (|op| == 2 && op[0] in "<>=!" && op[1] == '=')
  {
    if |op| == 1 {
      assert op == [op[0]];
    } else if |op| == 2 {
      assert op == [op[0], op[1]];
    }
  }

  /** The operator-start test: `c` is the first character of some operator. */
  predicate IsOperatorStart(c: char) {
    exists i :: 0 <= i < |Operators| && |Operators[i]| > 0 && Operators[i][0] == c
  }

  // The operator starts are exactly the characters + - * / = < > and !.
  lemma OperatorStarts(c: char)
    ensures IsOperatorStart(c) <==> c in "+-*/=<>!"
  {
    if c in "+-*/=<>!" {
      var op := if c == '!' then "!=" else [c];
      assert op in Operators && op[0] == c;
    }
  }

  /**
   * `!` is the one operator start that is not an operator by itself; it is
   * the character on which the loop as written appends an empty operator.
   */
  lemma OnlyBangIsIncomplete(c: char)
    ensures IsOperatorStart(c) && [c] !in Operators <==> c == '!'
  {
    OperatorStarts(c);
  }

  /**
   * The scanner's branches test disjoint classes, so the order in which it
   * tries them matters only for `[`, which opens a comment and is in no class.
   */
  lemma ClassesDisjoint(c: char)
    ensures IsSpace(c) ==> !IsWordChar(c) && !IsOperatorStart(c) && [c] !in Separators
    ensures IsWordChar(c) ==> !IsOperatorStart(c) && [c] !in Separators
    ensures IsOperatorStart(c) ==> [c] !in Separators
    ensures c == '[' ==> !IsSpace(c) && !IsWordChar(c) && !IsOperatorStart(c) && [c] !in Separators
  {
    OperatorStarts(c);
    SeparatorChars(c);
    assert IsOperatorStart(c) <==> c in "+-*/=<>!";
    assert [c] in Separators <==> c in "(){},;";
    CharSetsDisjoint(c);
  }

  lemma CharSetsDisjoint(c: char)
    ensures IsSpace(c) ==> !IsWordChar(c) && c !in "+-*/=<>!" && c !in "(){},;"
    ensures IsWordChar(c) ==> c !in "+-*/=<>!" && c !in "(){},;"
    ensures c in "+-*/=<>!" ==> c !in "(){},;"
  {
  }

  /** A one-character string is a separator exactly when its character is one of `(){},;`. */
  lemma SeparatorChars(c: char)
    ensures [c] in Separators <==> c in "(){},;"
  {
    if [c] in Separators {
      var i :| 0 <= i < |Separators| && Separators[i] == [c];
      assert c == Separators[i][0];
    }
  }

  /** Every character of every operator belongs to the operator starts. */
  lemma OperatorChars(op: string, i: nat)
    requires op in Operators && i < |op|
    ensures IsOperatorStart(op[i])
  {
    OperatorStarts(op[i]);
  }

  /** Every keyword is a run of letters, so the identifier rule can produce it. */
  lemma KeywordsAreWords(k: string)
    requires k in Keywords
    ensures |k| > 0 && IsLetter(k[0])
    ensures forall i :: 0 <= i < |k| ==> IsWordChar(k[i])
  {
  }
}
