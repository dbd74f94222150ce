/**
 * The recognisers the scanner calls at its cursor: the comment skipper, the
 * identifier and number readers (loops over the text, so methods), and the
 * operator reader (a slice and two membership tests, so a function).
 */
module Recognisers {
  import opened Rat24f

  /** Python's `s[i:j]` for non-negative bounds: both ends clamped to the text. */
  function Slice(s: string, i: nat, j: nat): string {
    if j <= i || |s| <= i then [] else s[i..if j < |s| then j else |s|]
  }

  /**
   * The end of the longest run of identifier characters (alphanumeric or `_`)
   * that starts at `pos` (maximal munch): every character in the run is one,
   * and the character after it, if any, is not.
   */
  function WordEnd(s: string, pos: nat): (e: nat)
    decreases |s| - pos
    ensures |s| <= pos ==> e == pos
    ensures pos <= |s| ==> pos <= e <= |s|
    ensures forall k :: pos <= k < e ==> IsWordChar(s[k])
    ensures e < |s| ==> !IsWordChar(s[e])
  {
    if pos < |s| && IsWordChar(s[pos]) then WordEnd(s, pos + 1) else pos
  }

  /** The end of the longest run of digits that starts at `pos`, in the same sense. */
  function DigitsEnd(s: string, pos: nat): (e: nat)
    decreases |s| - pos
    ensures |s| <= pos ==> e == pos
    ensures pos <= |s| ==> pos <= e <= |s|
    ensures forall k :: pos <= k < e ==> IsDigit(s[k])
    ensures e < |s| ==> !IsDigit(s[e])
  {
    if pos < |s| && IsDigit(s[pos]) then DigitsEnd(s, pos + 1) else pos
  }

  predicate OccursAt(text: string, pat: string, i: nat) {
    i + |pat| <= |text| && text[i..i + |pat|] == pat
  }

  /**
   * Python's `text.find(pat, from)` for a non-negative start: the first index
   * at or after `from` where `pat` occurs, or -1 when there is none.
   */
  function Find(text: string, pat: string, from: nat): (r: int)
    decreases |text| - from
    ensures r == -1 || (from <= r && OccursAt(text, pat, r))
    ensures r == -1 <==> forall i: nat :: from <= i ==> !OccursAt(text, pat, i)
    ensures r != -1 ==> forall i: nat :: from <= i < r ==> !OccursAt(text, pat, i)
  {
    if |text| < from + |pat| then -1
    else if OccursAt(text, pat, from) then from
    else Find(text, pat, from + 1)
  }

  /** The closing comment marker `*]` starts at index `i`. */
  predicate CloserAt(s: string, i: nat) {
    OccursAt(s, "*]", i)
  }

  /** The opening comment marker `[*` starts at index `i`. */
  predicate CommentOpensAt(s: string, i: nat) {
    i + 1 < |s| && s[i] == '[' && s[i + 1] == '*'
  }

  /**
   * Skips a comment whose opener is at `pos`: the index just past the first
   * `*]` at or after `pos`, or the unterminated-comment error when there is no
   * `*]` from `pos` on. The search starts at the `[` itself, not after `[*`.
   */
  function HandleComment(s: string, pos: nat): (r: Result<nat>)
    ensures r.Ok? <==> exists j: nat :: pos <= j && CloserAt(s, j)
    ensures r.Err? ==> r.error == UnterminatedComment
    ensures r.Ok? ==> pos + 2 <= r.value <= |s| && CloserAt(s, r.value - 2)
    ensures r.Ok? ==> forall j: nat :: pos <= j < r.value - 2 ==> !CloserAt(s, j)
  {
    var end := Find(s, "*]", pos);
    if end == -1 then Err(UnterminatedComment)
    else assert CloserAt(s, end); Ok(end + 2)
  }

  /** `[*]` is already a whole comment: its `*` serves as the opener's and the closer's. */
  lemma ShortestComment(s: string, pos: nat)
    requires pos + 3 <= |s| && s[pos..pos + 3] == "[*]"
    ensures CommentOpensAt(s, pos)
    ensures HandleComment(s, pos) == Ok(pos + 3)
  {
    assert s[pos] == '[' && s[pos + 1] == '*' && s[pos + 2] == ']';
    assert CloserAt(s, pos + 1);
    assert !CloserAt(s, pos);
  }

  /**
   * Reads an identifier or keyword: the longest run of alphanumeric or `_`
   * characters from `pos`.
   */
  method GetIdentifier(s: string, pos: nat) returns (lexeme: string)
    requires pos <= |s|
    ensures lexeme == Slice(s, pos, WordEnd(s, pos))
    ensures forall k :: 0 <= k < |lexeme| ==> IsWordChar(lexeme[k])
    ensures pos + |lexeme| < |s| ==> !IsWordChar(s[pos + |lexeme|])
    ensures pos < |s| && IsLetter(s[pos]) ==> lexeme != []
  {
    lexeme := "";
    var i := pos;
    while i < |s| && IsWordChar(s[i])
      invariant pos <= i <= |s| && lexeme == s[pos..i]
      invariant WordEnd(s, i) == WordEnd(s, pos)
      decreases |s| - i
    {
      lexeme := lexeme + [s[i]];
      i := i + 1;
    }
  }

  predicate AllDigits(t: string) {
    forall k :: 0 <= k < |t| ==> IsDigit(t[k])
  }

  /** The numeral shape: one or more digits, then optionally `.` and zero or more digits. */
  predicate IsNumeral(lex: string) {
    exists k :: 0 < k <= |lex| && AllDigits(lex[..k]) && (k == |lex| || (lex[k] == '.' && AllDigits(lex[k + 1..])))
  }

  /** A `.` follows the integer part at `pos`, so the number there is a real. */
  predicate HasFraction(s: string, pos: nat) {
    var d := DigitsEnd(s, pos);
    d < |s| && s[d] == '.'
  }

  /**
   * Where the number at `pos` ends: after the longest digit run, or, when a
   * `.` follows that run, after the `.` and the longest digit run after it.
   */
  function NumberEnd(s: string, pos: nat): nat {
    var d := DigitsEnd(s, pos);
    if d < |s| && s[d] == '.' then DigitsEnd(s, d + 1) else d
  }

  /**
   * Reads an integer or a real: the longest digit run from `pos`, then, when a
   * `.` follows it, the `.` and the longest digit run after it. `isReal`
   * reports whether the `.` was taken.
   */
  method GetNumber(s: string, pos: nat) returns (lexeme: string, isReal: bool)
    requires pos <= |s|
    ensures isReal == HasFraction(s, pos)
    ensures lexeme == Slice(s, pos, NumberEnd(s, pos))
  {
    lexeme := "";
    isReal := false;
    var i := pos;
    while i < |s| && IsDigit(s[i])
      invariant pos <= i <= |s| && lexeme == s[pos..i]
      invariant DigitsEnd(s, i) == DigitsEnd(s, pos)
      decreases |s| - i
    {
      lexeme := lexeme + [s[i]];
      i := i + 1;
    }
    ghost var d := i;
    assert d == DigitsEnd(s, pos);
    if i < |s| && s[i] == '.' {
      isReal := true;
      lexeme := lexeme + ".";
      i := i + 1;
      while i < |s| && IsDigit(s[i])
        invariant d < i <= |s|
        invariant lexeme == s[pos..i]
        invariant DigitsEnd(s, i) == DigitsEnd(s, d + 1)
        decreases |s| - i
      {
        lexeme := lexeme + [s[i]];
        i := i + 1;
      }
      assert i == NumberEnd(s, pos);
    } else {
      assert d == NumberEnd(s, pos);
    }
  }

  /**
   * A number starting with a digit has the numeral shape, and it is a real
   * exactly when its lexeme contains a `.` (so `123.` is a real and `123` an
   * integer).
   */
  lemma NumberShape(s: string, pos: nat)
    requires pos < |s| && IsDigit(s[pos])
    ensures var lex := Slice(s, pos, NumberEnd(s, pos));
      IsNumeral(lex) && (HasFraction(s, pos) <==> '.' in lex)
  {
    var d := DigitsEnd(s, pos);
    var e := NumberEnd(s, pos);
    var lex := Slice(s, pos, e);
    assert lex == s[pos..e];
    var whole := lex[..d - pos];
    assert AllDigits(whole) by {
      forall k | 0 <= k < d - pos ensures IsDigit(whole[k]) {
        assert whole[k] == s[pos + k];
      }
    }
    if HasFraction(s, pos) {
      assert lex[d - pos] == '.';
      var fraction := lex[d - pos + 1..];
      assert AllDigits(fraction) by {
        forall k | 0 <= k < e - d - 1 ensures IsDigit(fraction[k]) {
          assert fraction[k] == s[d + 1 + k];
        }
      }
    } else {
      assert lex[..d - pos] == lex;
      assert '.' !in lex by {
        forall k | 0 <= k < |lex| ensures lex[k] != '.' {
          assert IsDigit(whole[k]);
        }
      }
    }
  }

  /** `source[pos:pos+|op|]` is the operator `op`. */
  predicate OperatorAt(s: string, pos: nat, op: string) {
    pos + |op| <= |s| && s[pos..pos + |op|] == op
  }

  /**
   * Reads an operator: the two characters at `pos` when they form an
   * operator, else the one character when it is an operator, else nothing.
   */
  function GetOperator(s: string, pos: nat): (r: string)
    requires pos < |s|
    ensures r == [] || (r in Operators && OperatorAt(s, pos, r))
  {
    var two := Slice(s, pos, pos + 2);
    assert |two| == 2 ==> OperatorAt(s, pos, two);
    if two in Operators then two
    else if [s[pos]] in Operators then [s[pos]]
    else []
  }

  /** `GetOperator` comes back empty exactly when no operator starts at `pos`. */
  lemma GetOperatorEmpty(s: string, pos: nat)
    requires pos < |s|
    ensures GetOperator(s, pos) == [] <==> forall op :: op in Operators ==> !OperatorAt(s, pos, op)
  {
    var r := GetOperator(s, pos);
    if r == [] {
      OperatorsAtCursor(s, pos);
    } else {
      assert r in Operators && OperatorAt(s, pos, r);
    }
  }

  /** Longest match: no operator found at `pos` is longer than the one `GetOperator` returns. */
  lemma GetOperatorLongest(s: string, pos: nat, op: string)
    requires pos < |s| && op in Operators && OperatorAt(s, pos, op)
    ensures |op| <= |GetOperator(s, pos)|
  {
    OperatorsAtCursor(s, pos);
  }

  /** An operator found at `pos` is either the two characters there or the one character there. */
  lemma OperatorsAtCursor(s: string, pos: nat)
    requires pos < |s|
    ensures forall op :: op in Operators && OperatorAt(s, pos, op) ==>
      (|op| == 2 && op == Slice(s, pos, pos + 2)) || (|op| == 1 && op == [s[pos]])
  {
    forall op | op in Operators && OperatorAt(s, pos, op)
      ensures (|op| == 2 && op == Slice(s, pos, pos + 2)) || (|op| == 1 && op == [s[pos]])
    {
      OperatorShape(op);
      if |op| == 2 {
        assert Slice(s, pos, pos + 2) == s[pos..pos + 2];
      } else {
        assert op == s[pos..pos + 1];
      }
    }
  }
}
