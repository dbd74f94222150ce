# RAT24F scanner in Dafny

This project models the scanner of the RAT24F teaching language (`lexer.py`).
The scanner turns source text into an ordered list of `(category, lexeme)`
tokens. It skips whitespace and `[* ... *]` block comments. It reads words
(keyword or identifier), numbers (integer or real), one- and two-character
operators, and one-character separators, always taking the longest lexeme at
the cursor. The project proves what that scan promises.

The project has six modules:

- `Rat24f` (`rat24f.dfy`): token categories, tokens, the scan error, the
  keyword, operator and separator tables, and the character classes the scanner
  tests, with lemmas about how those classes relate.
- `Recognisers` (`recognisers.dfy`): the helpers the scanner calls at its cursor.
  - `HandleComment` is a function over `Find`, which models Python's `str.find`.
  - `GetIdentifier` and `GetNumber` keep the source's loops, so they are methods.
  - `GetOperator` is a function.
- `Scanner` (`scanner.dfy`):
  - `Step` is one pass of the scanner's loop, with the defects corrected.
  - `Scan` is the whole scan.
  - `Pass` and `Lex` are the loop body and the loop, proved to compute `Step`
    and `Scan`.
- `Properties` (`properties.dfy`): every emitted token is well formed; maximal
  munch; exactly when the scan fails; and the scan keeps every character of the
  text except whitespace and comments.
- `AsWritten` (`aswritten.dfy`): one pass of the loop exactly as written, used
  to exhibit the defects listed under Findings and to show that the corrected
  pass agrees with it everywhere else.
- `Examples` (`examples.dfy`): the scan of a few small texts.

How the scan behaves:

- An unclosed comment stops the scan with `UnterminatedComment`.
- A character at which no token can start stops the scan with
  `UnrecognizedCharacter(at)`. The loop as written does not stop there (see
  Findings).
- The comment search starts at the `[` of the opener, as `find("*]", position)`
  does in `lexer.py:29`, not after the `[*`. So `[*]` is a complete comment
  (`Recognisers.ShortestComment`). This model follows the code.

## Model

| member | source | states |
|---|---|---|
| Rat24f.OperatorShape | lexer.py:15 | A string is in the operator table exactly when it is one of `+ - * / = < >`, or one of `< > = !` followed by `=`. |
| Rat24f.OperatorStarts | lexer.py:131 | A character passes the operator-start test exactly when it is one of `+ - * / = < > !`. |
| Rat24f.OnlyBangIsIncomplete | lexer.py:131-135 | `!` is the only operator start that is not an operator by itself. |
| Rat24f.ClassesDisjoint | lexer.py:94-143 | The whitespace, word, operator-start and separator classes are pairwise disjoint, and `[` is in none of them. So the order of the branches matters only for comments. |
| Rat24f.SeparatorChars | lexer.py:139 | A one-character string is a separator exactly when its character is one of `( ) { } , ;`. |
| Rat24f.OperatorChars | lexer.py:15 | Every character of every operator is an operator start. |
| Rat24f.KeywordsAreWords | lexer.py:12 | Every keyword is non-empty, starts with a letter, and consists of word characters. So the identifier rule can produce it. |
| Recognisers.WordEnd | lexer.py:41-43 | The identifier loop stops at the end of the longest run of alphanumeric or `_` characters. Every character before the end is one, and the character at the end is not. |
| Recognisers.DigitsEnd | lexer.py:54-56 | The digit loop stops at the end of the longest digit run. |
| Recognisers.Find | lexer.py:29 | `find` returns the first index at or after the start where the pattern occurs, or -1 exactly when the pattern occurs nowhere from the start on. |
| Recognisers.HandleComment | lexer.py:28-35 | Skipping a comment succeeds exactly when a `*]` occurs at or after the opener. It then moves just past the first such `*]`; otherwise it fails with `UnterminatedComment`. |
| Recognisers.ShortestComment | lexer.py:29 | Because the search starts at the `[`, `[*]` is a whole comment. |
| Recognisers.GetIdentifier | lexer.py:39-45 | The identifier reader returns the longest word-character run at the cursor. It is non-empty when the cursor is on a letter, and it is followed by a non-word character or by the end of the text. |
| Recognisers.GetNumber | lexer.py:49-69 | The number reader returns the digits, then, if a `.` follows them, the `.` and the digits after it. `isReal` is true exactly when the `.` was taken. |
| Recognisers.NumberShape | lexer.py:58-66 | A number read from a digit is one or more digits, optionally followed by `.` and more digits. It is real exactly when its lexeme contains a `.`. |
| Recognisers.GetOperator | lexer.py:73-80 | The operator reader returns nothing, or an operator from the table that occurs at the cursor. |
| Recognisers.GetOperatorEmpty | lexer.py:73-80 | The operator reader returns nothing exactly when no operator of the table occurs at the cursor. |
| Recognisers.GetOperatorLongest | lexer.py:74-76 | No operator at the cursor is longer than the one the reader returns (two-character operators first). |
| Recognisers.OperatorsAtCursor | lexer.py:75-78 | An operator at the cursor is either the two-character slice there or the single character there. |
| Scanner.Step | lexer.py:89-143 | A pass that does not stop moves the cursor forward, within the text. An emitted token's lexeme is the text between the old and the new cursor. |
| Scanner.Pass | lexer.py:90-143 | The loop body, using the readers, computes exactly the pass `Step`. |
| Scanner.Lex | lexer.py:83-146 | The scanner's loop computes the whole scan `Scan(s, 0)`. On success, every token is a non-empty piece of the text read at its recorded start, in text order and without overlap. |
| Scanner.StepSpace | lexer.py:94-97 | Whitespace is skipped one character at a time. |
| Scanner.StepComment | lexer.py:100-104 | At a comment opener the pass skips to where `HandleComment` leads, or stops with its error. |
| Scanner.StepWord | lexer.py:107-116 | At a letter the pass emits the word read there, as a keyword when it is in the table and as an identifier otherwise. |
| Scanner.StepNumber | lexer.py:119-128 | At a digit the pass emits the number read there, as a real when a `.` was taken and as an integer otherwise. |
| Scanner.StepOperator | lexer.py:131-136 | At an operator start the pass emits the operator read there. If the reader finds nothing, the pass stops with `UnrecognizedCharacter`. |
| Scanner.StepSeparator | lexer.py:139-143 | Elsewhere, the pass emits a separator, or stops with `UnrecognizedCharacter` when the character is not one. |
| Scanner.StepKeeps | lexer.py:89-143 | A pass that does not stop keeps the loop's invariant at the cursor it moves to. |
| Scanner.StepFails | lexer.py:89-143 | A pass that stops ends the whole scan with its error. |
| Properties.StepWellFormed | lexer.py:107-143 | Every emitted token's category agrees with its lexeme. A word is a keyword exactly when it is in the keyword table. |
| Properties.StepLongest | lexer.py:41-43 | Maximal munch: a word is not followed by a word character, and a number is not followed by a digit. An integer is not followed by a `.`. No operator at the cursor is longer than the one emitted. |
| Properties.StepFailure | lexer.py:28-35 | A pass stops with `UnterminatedComment` exactly at an opener with no `*]` from it on. It stops with `UnrecognizedCharacter` exactly where no token, whitespace or comment starts, and it stops in no other way. |
| Properties.ScanWellFormed | lexer.py:84-146 | Every token of a successful scan is well formed. |
| Properties.ScanStopsAt | lexer.py:84-146 | A failed scan failed at a pass in the text that fails with the same error. |
| Properties.ScanUnrecognized | lexer.py:84-146 | `UnrecognizedCharacter(at)` points at a character of the text where nothing starts. |
| Properties.ScanSignificant | lexer.py:84-146 | The lexemes of a successful scan, joined, are the text less its whitespace and comments. |
| Properties.NoCommentsKept | lexer.py:84-146 | On a text without comment openers, the lexemes of a successful scan, joined, are the text less its whitespace. |
| AsWritten.StuckWhereNothingStarts | lexer.py:89-143 | As written, a character that starts nothing leaves the loop's state unchanged after any number of passes. |
| AsWritten.AtSignStuck | lexer.py:89-143 | `@`, `_x` and `[x` stay stuck at position 0 with no tokens. |
| AsWritten.BangRepeats | lexer.py:131-135 | As written, a lone `!` appends one empty operator token per pass and never moves. |
| AsWritten.BracketAtEnd | lexer.py:100 | As written, a `[` as the last character reads past the end of the text (`IndexError`). |
| AsWritten.CorrectedStops | lexer.py:89-143 | On each of those inputs the corrected pass stops with `UnrecognizedCharacter` at that character. |
| AsWritten.LoneBang | lexer.py:131-135 | At a `!` not followed by `=`, the operator-start test passes but the operator reader returns nothing. |
| AsWritten.AgreesElsewhere | lexer.py:89-143 | The corrected pass and the pass as written agree wherever the corrected pass skips or emits. The corrected `UnterminatedComment` is the original `ValueError`. Where the corrected pass reports `UnrecognizedCharacter`, the original raises `IndexError` or does not move. |
| Examples.KeywordOrIdentifier | lexer.py:107-116 | `integer` scans to a keyword, and `integerX` to an identifier. |
| Examples.LongestOperator | lexer.py:73-80 | `<=` scans to one operator. |
| Examples.IntegerOrReal | lexer.py:49-69 | `123` scans to an integer; `123.45` and `123.` scan to reals. |
| Examples.CommentUnclosed | lexer.py:28-32 | `a [*x` scans to `UnterminatedComment`. |

## Left out

- Logging (`lexer.py:1-9` and every `logging` call): it has no effect on the tokens.
- `read_source_code` (`lexer.py:150-157`) and the `__main__` block (`lexer.py:161-170`): file I/O and printing. The text to scan is a parameter.
- Character classes are ASCII only: `isalpha`, `isdigit`, `isalnum` and `isspace` on non-ASCII characters are not modelled. Such a character stops the scan with `UnrecognizedCharacter`.
- Exceptions become `Result`: `ValueError("Unterminated comment block")` is `Err(UnterminatedComment)`, and an error carries no partial token list, since Python's raise discards it too.
- `UnrecognizedCharacter` does not exist in the source. The corrected pass uses it where the loop as written hangs or raises `IndexError` (see Findings).
- Tokens in the source carry no position. The start of each token exists only as `Lex`'s ghost out-parameter `starts`, used to state where each lexeme came from.
- Recognisers.GetIdentifier: requires the cursor to be within the text or at its end. The source also accepts a cursor past the end, where it returns an empty lexeme, but its only caller passes the cursor of a letter.
- Recognisers.GetNumber: requires the cursor to be within the text or at its end, for the same reason; its only caller passes the cursor of a digit.
- Running the scanner twice gives the same tokens because `Lex` computes the function `Scan`. No separate lemma states it.
- Of the examples of a comment being skipped, only the general statement is proved (`Properties.ScanSignificant`, `Recognisers.HandleComment`). There is no concrete `a [* ... *] b` example.

## Findings

| source | as written | input that shows it | evidently intended | confidence | as-written member | corrected member |
|---|---|---|---|---|---|---|
| lexer.py:89-143 | A character that no branch takes leaves `position` unchanged, so the loop repeats forever. This includes a `[` not followed by `*`. | `@`, `_x` or `[x` | The scan ends at such a character; here it stops with `UnrecognizedCharacter` (`AsWritten.CorrectedStops`). | high, not executed | AsWritten.StuckWhereNothingStarts | Scanner.Step |
| lexer.py:131-135 | A `!` not followed by `=` passes the operator-start test, but `get_operator` returns `""`. An empty operator token is appended and `position` does not move, so tokens accumulate forever. | `!` or `a ! b` | A lone `!` is not an operator and ends the scan; here it stops with `UnrecognizedCharacter` (`AsWritten.CorrectedStops`). | high, not executed | AsWritten.BangRepeats | Scanner.Step |
| lexer.py:100 | `source_code[position+1]` is read without a bounds check, so a final `[` raises `IndexError`. | `x [` | A final `[` is treated like any other character that starts nothing; here it stops with `UnrecognizedCharacter` (`AsWritten.CorrectedStops`). | high, not executed | AsWritten.BracketAtEnd | Scanner.Step |
