/**
 * api/index.py, `parse_command`: the older command classifier.  The message
 * is lower-cased and stripped, then matched against
 * `^(add|spent)\s+(\d+\.?\d*)\s+(.+)$`, then compared with `balance` and
 * `last`; anything else is rejected with HTTP status 400.
 *
 * The regular expression is computed by a left-to-right scan that takes each
 * white-space run and the amount greedily, which is the match the regular
 * expression engine finds on a stripped message.
 */
module LegacyParser {
  import opened Wrappers
  import opened Text

  /** The dictionaries `parse_command` returns; the amount keeps the text that `float` converts. */
  datatype ParsedMessage = AddExpense(amount: string, category: string) | GetBalance | GetLastTransactions

  /** `HTTPException(status_code, detail)`. */
  datatype HttpError = HttpError(statusCode: int, detail: string)

  /**
   * The characters for which `str.isspace()` holds form ten inclusive ranges
   * in ascending order, from `RangeLo(k)` to `RangeHi(k)`; they are also the
   * class `\s` of a `str` pattern.
   */
  const SpaceRangeCount := 10

  /** The lower bound of range `k`. */
  function RangeLo(k: nat): char
  {
    match k
    case 0 => '\t' case 1 => '\U{1C}' case 2 => '\U{85}' case 3 => '\U{A0}' case 4 => '\U{1680}'
    case 5 => '\U{2000}' case 6 => '\U{2028}' case 7 => '\U{202F}' case 8 => '\U{205F}' case _ => '\U{3000}'
  }

  /** The upper bound of range `k`. */
  function RangeHi(k: nat): char
  {
    match k
    case 0 => '\r' case 1 => ' ' case 2 => '\U{85}' case 3 => '\U{A0}' case 4 => '\U{1680}'
    case 5 => '\U{200A}' case 6 => '\U{2029}' case 7 => '\U{202F}' case 8 => '\U{205F}' case _ => '\U{3000}'
  }

  /** `c` lies in one of the ranges from `k` on. */
  predicate InRangesFrom(c: char, k: nat)
    decreases SpaceRangeCount - k
  {
    k < SpaceRangeCount && ((RangeLo(k) <= c <= RangeHi(k)) || InRangesFrom(c, k + 1))
  }

  /** `c.isspace()`. */
  predicate IsPySpace(c: char)
  {
    InRangesFrom(c, 0)
  }

  /** No range from `k` on meets the characters from `lo` to `hi`. */
  predicate AvoidsFrom(k: nat, lo: char, hi: char)
    decreases SpaceRangeCount - k
  {
    k >= SpaceRangeCount || ((RangeHi(k) < lo || hi < RangeLo(k)) && AvoidsFrom(k + 1, lo, hi))
  }

  lemma {:induction false} AvoidedNotIn(c: char, k: nat, lo: char, hi: char)
    requires AvoidsFrom(k, lo, hi) && lo <= c <= hi
    ensures !InRangesFrom(c, k)
    decreases SpaceRangeCount - k
  {
    if k < SpaceRangeCount {
      AvoidedNotIn(c, k + 1, lo, hi);
    }
  }

  /**
   * White space lies at or below the space character or at or above U+0085:
   * digits, letters and printable ASCII punctuation are not white space.
   */
  lemma BlankBounds(c: char)
    ensures IsPySpace(c) ==> c <= ' ' || '\U{85}' <= c
  {
    assert AvoidsFrom(0, '!', '\U{84}');
    if '!' <= c <= '\U{84}' {
      AvoidedNotIn(c, 0, '!', '\U{84}');
    }
  }

  /** The class `\d`, restricted to the ASCII digits. */
  predicate IsDigit(c: char)
  {
    '0' <= c <= '9'
  }

  function LStrip(s: string): string
  {
    if s != [] && IsPySpace(s[0]) then LStrip(s[1..]) else s
  }

  function RStrip(s: string): string
  {
    if s != [] && IsPySpace(s[|s| - 1]) then RStrip(s[..|s| - 1]) else s
  }

  /** `str.strip()`: the white space at both ends removed. */
  function Strip(s: string): string
  {
    RStrip(LStrip(s))
  }

  /** The length of the white-space run at the start of `s`. */
  function SpaceRun(s: string): (n: nat)
    ensures n <= |s|
  {
    if s != [] && IsPySpace(s[0]) then 1 + SpaceRun(s[1..]) else 0
  }

  /** The length of the digit run at the start of `s`. */
  function DigitRun(s: string): (n: nat)
    ensures n <= |s|
  {
    if s != [] && IsDigit(s[0]) then 1 + DigitRun(s[1..]) else 0
  }

  /** The language of `\d+\.?\d*`. */
  predicate IsAmount(a: string)
  {
    var d := DigitRun(a);
    d >= 1 && (d == |a| || (a[d] == '.' && forall i :: d < i < |a| ==> IsDigit(a[i])))
  }

  /** The length of the greedy match of `\d+\.?\d*` at the start of `s`, 0 when there is none. */
  function AmountLength(s: string): (n: nat)
    ensures n <= |s|
  {
    var d := DigitRun(s);
    if d == 0 then 0
    else if d < |s| && s[d] == '.' then d + 1 + DigitRun(s[d + 1..])
    else d
  }

  /** The length of the keyword `add` or `spent` that `s` starts with, 0 when neither. */
  function Keyword(s: string): nat
  {
    if StartsWith(s, "add") then 3 else if StartsWith(s, "spent") then 5 else 0
  }

  /** `\s+(\d+\.?\d*)\s+(.+)$` after the keyword: the amount and the rest. */
  function MatchTail(t: string): Option<(string, string)>
  {
    var w := SpaceRun(t);
    if w == 0 then None else MatchAmount(t[w..])
  }

  /** `(\d+\.?\d*)\s+(.+)$`: the greedy amount, then the category. */
  function MatchAmount(u: string): Option<(string, string)>
  {
    var a := AmountLength(u);
    if a == 0 then None else MatchCategory(u[..a], u[a..])
  }

  /**
   * `\s+(.+)$` after the amount: the rest after the white space, which must be
   * non-empty and hold no `\n` (`.` does not match it).
   */
  function MatchCategory(amount: string, v: string): Option<(string, string)>
  {
    var w := SpaceRun(v);
    if w == 0 then None
    else
      var rest := v[w..];
      if rest == [] || '\n' in rest then None else Some((amount, rest))
  }

  /**
   * On a stripped message, `re.match(r'^(add|spent)\s+(\d+\.?\d*)\s+(.+)$', message)`:
   * the amount and category groups.
   */
  function MatchExpense(m: string): Option<(string, string)>
  {
    var k := Keyword(m);
    if k == 0 then None else MatchTail(m[k..])
  }

  /** `message.lower().strip()`. */
  function Normalize(message: string): string
  {
    Strip(Lower(message))
  }

  /** Neither `balance` nor `last` starts with a keyword. */
  lemma NotKeywords()
    ensures Keyword("balance") == 0 && Keyword("last") == 0
  {
    assert "balance"[..3][0] == 'b' && "balance"[..5][0] == 'b' && "last"[..3][0] == 'l';
  }

  /** Lines 32-50 of `parse_command`: the classification of the normalised message. */
  function Classify(m: string): (r: Result<ParsedMessage, HttpError>)
    ensures r.Failure? ==> r.error == HttpError(400, "Invalid command format")
    ensures r.Success? && r.value.AddExpense? ==> MatchExpense(m).Some?
    ensures r == Success(GetBalance) <==> m == "balance"
    ensures r == Success(GetLastTransactions) <==> m == "last"
  {
    NotKeywords();
    match MatchExpense(m)
    case Some((amount, category)) => Success(AddExpense(amount, Strip(category)))
    case None =>
      if m == "balance" then Success(GetBalance)
      else if m == "last" then Success(GetLastTransactions)
      else Failure(HttpError(400, "Invalid command format"))
  }

  /** `parse_command(message)`: the parsed dictionary, or the `HTTPException` it raises. */
  function ParseCommand(message: string): (r: Result<ParsedMessage, HttpError>)
    ensures r.Failure? ==> r.error == HttpError(400, "Invalid command format")
    ensures r.Success? && r.value.AddExpense? ==> MatchExpense(Normalize(message)).Some?
    ensures r == Success(GetBalance) <==> Normalize(message) == "balance"
    ensures r == Success(GetLastTransactions) <==> Normalize(message) == "last"
  {
    Classify(Normalize(message))
  }
}
