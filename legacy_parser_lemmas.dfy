/**
 * Properties of `parse_command` (api/index.py): the scan finds exactly the
 * messages the regular expression accepts, with the same amount, and the
 * classification depends only on the lower-cased, stripped message.
 */
module LegacyParserLemmas {
  import opened Wrappers
  import opened Text
  import opened LegacyParser

  predicate AllSpace(s: string)
  {
    forall i :: 0 <= i < |s| ==> IsPySpace(s[i])
  }

  /** What `strip()` returns: no white space at either end. */
  predicate Stripped(s: string)
  {
    s == [] || (!IsPySpace(s[0]) && !IsPySpace(s[|s| - 1]))
  }

  /**
   * The language of `\s+(\d+\.?\d*)\s+(.+)$` after the keyword, with the
   * groups at `s[p..q]` and `s[t..]`: every split the regular expression
   * engine may try, not only the one the scan takes.
   */
  predicate TailForm(s: string, p: nat, q: nat, t: nat)
  {
    && 0 < p < q < t < |s|
    && AllSpace(s[..p])
    && IsAmount(s[p..q])
    && AllSpace(s[q..t])
    && '\n' !in s[t..]
  }

  /** The language of `^(add|spent)\s+(\d+\.?\d*)\s+(.+)$`, the keyword being `m[..k]`. */
  predicate ExpenseForm(m: string, k: nat, p: nat, q: nat, t: nat)
  {
    && k <= |m|
    && (m[..k] == "add" || m[..k] == "spent")
    && TailForm(m[k..], p, q, t)
  }

  /* ---------- The scanning functions ---------- */

  /** `SpaceRun(s)` is the length of the longest white-space prefix of `s`. */
  lemma {:induction false} SpaceRunFacts(s: string)
    ensures forall i :: 0 <= i < SpaceRun(s) ==> IsPySpace(s[i])
    ensures SpaceRun(s) == |s| || !IsPySpace(s[SpaceRun(s)])
  {
    if s != [] && IsPySpace(s[0]) {
      SpaceRunFacts(s[1..]);
      assert forall i :: 0 < i < |s| ==> s[i] == s[1..][i - 1];
    }
  }

  /** `DigitRun(s)` is the length of the longest digit prefix of `s`. */
  lemma {:induction false} DigitRunFacts(s: string)
    ensures forall i :: 0 <= i < DigitRun(s) ==> IsDigit(s[i])
    ensures DigitRun(s) == |s| || !IsDigit(s[DigitRun(s)])
  {
    if s != [] && IsDigit(s[0]) {
      DigitRunFacts(s[1..]);
      assert forall i :: 0 < i < |s| ==> s[i] == s[1..][i - 1];
    }
  }

  lemma {:induction false} SpaceRunExact(s: string, n: nat)
    requires n <= |s|
    requires forall i :: 0 <= i < n ==> IsPySpace(s[i])
    requires n == |s| || !IsPySpace(s[n])
    ensures SpaceRun(s) == n
  {
    if n > 0 {
      SpaceRunExact(s[1..], n - 1);
    }
  }

  lemma {:induction false} SpaceRunAtLeast(s: string, n: nat)
    requires n <= |s|
    requires forall i :: 0 <= i < n ==> IsPySpace(s[i])
    ensures SpaceRun(s) >= n
  {
    if n > 0 {
      SpaceRunAtLeast(s[1..], n - 1);
    }
  }

  lemma {:induction false} DigitRunExact(s: string, n: nat)
    requires n <= |s|
    requires forall i :: 0 <= i < n ==> IsDigit(s[i])
    requires n == |s| || !IsDigit(s[n])
    ensures DigitRun(s) == n
  {
    if n > 0 {
      DigitRunExact(s[1..], n - 1);
    }
  }

  /** The greedy match of `\d+\.?\d*` is itself an amount. */
  lemma AmountLengthIsAmount(s: string)
    requires AmountLength(s) > 0
    ensures IsAmount(s[..AmountLength(s)])
  {
    var n := AmountLength(s);
    var d := DigitRun(s);
    DigitRunFacts(s);
    DigitRunExact(s[..n], d);
    if d < n {
      DigitRunFacts(s[d + 1..]);
      assert forall i :: d < i < n ==> s[..n][i] == s[d + 1..][i - d - 1];
    }
  }

  /** An amount followed by white space is matched in full, and no further. */
  lemma AmountLengthExact(a: string, rest: string)
    requires IsAmount(a)
    requires rest != [] && IsPySpace(rest[0])
    ensures AmountLength(a + rest) == |a|
  {
    var s := a + rest;
    var d := DigitRun(a);
    DigitRunFacts(a);
    BlankBounds(rest[0]);
    DigitRunExact(s, d);
    if d < |a| {
      DigitRunExact(s[d + 1..], |a| - d - 1);
    }
  }

  /* ---------- Stripping ---------- */

  /** `lstrip()` removes a leading run of white space and nothing else. */
  lemma {:induction false} LStripFacts(s: string)
    ensures |LStrip(s)| <= |s| && LStrip(s) == s[|s| - |LStrip(s)|..]
    ensures LStrip(s) == [] || !IsPySpace(LStrip(s)[0])
    ensures forall i :: 0 <= i < |s| - |LStrip(s)| ==> IsPySpace(s[i])
  {
    if s != [] && IsPySpace(s[0]) {
      var t := s[1..];
      LStripFacts(t);
      var n := |s| - |LStrip(t)|;
      assert t[n - 1..] == s[n..];
      forall i | 0 <= i < n
        ensures IsPySpace(s[i])
      {
        if i > 0 {
          assert s[i] == t[i - 1];
        }
      }
    }
  }

  /** `rstrip()` removes a trailing run of white space and nothing else. */
  lemma {:induction false} RStripFacts(s: string)
    ensures |RStrip(s)| <= |s| && RStrip(s) == s[..|RStrip(s)|]
    ensures RStrip(s) == [] || !IsPySpace(RStrip(s)[|RStrip(s)| - 1])
    ensures forall i :: |RStrip(s)| <= i < |s| ==> IsPySpace(s[i])
  {
    if s != [] && IsPySpace(s[|s| - 1]) {
      RStripFacts(s[..|s| - 1]);
    }
  }

  /** `strip()` leaves no white space at either end. */
  lemma StripIsStripped(s: string)
    ensures Stripped(Strip(s))
  {
    LStripHead(s);
    RStripEnds(LStrip(s));
  }

  lemma LStripHead(s: string)
    ensures LStrip(s) == [] || !IsPySpace(LStrip(s)[0])
  {
    LStripFacts(s);
  }

  lemma RStripEnds(l: string)
    ensures RStrip(l) == [] || (RStrip(l)[0] == l[0] && !IsPySpace(RStrip(l)[|RStrip(l)| - 1]))
  {
    RStripFacts(l);
    var r := RStrip(l);
    if r != [] {
      assert r[0] == l[0];
    }
  }

  /** `strip()` returns a contiguous piece of its argument. */
  lemma StripIsInfix(s: string)
    ensures |Strip(s)| <= |LStrip(s)| <= |s|
    ensures Strip(s) == s[|s| - |LStrip(s)|..][..|Strip(s)|]
  {
    LStripFacts(s);
    RStripFacts(LStrip(s));
  }

  lemma {:induction false} LStripSpaces(ws: string, x: string)
    requires AllSpace(ws)
    ensures LStrip(ws + x) == LStrip(x)
  {
    if ws == [] {
      assert ws + x == x;
    } else {
      assert (ws + x)[0] == ws[0] && IsPySpace(ws[0]);
      assert (ws + x)[1..] == ws[1..] + x;
      assert LStrip(ws + x) == LStrip(ws[1..] + x);
      assert AllSpace(ws[1..]) by {
        assert forall i :: 0 <= i < |ws| - 1 ==> ws[1..][i] == ws[i + 1];
      }
      LStripSpaces(ws[1..], x);
    }
  }

  lemma {:induction false} RStripSpaces(x: string, ws: string)
    requires AllSpace(ws)
    ensures RStrip(x + ws) == RStrip(x)
  {
    if ws == [] {
      assert x + ws == x;
    } else {
      assert (x + ws)[|x + ws| - 1] == ws[|ws| - 1] && IsPySpace(ws[|ws| - 1]);
      assert (x + ws)[..|x + ws| - 1] == x + ws[..|ws| - 1];
      assert RStrip(x + ws) == RStrip(x + ws[..|ws| - 1]);
      assert AllSpace(ws[..|ws| - 1]);
      RStripSpaces(x, ws[..|ws| - 1]);
    }
  }

  /** Text after a non-blank start keeps that start. */
  lemma {:induction false} LStripAppend(x: string, y: string)
    requires LStrip(x) != []
    ensures LStrip(x + y) == LStrip(x) + y
  {
    if IsPySpace(x[0]) {
      assert (x + y)[1..] == x[1..] + y;
      LStripAppend(x[1..], y);
    }
  }

  /** Text after a non-blank prefix: only that text's own trailing white space is removed. */
  lemma {:induction false} RStripAfter(p: string, y: string)
    requires p != [] && !IsPySpace(p[|p| - 1])
    ensures RStrip(p + y) == p + RStrip(y)
    decreases |y|
  {
    if y != [] && IsPySpace(y[|y| - 1]) {
      assert (p + y)[..|p + y| - 1] == p + y[..|y| - 1];
      RStripAfter(p, y[..|y| - 1]);
    }
  }

  /** Stripping white space away from both ends changes nothing more. */
  lemma StripSurrounded(ws1: string, x: string, ws2: string)
    requires AllSpace(ws1) && AllSpace(ws2)
    ensures Strip(ws1 + x + ws2) == Strip(x)
  {
    assert ws1 + x + ws2 == ws1 + (x + ws2);
    LStripSpaces(ws1, x + ws2);
    LStripFacts(x);
    if LStrip(x) != [] {
      LStripAppend(x, ws2);
      RStripSpaces(LStrip(x), ws2);
    } else {
      assert AllSpace(x + ws2);
      LStripSpaces(x + ws2, []);
      assert x + ws2 + [] == x + ws2;
    }
  }

  lemma StripOfStripped(s: string)
    requires Stripped(s)
    ensures Strip(s) == s
  {
  }

  /** A text ending in a non-blank character does not strip to nothing. */
  lemma StripKeepsLast(x: string)
    requires x != [] && !IsPySpace(x[|x| - 1])
    ensures Strip(x) != []
  {
    var l := LStrip(x);
    LStripFacts(x);
    assert l[|l| - 1] == x[|x| - 1];
  }

  /* ---------- The match against the regular expression ---------- */

  /** What the category step accepts: white space, then a non-empty rest without `\n`. */
  lemma CategorySound(amount: string, v: string)
    requires MatchCategory(amount, v).Some?
    ensures var w := SpaceRun(v);
            && 0 < w < |v| && AllSpace(v[..w]) && '\n' !in v[w..]
            && MatchCategory(amount, v).value == (amount, v[w..])
  {
    var w := SpaceRun(v);
    SpaceRunFacts(v);
    assert forall i :: 0 <= i < w ==> v[..w][i] == v[i];
  }

  /**
   * Soundness after the keyword: whatever the scan matches is in the language,
   * with the amount and the rest as its groups.
   */
  lemma MatchTailSound(s: string) returns (p: nat, q: nat, t: nat)
    requires MatchTail(s).Some?
    ensures TailForm(s, p, q, t)
    ensures MatchTail(s).value == (s[p..q], s[t..])
  {
    p := SpaceRun(s);
    SpaceRunFacts(s);
    var a := AmountSound(s[p..]);
    CategorySound(s[p..][..a], s[p..][a..]);
    var w := SpaceRun(s[p..][a..]);
    q, t := TailFormShift(s, p, a, w);
  }

  /** The pieces the scan finds, taken one after the other, form a split in `s`'s own indices. */
  lemma TailFormShift(s: string, p: nat, a: nat, w: nat) returns (q: nat, t: nat)
    requires 0 < p && 0 < a && 0 < w && p + a + w < |s|
    requires forall i :: 0 <= i < p ==> IsPySpace(s[i])
    requires IsAmount(s[p..][..a])
    requires AllSpace(s[p..][a..][..w])
    requires '\n' !in s[p..][a..][w..]
    ensures q == p + a && t == q + w
    ensures TailForm(s, p, q, t)
    ensures s[p..][..a] == s[p..q] && s[p..][a..][w..] == s[t..]
  {
    q, t := p + a, p + a + w;
    TakeDrop(s, p, a);
    DropDrop(s, p, a);
    TakeDrop(s, q, w);
    DropDrop(s, q, w);
    assert AllSpace(s[..p]) by {
      assert forall i :: 0 <= i < p ==> s[..p][i] == s[i];
    }
  }

  lemma DropDrop(s: string, i: nat, j: nat)
    requires i + j <= |s|
    ensures s[i..][j..] == s[i + j..]
  {
  }

  lemma TakeDrop(s: string, i: nat, n: nat)
    requires i + n <= |s|
    ensures s[i..][..n] == s[i..i + n]
  {
  }

  /** What the amount step accepts: an amount, then what the category step accepts after it. */
  lemma AmountSound(u: string) returns (a: nat)
    requires MatchAmount(u).Some?
    ensures 0 < a <= |u| && IsAmount(u[..a])
    ensures MatchAmount(u) == MatchCategory(u[..a], u[a..]) && MatchCategory(u[..a], u[a..]).Some?
  {
    a := AmountLength(u);
    AmountLengthIsAmount(u);
  }

  /** The leading white space of an accepted split is the run the scan takes. */
  lemma LeadingSpace(s: string, p: nat)
    requires 0 < p < |s| && AllSpace(s[..p]) && IsDigit(s[p])
    ensures SpaceRun(s) == p
  {
    assert forall i :: 0 <= i < p ==> s[..p][i] == s[i];
    BlankBounds(s[p]);
    SpaceRunExact(s, p);
  }

  /**
   * The category step on white space, then a rest `v[g..]` without `\n` that
   * ends in a non-blank character: it keeps a suffix of that rest which strips
   * to the same text.
   */
  lemma CategoryComplete(amount: string, v: string, g: nat)
    requires 0 < g < |v| && !IsPySpace(v[|v| - 1])
    requires AllSpace(v[..g]) && '\n' !in v[g..]
    ensures MatchCategory(amount, v).Some?
    ensures MatchCategory(amount, v).value.0 == amount
    ensures Strip(MatchCategory(amount, v).value.1) == Strip(v[g..])
  {
    assert forall i :: 0 <= i < g ==> v[..g][i] == v[i];
    SpaceRunAtLeast(v, g);
    SpaceRunFacts(v);
    var w := SpaceRun(v);
    assert w < |v|;
    var rest := v[w..];
    assert rest == v[g..][w - g..];
    assert v[g..] == v[g..w] + rest;
    var gap := v[g..w];
    assert AllSpace(gap) by {
      forall i | 0 <= i < |gap|
        ensures IsPySpace(gap[i])
      {
        assert gap[i] == v[g + i];
      }
    }
    LStripSpaces(gap, rest);
  }

  /** On an accepted split, the scan takes the same leading white space and amount. */
  lemma TailReachesCategory(s: string, p: nat, q: nat, t: nat)
    requires TailForm(s, p, q, t)
    ensures MatchTail(s) == MatchCategory(s[p..q], s[q..])
  {
    assert IsDigit(s[p..q][0]);
    LeadingSpace(s, p);
    var u := s[p..];
    assert u == s[p..q] + s[q..];
    assert IsPySpace(s[q..t][0]);
    AmountLengthExact(s[p..q], s[q..]);
    assert u[..q - p] == s[p..q] && u[q - p..] == s[q..];
  }

  /**
   * Completeness after the keyword: when the text ends in a non-blank
   * character, any accepted split is found by the scan, with the same amount
   * and, once stripped, the same category.
   */
  lemma MatchTailComplete(s: string, p: nat, q: nat, t: nat)
    requires s != [] && !IsPySpace(s[|s| - 1])
    requires TailForm(s, p, q, t)
    ensures MatchTail(s).Some?
    ensures MatchTail(s).value.0 == s[p..q]
    ensures Strip(MatchTail(s).value.1) == Strip(s[t..])
  {
    TailReachesCategory(s, p, q, t);
    var v, g := CategoryShift(s, q, t);
    CategoryComplete(s[p..q], v, g);
  }

  /** The part of an accepted split after the amount, in the indices of `v := s[q..]`. */
  lemma CategoryShift(s: string, q: nat, t: nat) returns (v: string, g: nat)
    requires q < t < |s| && !IsPySpace(s[|s| - 1])
    requires AllSpace(s[q..t]) && '\n' !in s[t..]
    ensures v == s[q..] && g == t - q
    ensures 0 < g < |v| && !IsPySpace(v[|v| - 1])
    ensures AllSpace(v[..g]) && '\n' !in v[g..] && v[g..] == s[t..]
  {
    v, g := s[q..], t - q;
    assert v[..g] == s[q..t] && v[g..] == s[t..];
    assert v[|v| - 1] == s[|s| - 1];
  }

  /** The keyword the scan finds is the one the message starts with. */
  lemma KeywordExact(m: string, k: nat)
    requires k <= |m| && (m[..k] == "add" || m[..k] == "spent")
    ensures Keyword(m) == k
  {
    if m[..k] == "spent" {
      assert m[0] == 's';
    }
  }

  /** Soundness: whatever the scan matches is in the language of the regular expression. */
  lemma MatchSound(m: string) returns (k: nat, p: nat, q: nat, t: nat)
    requires MatchExpense(m).Some?
    ensures ExpenseForm(m, k, p, q, t)
    ensures MatchExpense(m).value == (m[k..][p..q], m[k..][t..])
  {
    k := Keyword(m);
    p, q, t := MatchTailSound(m[k..]);
  }

  /**
   * Completeness: on a stripped message, any split the regular expression
   * accepts is found by the scan, with the same amount and, once stripped,
   * the same category.
   */
  lemma MatchComplete(m: string, k: nat, p: nat, q: nat, t: nat)
    requires Stripped(m)
    requires ExpenseForm(m, k, p, q, t)
    ensures MatchExpense(m).Some?
    ensures MatchExpense(m).value.0 == m[k..][p..q]
    ensures Strip(MatchExpense(m).value.1) == Strip(m[k..][t..])
  {
    KeywordExact(m, k);
    assert m[k..][|m| - k - 1] == m[|m| - 1];
    MatchTailComplete(m[k..], p, q, t);
  }

  /* ---------- `parse_command` ---------- */

  /** Lower-casing and stripping again changes nothing: the message is classified in normal form. */
  lemma NormalizeIdempotent(message: string)
    ensures Normalize(Normalize(message)) == Normalize(message)
    ensures ParseCommand(Normalize(message)) == ParseCommand(message)
  {
    var low := Lower(message);
    var m := Strip(low);
    NormalFormIsLower(message);
    StripIsStripped(low);
    StripOfStripped(m);
  }

  /** The normal form has no upper-case letters left. */
  lemma NormalFormIsLower(message: string)
    ensures Lower(Normalize(message)) == Normalize(message)
  {
    var low := Lower(message);
    var m := Strip(low);
    StripIsInfix(low);
    var off := |low| - |LStrip(low)|;
    forall i | 0 <= i < |m|
      ensures !('A' <= m[i] <= 'Z')
    {
      assert m[i] == low[off + i];
    }
    LowerOfLowercase(m);
  }

  /** White space has no upper-case letters. */
  lemma SpacesAreLowercase(ws: string)
    requires AllSpace(ws)
    ensures Lower(ws) == ws
  {
    forall i | 0 <= i < |ws|
      ensures !('A' <= ws[i] <= 'Z')
    {
      BlankBounds(ws[i]);
    }
    LowerOfLowercase(ws);
  }

  lemma LowerSurrounded(ws1: string, message: string, ws2: string)
    requires AllSpace(ws1) && AllSpace(ws2)
    ensures Lower(ws1 + message + ws2) == ws1 + Lower(message) + ws2
  {
    LowerAppend(ws1 + message, ws2);
    LowerAppend(ws1, message);
    SpacesAreLowercase(ws1);
    SpacesAreLowercase(ws2);
  }

  /** White space around the message does not change the outcome. */
  lemma SurroundingSpaceIgnored(message: string, ws1: string, ws2: string)
    requires AllSpace(ws1) && AllSpace(ws2)
    ensures Normalize(ws1 + message + ws2) == Normalize(message)
    ensures ParseCommand(ws1 + message + ws2) == ParseCommand(message)
  {
    LowerSurrounded(ws1, message, ws2);
    StripSurrounded(ws1, Lower(message), ws2);
  }

  /** A lower-case keyword with no white space at its ends survives normalisation unchanged. */
  lemma NormalizeAfterKeyword(kw: string, rest: string)
    requires kw != [] && Lower(kw) == kw
    requires !IsPySpace(kw[0]) && !IsPySpace(kw[|kw| - 1])
    ensures Normalize(kw + rest) == kw + RStrip(Lower(rest))
  {
    LowerAppend(kw, rest);
    RStripAfter(kw, Lower(rest));
  }

  lemma ClassifyAddSpent(z: string)
    ensures Classify("add" + z) == Classify("spent" + z)
  {
    assert ("add" + z)[..3] == "add";
    assert ("spent" + z)[..5] == "spent";
    KeywordExact("add" + z, 3);
    KeywordExact("spent" + z, 5);
    assert ("add" + z)[3..] == z;
    assert ("spent" + z)[5..] == z;
    assert ("add" + z)[0] == 'a';
    assert ("spent" + z)[0] == 's';
  }

  /** `add` and `spent` are interchangeable. */
  lemma AddSpentAgree(rest: string)
    ensures ParseCommand("add" + rest) == ParseCommand("spent" + rest)
  {
    AddNormal(rest);
    SpentNormal(rest);
    ClassifyAddSpent(RStrip(Lower(rest)));
  }

  lemma AddKeyword()
    ensures Lower("add") == "add" && !IsPySpace('a') && !IsPySpace('d')
  {
    BlankBounds('a');
    BlankBounds('d');
  }

  lemma SpentKeyword()
    ensures Lower("spent") == "spent" && !IsPySpace('s') && !IsPySpace('t')
  {
    BlankBounds('s');
    BlankBounds('t');
  }

  lemma AddNormal(rest: string)
    ensures Normalize("add" + rest) == "add" + RStrip(Lower(rest))
  {
    AddKeyword();
    NormalizeAfterKeyword("add", rest);
  }

  lemma SpentNormal(rest: string)
    ensures Normalize("spent" + rest) == "spent" + RStrip(Lower(rest))
  {
    SpentKeyword();
    NormalizeAfterKeyword("spent", rest);
  }

  /**
   * An expense is recognised for every message whose normal form the regular
   * expression accepts; the amount is the matched text and the category the
   * rest, stripped.
   */
  lemma ParseAddComplete(message: string, k: nat, p: nat, q: nat, t: nat)
    requires ExpenseForm(Normalize(message), k, p, q, t)
    ensures var s := Normalize(message)[k..];
            ParseCommand(message) == Success(AddExpense(s[p..q], Strip(s[t..])))
  {
    StripIsStripped(Lower(message));
    MatchComplete(Normalize(message), k, p, q, t);
  }

  /** Only such messages are recognised as an expense. */
  lemma ParseAddSound(message: string) returns (k: nat, p: nat, q: nat, t: nat)
    requires ParseCommand(message).Success? && ParseCommand(message).value.AddExpense?
    ensures ExpenseForm(Normalize(message), k, p, q, t)
    ensures var s := Normalize(message)[k..];
            ParseCommand(message).value == AddExpense(s[p..q], Strip(s[t..]))
  {
    k, p, q, t := MatchSound(Normalize(message));
  }

  /** What the scan matches in a stripped message: an amount, and a category that strips to non-empty text. */
  lemma MatchShape(m: string)
    requires Stripped(m) && MatchExpense(m).Some?
    ensures IsAmount(MatchExpense(m).value.0)
    ensures Strip(MatchExpense(m).value.1) != []
  {
    var k := KeywordSplit(m);
    var j := MatchTailParts(m[k..]);
    DropDrop(m, k, j);
    var category := m[k + j..];
    assert category[|category| - 1] == m[|m| - 1];
    StripKeepsLast(category);
  }

  /** A match is the match after the keyword. */
  lemma KeywordSplit(m: string) returns (k: nat)
    requires MatchExpense(m).Some?
    ensures 0 < k <= |m| && MatchExpense(m) == MatchTail(m[k..])
  {
    k := Keyword(m);
  }

  /** The amount the scan takes after the keyword is an amount, and the rest is a non-empty suffix. */
  lemma MatchTailParts(s: string) returns (j: nat)
    requires MatchTail(s).Some?
    ensures 0 < j < |s| && MatchTail(s).value.1 == s[j..]
    ensures IsAmount(MatchTail(s).value.0)
  {
    var p, q, t := MatchTailSound(s);
    j := t;
  }

  /** An expense match is classified as `add_expense` with the category stripped. */
  lemma ClassifyAdd(m: string)
    requires MatchExpense(m).Some?
    ensures Classify(m) == Success(AddExpense(MatchExpense(m).value.0, Strip(MatchExpense(m).value.1)))
  {
  }

  /**
   * A recognised expense has an amount that `float` accepts (`\d+\.?\d*`) and
   * a non-empty, stripped category.
   */
  lemma AddedExpenseShape(message: string)
    requires ParseCommand(message).Success? && ParseCommand(message).value.AddExpense?
    ensures IsAmount(ParseCommand(message).value.amount)
    ensures ParseCommand(message).value.category != []
    ensures Stripped(ParseCommand(message).value.category)
  {
    var m := Normalize(message);
    StripIsStripped(Lower(message));
    MatchShape(m);
    ClassifyAdd(m);
    StripIsStripped(MatchExpense(m).value.1);
  }

  /** A message that starts with neither `a` nor `s` has no keyword, so no expense match. */
  lemma NoKeyword(m: string)
    requires m != [] && m[0] != 'a' && m[0] != 's'
    ensures Keyword(m) == 0 && MatchExpense(m) == None
  {
    if |m| >= 3 {
      assert m[..3][0] == m[0];
    }
    if |m| >= 5 {
      assert m[..5][0] == m[0];
    }
  }

  /**
   * `HTTPException(400)` is raised exactly when the normal form is neither
   * accepted by the regular expression nor `balance` nor `last`.
   */
  lemma RejectIff(message: string)
    ensures var m := Normalize(message);
            ParseCommand(message).Failure? <==>
              && (forall k: nat, p: nat, q: nat, t: nat :: !ExpenseForm(m, k, p, q, t))
              && m != "balance" && m != "last"
  {
    var m := Normalize(message);
    StripIsStripped(Lower(message));
    forall k: nat, p: nat, q: nat, t: nat | ExpenseForm(m, k, p, q, t)
      ensures MatchExpense(m).Some?
    {
      MatchComplete(m, k, p, q, t);
    }
    if MatchExpense(m).Some? {
      var k, p, q, t := MatchSound(m);
    }
  }
}
