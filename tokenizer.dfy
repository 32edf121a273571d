/**
 * The tokenizer of `CommandParser.parse`: all matches of the global regular
 * expression `(?:[^\s"]+|"[^"]*")+` in the input, in order.  A token is a
 * maximal run of characters that are neither white space nor `"`, glued to
 * closed `"..."` spans; a `"` with no later `"` matches nothing and is
 * skipped like white space.
 */
module Tokenizer {
  import opened Wrappers

  /** The class `\s` of JavaScript regular expressions. */
  predicate IsSpace(c: char)
  {
    c == '\t' || c == '\n' || c == '\U{B}' || c == '\U{C}' || c == '\r' || c == ' ' ||
    c == '\U{A0}' || c == '\U{1680}' || ('\U{2000}' <= c <= '\U{200A}') ||
    c == '\U{2028}' || c == '\U{2029}' || c == '\U{202F}' || c == '\U{205F}' ||
    c == '\U{3000}' || c == '\U{FEFF}'
  }

  /** The class `[^\s"]`. */
  predicate IsWordChar(c: char)
  {
    !IsSpace(c) && c != '"'
  }

  /** Index of the first `"` in `s`, if any. */
  function QuoteIndex(s: string): (r: Option<nat>)
    ensures r.Some? ==> r.value < |s| && s[r.value] == '"' && forall k :: 0 <= k < r.value ==> s[k] != '"'
    ensures r.None? ==> forall k :: 0 <= k < |s| ==> s[k] != '"'
  {
    if s == [] then None
    else if s[0] == '"' then Some(0)
    else match QuoteIndex(s[1..])
      case None => None
      case Some(k) => Some(k + 1)
  }

  /**
   * Length of the greedy match of `(?:[^\s"]+|"[^"]*")+` at the start of `s`
   * (0 when there is none): word characters are taken one by one, and a `"`
   * is taken together with everything up to the next `"` when there is one.
   */
  function MatchLength(s: string): (n: nat)
    ensures n <= |s|
    decreases |s|
  {
    if s == [] then 0
    else if IsWordChar(s[0]) then 1 + MatchLength(s[1..])
    else if s[0] == '"' && QuoteIndex(s[1..]).Some? then
      var k := QuoteIndex(s[1..]).value + 2;
      k + MatchLength(s[k..])
    else 0
  }

  /** `input.match(/(?:[^\s"]+|"[^"]*")+/g)`, with `null` read as no tokens. */
  function Tokenize(s: string): (tokens: seq<string>)
    ensures forall i :: 0 <= i < |tokens| ==> |tokens[i]| > 0
    decreases |s|
  {
    if s == [] then []
    else
      var n := MatchLength(s);
      if n == 0 then Tokenize(s[1..]) else [s[..n]] + Tokenize(s[n..])
  }

  /** The shape of a token: word characters and closed quoted spans glued together. */
  predicate Glued(t: string)
    decreases |t|
  {
    if t == [] then true
    else if IsWordChar(t[0]) then Glued(t[1..])
    else t[0] == '"' && QuoteIndex(t[1..]).Some? && Glued(t[QuoteIndex(t[1..]).value + 2..])
  }

  /** The input words separated by single spaces. */
  function Join(words: seq<string>): string
  {
    if words == [] then ""
    else if |words| == 1 then words[0]
    else words[0] + " " + Join(words[1..])
  }

  /** A `"` followed by a phrase without `"` and a closing `"`. */
  function Quote(phrase: string): string
  {
    "\"" + phrase + "\""
  }

  lemma {:induction false} QuoteIndexAppend(a: string, b: string)
    requires QuoteIndex(a).Some?
    ensures QuoteIndex(a + b) == QuoteIndex(a)
  {
    if a[0] != '"' {
      assert (a + b)[1..] == a[1..] + b;
      QuoteIndexAppend(a[1..], b);
    }
  }

  /** Every match is glued: it consists of word characters and closed quoted spans only. */
  lemma {:induction false} MatchIsGlued(s: string)
    ensures Glued(s[..MatchLength(s)])
    decreases |s|, 1
  {
    var n := MatchLength(s);
    if s == [] || n == 0 {
    } else if IsWordChar(s[0]) {
      MatchIsGlued(s[1..]);
      assert s[..n][1..] == s[1..][..MatchLength(s[1..])];
    } else {
      MatchIsGluedQuoted(s);
    }
  }

  /** A match that opens with a quoted span is glued. */
  lemma {:induction false} MatchIsGluedQuoted(s: string)
    requires s != [] && !IsWordChar(s[0]) && MatchLength(s) > 0
    ensures Glued(s[..MatchLength(s)])
    decreases |s|, 0
  {
    var q := QuoteIndex(s[1..]).value;
    var k := q + 2;
    var n := MatchLength(s);
    MatchIsGlued(s[k..]);
    var t := s[..n];
    assert t[1..][q] == s[1..][q];
    forall i | 0 <= i < q ensures t[1..][i] != '"' {
      assert t[1..][i] == s[1..][i];
    }
    QuoteIndexFirst(t[1..], q);
    assert t[k..] == s[k..][..MatchLength(s[k..])];
  }

  /** The first `"` of `s` is at `q`. */
  lemma {:induction false} QuoteIndexFirst(s: string, q: nat)
    requires q < |s| && s[q] == '"'
    requires forall i :: 0 <= i < q ==> s[i] != '"'
    ensures QuoteIndex(s) == Some(q)
    decreases q
  {
    if q > 0 {
      QuoteIndexFirst(s[1..], q - 1);
    }
  }

  /** A glued token followed by white space (or by nothing) is matched exactly. */
  lemma {:induction false} MatchOfGlued(t: string, rest: string)
    requires Glued(t)
    requires rest == [] || IsSpace(rest[0])
    ensures MatchLength(t + rest) == |t|
    decreases |t|, 1
  {
    if t == [] {
      assert t + rest == rest;
    } else if IsWordChar(t[0]) {
      assert (t + rest)[1..] == t[1..] + rest;
      MatchOfGlued(t[1..], rest);
    } else {
      MatchOfGluedQuoted(t, rest);
    }
  }

  /** The case of `MatchOfGlued` where the token opens with a quoted span. */
  lemma {:induction false} MatchOfGluedQuoted(t: string, rest: string)
    requires t != [] && !IsWordChar(t[0]) && Glued(t)
    requires rest == [] || IsSpace(rest[0])
    ensures MatchLength(t + rest) == |t|
    decreases |t|, 0
  {
    var s := t + rest;
    var k := QuoteIndex(t[1..]).value + 2;
    assert s[0] == '"';
    assert s[1..] == t[1..] + rest;
    QuoteIndexAppend(t[1..], rest);
    assert s[k..] == t[k..] + rest;
    MatchOfGlued(t[k..], rest);
  }

  /** Tokenizing words joined by single spaces gives the words back, when each is a non-empty glued token. */
  lemma {:induction false} TokenizeJoin(words: seq<string>)
    requires forall i :: 0 <= i < |words| ==> |words[i]| > 0 && Glued(words[i])
    ensures Tokenize(Join(words)) == words
  {
    if words == [] {
    } else if |words| == 1 {
      var t := words[0];
      MatchOfGlued(t, []);
      assert t + [] == t;
      assert t[..|t|] == t && t[|t|..] == [];
    } else {
      var t := words[0];
      var rest := " " + Join(words[1..]);
      var s := t + rest;
      assert Join(words) == s;
      MatchOfGlued(t, rest);
      assert s[..|t|] == t;
      assert s[|t|..] == rest;
      assert rest[1..] == Join(words[1..]);
      TokenizeJoin(words[1..]);
    }
  }

  /** Every token is glued: word characters and closed quoted spans, nothing else. */
  lemma {:induction false} TokensAreGlued(s: string)
    ensures forall i :: 0 <= i < |Tokenize(s)| ==> Glued(Tokenize(s)[i])
    decreases |s|
  {
    if s != [] {
      var n := MatchLength(s);
      if n == 0 {
        TokensAreGlued(s[1..]);
      } else {
        MatchIsGlued(s);
        TokensAreGlued(s[n..]);
      }
    }
  }

  /** There is a match somewhere exactly when there is a word character or two `"`. */
  predicate HasMatch(s: string)
  {
    (exists i :: 0 <= i < |s| && IsWordChar(s[i])) ||
    (exists i, j :: 0 <= i < j < |s| && s[i] == '"' && s[j] == '"')
  }

  /** The input has no tokens exactly when it holds no word character and at most one `"`. */
  lemma {:induction false} NoTokensIff(s: string)
    ensures Tokenize(s) == [] <==> !HasMatch(s)
    decreases |s|
  {
    if s == [] {
    } else if MatchLength(s) == 0 {
      NoTokensIff(s[1..]);
      assert !IsWordChar(s[0]);
      if HasMatch(s) {
        if exists i :: 0 <= i < |s| && IsWordChar(s[i]) {
          var i :| 0 <= i < |s| && IsWordChar(s[i]);
          assert s[1..][i - 1] == s[i];
        } else {
          var i, j :| 0 <= i < j < |s| && s[i] == '"' && s[j] == '"';
          if i == 0 {
            assert false;
          }
          assert s[1..][i - 1] == '"' && s[1..][j - 1] == '"';
        }
      }
      if HasMatch(s[1..]) {
        if exists i :: 0 <= i < |s[1..]| && IsWordChar(s[1..][i]) {
          var i :| 0 <= i < |s[1..]| && IsWordChar(s[1..][i]);
          assert s[i + 1] == s[1..][i];
        } else {
          var i, j :| 0 <= i < j < |s[1..]| && s[1..][i] == '"' && s[1..][j] == '"';
          assert s[i + 1] == '"' && s[j + 1] == '"';
        }
      }
    } else {
      if IsWordChar(s[0]) {
        assert HasMatch(s);
      } else {
        var k := QuoteIndex(s[1..]).value;
        assert s[k + 1] == '"';
        assert HasMatch(s);
      }
    }
  }

  /** A quoted phrase without `"` is one glued token, white space inside and all. */
  lemma QuotedIsGlued(phrase: string)
    requires forall i :: 0 <= i < |phrase| ==> phrase[i] != '"'
    ensures Glued(Quote(phrase))
  {
    var t := Quote(phrase);
    assert t[1..] == phrase + "\"";
    assert QuoteIndex(t[1..]) == Some(|phrase|) by {
      QuoteIndexNone(phrase);
      QuoteIndexAfter(phrase, "\"");
    }
    assert t[|phrase| + 2..] == [];
  }

  lemma {:induction false} QuoteIndexNone(s: string)
    requires forall i :: 0 <= i < |s| ==> s[i] != '"'
    ensures QuoteIndex(s).None?
  {
  }

  lemma {:induction false} QuoteIndexAfter(a: string, b: string)
    requires QuoteIndex(a).None? && QuoteIndex(b).Some?
    ensures QuoteIndex(a + b) == Some(|a| + QuoteIndex(b).value)
    decreases |a|
  {
    if a == [] {
      assert a + b == b;
    } else {
      assert (a + b)[1..] == a[1..] + b;
      QuoteIndexAfter(a[1..], b);
    }
  }
}
