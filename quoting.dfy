/**
 * T-SQL string literals (XEStreamer.cs:204-226, 277): inside a literal a
 * doubled quote `''` stands for one quote, and the first quote that is not
 * doubled ends the literal.
 */
module Quoting {
  import opened Wrappers

  /** A literal's interior: every quote in it belongs to a doubled pair. */
  predicate EscapedBody(s: string)
    decreases |s|
  {
    s == [] ||
    (s[0] != '\'' && EscapedBody(s[1..])) ||
    (|s| >= 2 && s[0] == '\'' && s[1] == '\'' && EscapedBody(s[2..]))
  }

  /**
   * The scan SkipString performs from position `j`, just after an opening
   * quote: the index just past the closing quote, or None when the literal
   * is unterminated.
   */
  function QuoteEnd(s: string, j: nat): (r: Option<nat>)
    requires j <= |s|
    decreases |s| - j
    ensures r.Some? ==> j < r.value <= |s| && s[r.value - 1] == '\''
  {
    if j == |s| then None
    else if s[j] == '\'' then
      if j + 1 < |s| && s[j + 1] == '\'' then QuoteEnd(s, j + 2) else Some(j + 1)
    else QuoteEnd(s, j + 1)
  }

  /** Soundness of the scan: the interior is well escaped and the closing quote is not doubled. */
  lemma {:induction false} QuoteEndSound(s: string, j: nat)
    requires j <= |s| && QuoteEnd(s, j).Some?
    ensures EscapedBody(s[j..QuoteEnd(s, j).value - 1])
    ensures QuoteEnd(s, j).value == |s| || s[QuoteEnd(s, j).value] != '\''
    decreases |s| - j
  {
    var k := QuoteEnd(s, j).value;
    if s[j] == '\'' {
      if j + 1 < |s| && s[j + 1] == '\'' {
        QuoteEndSound(s, j + 2);
        assert s[j..k - 1][2..] == s[j + 2..k - 1];
      } else {
        assert s[j..k - 1] == [];
      }
    } else {
      QuoteEndSound(s, j + 1);
      assert s[j..k - 1][1..] == s[j + 1..k - 1];
    }
  }

  /** Completeness of the scan: a well-escaped interior closed by an undoubled quote at `e` is found. */
  lemma {:induction false} QuoteEndComplete(s: string, j: nat, e: nat)
    requires j <= e < |s| && s[e] == '\''
    requires EscapedBody(s[j..e])
    requires e + 1 == |s| || s[e + 1] != '\''
    ensures QuoteEnd(s, j) == Some(e + 1)
    decreases e - j
  {
    if j < e {
      var body := s[j..e];
      if s[j] != '\'' {
        assert body[1..] == s[j + 1..e];
        QuoteEndComplete(s, j + 1, e);
      } else {
        assert body[0] == '\'' && body[1] == s[j + 1] && body[2..] == s[j + 2..e];
        QuoteEndComplete(s, j + 2, e);
      }
    }
  }

  /** `s[open..close]` is one complete literal: opening quote, well-escaped interior, undoubled closing quote. */
  predicate LiteralAt(s: string, open: nat, close: nat)
  {
    open + 2 <= close <= |s| && s[open] == '\'' && s[close - 1] == '\'' &&
    EscapedBody(s[open + 1..close - 1]) && (close == |s| || s[close] != '\'')
  }

  /** The scan finds exactly the literal that starts at `open`. */
  lemma {:induction false} QuoteEndIsLiteral(s: string, open: nat, close: nat)
    requires open < |s| && s[open] == '\''
    ensures QuoteEnd(s, open + 1) == Some(close) <==> LiteralAt(s, open, close)
  {
    if QuoteEnd(s, open + 1) == Some(close) {
      QuoteEndSound(s, open + 1);
    }
    if LiteralAt(s, open, close) {
      QuoteEndComplete(s, open + 1, close - 1);
    }
  }

  /**
   * `SkipString(sql, ref i)`: returns whether a literal starting at `i`
   * is terminated, and the new value of `i`.
   */
  method SkipString(sql: string, i0: nat) returns (ok: bool, i: nat)
    requires i0 < |sql|
    ensures sql[i0] != '\'' ==> !ok && i == i0
    ensures sql[i0] == '\'' ==> (ok <==> QuoteEnd(sql, i0 + 1).Some?)
    ensures ok ==> i == QuoteEnd(sql, i0 + 1).value
    ensures ok ==> i0 < i <= |sql| && sql[i - 1] == '\'' && EscapedBody(sql[i0 + 1..i - 1])
    ensures sql[i0] == '\'' && !ok ==> i == |sql|
  {
    i := i0;
    if sql[i] != '\'' {
      return false, i;
    }
    i := i + 1;
    while i < |sql|
      invariant i0 < i <= |sql|
      invariant QuoteEnd(sql, i) == QuoteEnd(sql, i0 + 1)
      decreases |sql| - i
    {
      var c := sql[i];
      i := i + 1;
      if c == '\'' {
        if i < |sql| && sql[i] == '\'' {
          // an escaped quote
          i := i + 1;
          continue;
        }
        QuoteEndSound(sql, i0 + 1);
        return true, i;
      }
    }
    return false, i;
  }

  /** Where SkipString leaves the index after a literal that starts at `i`, terminated or not. */
  function SkipEnd(s: string, i: nat): (r: nat)
    requires i < |s| && s[i] == '\''
    ensures i < r <= |s|
  {
    match QuoteEnd(s, i + 1)
    case Some(k) => k
    case None => |s|
  }

  /** `Replace("''", "'")`: left to right, non-overlapping. */
  function Unescape(s: string): (r: string)
    ensures |r| <= |s|
  {
    if |s| >= 2 && s[0] == '\'' && s[1] == '\'' then "'" + Unescape(s[2..])
    else if s == [] then []
    else [s[0]] + Unescape(s[1..])
  }

  /** The inverse encoding: every quote doubled. */
  function Escape(t: string): (r: string)
    ensures |r| >= |t|
  {
    if t == [] then [] else (if t[0] == '\'' then "''" else [t[0]]) + Escape(t[1..])
  }

  lemma {:induction false} UnescapeEscape(t: string)
    ensures Unescape(Escape(t)) == t
  {
    if t != [] {
      UnescapeEscape(t[1..]);
      if t[0] == '\'' {
        assert Escape(t)[2..] == Escape(t[1..]);
      } else {
        assert Escape(t)[1..] == Escape(t[1..]);
      }
    }
  }

  lemma {:induction false} EscapeIsEscapedBody(t: string)
    ensures EscapedBody(Escape(t))
  {
    if t != [] {
      EscapeIsEscapedBody(t[1..]);
      if t[0] == '\'' {
        assert Escape(t)[2..] == Escape(t[1..]);
      } else {
        assert Escape(t)[1..] == Escape(t[1..]);
      }
    }
  }

  lemma {:induction false} EscapeUnescape(s: string)
    requires EscapedBody(s)
    ensures Escape(Unescape(s)) == s
    decreases |s|
  {
    if s != [] {
      if s[0] == '\'' {
        EscapeUnescape(s[2..]);
        assert Unescape(s)[1..] == Unescape(s[2..]);
      } else {
        EscapeUnescape(s[1..]);
        assert Unescape(s)[1..] == Unescape(s[1..]);
      }
    }
  }
}
