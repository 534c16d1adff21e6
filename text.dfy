/**
 * The .NET string semantics the core relies on: ordinal case-insensitive
 * comparison (modelled as an ASCII case fold), `StartsWith`, `IndexOf`,
 * `char.IsLetterOrDigit`, and dictionaries keyed with
 * `StringComparer.OrdinalIgnoreCase`.
 */
module Text {
  import opened Wrappers

  /** ASCII lower-casing; every other character folds to itself. */
  function ToLower(c: char): (r: char)
    ensures 'A' <= c <= 'Z' ==> r as int == c as int + 32
    ensures !('A' <= c <= 'Z') ==> r == c
  {
    if 'A' <= c <= 'Z' then (c as int + 32) as char else c
  }

  /** The case-folded key under which `OrdinalIgnoreCase` compares strings. */
  function Fold(s: string): (r: string)
    ensures |r| == |s|
  {
    if s == [] then [] else [ToLower(s[0])] + Fold(s[1..])
  }

  lemma {:induction false} FoldAt(s: string, k: nat)
    requires k < |s|
    ensures Fold(s)[k] == ToLower(s[k])
  {
    if k > 0 {
      FoldAt(s[1..], k - 1);
    }
  }

  lemma {:induction false} FoldIdempotent(s: string)
    ensures Fold(Fold(s)) == Fold(s)
  {
    if s != [] {
      FoldIdempotent(s[1..]);
      assert Fold(s)[1..] == Fold(s[1..]);
    }
  }

  lemma {:induction false} FoldAppend(a: string, b: string)
    ensures Fold(a + b) == Fold(a) + Fold(b)
  {
    if a == [] {
      assert a + b == b;
    } else {
      calc {
        Fold(a + b);
      == { assert (a + b)[0] == a[0] && (a + b)[1..] == a[1..] + b; }
        [ToLower(a[0])] + Fold(a[1..] + b);
      == { FoldAppend(a[1..], b); }
        [ToLower(a[0])] + (Fold(a[1..]) + Fold(b));
      }
    }
  }

  /** `string.Equals(a, b, StringComparison.OrdinalIgnoreCase)`. */
  predicate EqIgnoreCase(a: string, b: string)
  {
    Fold(a) == Fold(b)
  }

  /** `s.StartsWith(p, StringComparison.OrdinalIgnoreCase)`. */
  predicate StartsWithIgnoreCase(s: string, p: string)
  {
    |p| <= |s| && Fold(s[..|p|]) == Fold(p)
  }

  /** A prefix test does not depend on the case of the prefix. */
  lemma {:induction false} StartsWithFolded(s: string, p: string)
    ensures StartsWithIgnoreCase(s, Fold(p)) <==> StartsWithIgnoreCase(s, p)
  {
    FoldIdempotent(p);
  }

  /**
   * `s.IndexOf(c, from)`: the first index at or after `from` holding `c`,
   * or -1. .NET throws when `from > |s|`, hence the precondition.
   */
  function IndexOf(s: string, c: char, from: nat): (r: int)
    requires from <= |s|
    decreases |s| - from
    ensures r == -1 || (from <= r < |s| && s[r] == c)
    ensures r == -1 ==> forall k :: from <= k < |s| ==> s[k] != c
    ensures r != -1 ==> forall k :: from <= k < r ==> s[k] != c
  {
    if from == |s| then -1
    else if s[from] == c then from
    else IndexOf(s, c, from + 1)
  }

  /** `x` occurs in `s` at index `i`. */
  predicate At(s: string, i: nat, x: string)
  {
    i + |x| <= |s| && s[i..i + |x|] == x
  }

  lemma {:induction false} AtConcat(s: string, i: nat, a: string, b: string)
    ensures At(s, i, a + b) <==> At(s, i, a) && At(s, i + |a|, b)
  {
    if i + |a| + |b| <= |s| {
      var w := s[i..i + |a| + |b|];
      assert w == s[i..i + |a|] + s[i + |a|..i + |a| + |b|];
      assert w[..|a|] == s[i..i + |a|] && w[|a|..] == s[i + |a|..i + |a| + |b|];
      assert (a + b)[..|a|] == a && (a + b)[|a|..] == b;
    }
  }

  lemma {:induction false} AtIndex(s: string, i: nat, x: string, k: nat)
    requires At(s, i, x) && k < |x|
    ensures s[i + k] == x[k]
  {
    assert s[i..i + |x|][k] == s[i + k];
  }

  /** IndexOf finds the first `c` from `from`, or reports none. */
  lemma {:induction false} IndexOfAt(s: string, c: char, from: nat, p: nat)
    requires from <= p <= |s|
    requires forall k :: from <= k < p ==> s[k] != c
    requires p == |s| || s[p] == c
    ensures IndexOf(s, c, from) == if p == |s| then -1 else p
  {
  }

  /** `char.IsLetterOrDigit`, restricted to ASCII. */
  predicate IsLetterOrDigit(c: char)
  {
    'a' <= c <= 'z' || 'A' <= c <= 'Z' || '0' <= c <= '9'
  }

  /** A word character: `\w` in a regular expression (ASCII part). */
  predicate IsWordChar(c: char)
  {
    IsLetterOrDigit(c) || c == '_'
  }

  /** Stores `v` under `key` in a dictionary built with `OrdinalIgnoreCase`. */
  function Put<V>(m: map<string, V>, key: string, v: V): (r: map<string, V>)
    ensures Fold(key) in r && r[Fold(key)] == v
    ensures forall k :: k in r && k != Fold(key) ==> k in m && r[k] == m[k]
    ensures forall k :: k in m && k != Fold(key) ==> k in r
  {
    m[Fold(key) := v]
  }

  /** `TryGetValue` on a dictionary built with `OrdinalIgnoreCase`. */
  function Get<V>(m: map<string, V>, key: string): Option<V>
  {
    if Fold(key) in m then Some(m[Fold(key)]) else None
  }

  /** A store overwrites exactly the keys equal to it ignoring case. */
  lemma {:induction false} GetPut<V>(m: map<string, V>, name: string, v: V, key: string)
    ensures Get(Put(m, name, v), key) == if EqIgnoreCase(name, key) then Some(v) else Get(m, key)
  {
  }
}
