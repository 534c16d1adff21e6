/**
 * What the substitution loop of the reconstructor (XEStreamer.cs:279-323)
 * does to each piece of the statement: a parameter reference `@name` outside
 * quotes becomes its value, a string literal is copied whole even when it
 * contains `@`, and every other character is copied. Rendering does not
 * depend on what precedes the position it starts from, so each piece can be
 * read off on its own.
 */
module Substitution {
  import opened Wrappers
  import opened Text
  import opened Quoting
  import opened Reconstruct
  import opened ReconstructProperties

  /** The literal scan reads the same in `b` and in `a + b` at the same offset. */
  lemma {:induction false} QuoteEndShift(a: string, b: string, j: nat)
    requires j <= |b|
    ensures QuoteEnd(a + b, |a| + j) ==
      if QuoteEnd(b, j).Some? then Some(|a| + QuoteEnd(b, j).value) else None
    decreases |b| - j
  {
    var s := a + b;
    if j < |b| {
      assert s[|a| + j] == b[j];
      if b[j] == '\'' {
        if j + 1 < |b| {
          assert s[|a| + j + 1] == b[j + 1];
        }
        if j + 1 < |b| && b[j + 1] == '\'' {
          QuoteEndShift(a, b, j + 2);
        }
      } else {
        QuoteEndShift(a, b, j + 1);
      }
    }
  }

  /** The identifier scan reads the same in `b` and in `a + b` at the same offset. */
  lemma {:induction false} IdentEndShift(a: string, b: string, j: nat)
    requires j <= |b|
    ensures IdentEnd(a + b, |a| + j) == |a| + IdentEnd(b, j)
    decreases |b| - j
  {
    if j < |b| {
      assert (a + b)[|a| + j] == b[j];
      if IsWordChar(b[j]) {
        IdentEndShift(a, b, j + 1);
      }
    }
  }

  /** A token of `b` ends at the same offset in `a + b`. */
  lemma {:induction false} TokenEndShift(a: string, b: string, i: nat)
    requires i < |b| && IsSkipChar(b[i])
    ensures (a + b)[|a| + i] == b[i]
    ensures TokenEnd(a + b, |a| + i) == |a| + TokenEnd(b, i)
  {
    assert (a + b)[|a| + i] == b[i];
    if b[i] == '\'' {
      QuoteEndShift(a, b, i + 1);
    } else {
      IdentEndShift(a, b, i + 1);
    }
  }

  /** A token of `b` is the same token of `a + b`, at the same offset. */
  lemma {:induction false} TokenShift(a: string, b: string, m: map<string, string>, i: nat)
    requires i < |b| && IsSkipChar(b[i])
    ensures (a + b)[|a| + i] == b[i]
    ensures TokenEnd(a + b, |a| + i) == |a| + TokenEnd(b, i)
    ensures Token(a + b, m, |a| + i) == Token(b, m, i)
  {
    TokenEndShift(a, b, i);
    var e := TokenEnd(b, i);
    assert (a + b)[|a| + i..|a| + e] == b[i..e];
  }

  /** Rendering from an offset of `b` does not depend on the text `a` before it. */
  lemma {:induction false} RenderShift(a: string, b: string, m: map<string, string>, i: nat)
    requires i <= |b|
    ensures Render(a + b, m, |a| + i) == Render(b, m, i)
    decreases |b| - i
  {
    var s := a + b;
    if i < |b| {
      assert s[|a| + i] == b[i];
      if IsSkipChar(b[i]) {
        TokenShift(a, b, m, i);
        RenderShift(a, b, m, TokenEnd(b, i));
      } else {
        RenderShift(a, b, m, i + 1);
      }
    }
  }

  /** A text free of `@` and quotes. */
  predicate Plain(s: string)
  {
    forall k :: 0 <= k < |s| ==> !IsSkipChar(s[k])
  }

  /** A text made only of word characters: letters, digits and `_`. */
  predicate Word(s: string)
  {
    forall k :: 0 <= k < |s| ==> IsWordChar(s[k])
  }

  /** The plain text before a token is copied, and the rendering goes on with the rest on its own. */
  lemma {:induction false} RenderAfterPlain(pre: string, rest: string, m: map<string, string>)
    requires Plain(pre)
    ensures Render(pre + rest, m, 0) == pre + Render(rest, m, 0)
  {
    var s := pre + rest;
    assert forall k :: 0 <= k < |pre| ==> s[k] == pre[k];
    RenderPlain(s, m, 0, |pre|);
    assert s[0..|pre|] == pre;
    RenderShift(pre, rest, m, 0);
  }

  /** The identifier scan at the start of `w + post` ends after the whole word `w`. */
  lemma {:induction false} IdentEndOfWord(w: string, post: string)
    requires Word(w)
    requires post == [] || !IsWordChar(post[0])
    ensures IdentEnd(w + post, 0) == |w|
    decreases |w|
  {
    if w != [] {
      assert (w + post)[0] == w[0];
      assert w + post == [w[0]] + (w[1..] + post);
      IdentEndOfWord(w[1..], post);
      IdentEndShift([w[0]], w[1..] + post, 0);
    } else {
      assert w + post == post;
    }
  }

  /** A reference `@w` followed by a non-word character ends after `w`. */
  lemma {:induction false} ReferenceEnd(w: string, post: string)
    requires Word(w)
    requires post == [] || !IsWordChar(post[0])
    ensures ("@" + w + post)[0] == '@'
    ensures TokenEnd("@" + w + post, 0) == 1 + |w|
  {
    var x := "@" + w + post;
    assert x == "@" + (w + post);
    IdentEndShift("@", w + post, 0);
    IdentEndOfWord(w, post);
  }

  /** A reference at the start of the text: replaced by its lookup, and the rendering goes on after it. */
  lemma {:induction false} RenderReferenceFirst(w: string, post: string, m: map<string, string>)
    requires Word(w)
    requires post == [] || !IsWordChar(post[0])
    ensures Render("@" + w + post, m, 0) == Lookup(m, "@" + w) + Render(post, m, 0)
  {
    var x := "@" + w + post;
    ReferenceEnd(w, post);
    assert x[0..1 + |w|] == "@" + w;
    RenderToken(x, m, 0);
    RenderShift("@" + w, post, m, 0);
  }

  /**
   * A parameter reference outside quotes: `@w`, with `w` a whole word (the
   * next character is not a word character), is replaced by its value, or
   * kept as written when it has none.
   */
  lemma {:induction false} RenderReference(pre: string, w: string, post: string, m: map<string, string>)
    requires Plain(pre) && Word(w)
    requires post == [] || !IsWordChar(post[0])
    ensures Render(pre + "@" + w + post, m, 0) == pre + Lookup(m, "@" + w) + Render(post, m, 0)
  {
    calc {
      Render(pre + "@" + w + post, m, 0);
    == { assert pre + "@" + w + post == pre + ("@" + w + post); }
      Render(pre + ("@" + w + post), m, 0);
    == { RenderAfterPlain(pre, "@" + w + post, m); }
      pre + Render("@" + w + post, m, 0);
    == { RenderReferenceFirst(w, post, m); }
      pre + (Lookup(m, "@" + w) + Render(post, m, 0));
    }
  }

  /** A well-escaped literal not followed by a quote is one token, ending at its closing quote. */
  lemma {:induction false} LiteralTokenEnd(body: string, post: string)
    requires EscapedBody(body)
    requires post == [] || post[0] != '\''
    ensures ("'" + body + "'" + post)[0] == '\''
    ensures TokenEnd("'" + body + "'" + post, 0) == |body| + 2
  {
    var x := "'" + body + "'" + post;
    assert x == "'" + (body + ("'" + post));
    assert x[0] == '\'';
    assert At(x, 1, body) by {
      assert x[1..1 + |body|] == body;
    }
    assert x[1 + |body|] == '\'';
    assert 1 + |body| + 1 == |x| || x[1 + |body| + 1] != '\'' by {
      if post != [] {
        assert x[|body| + 2] == post[0];
      }
    }
    ReconstructProperties.LiteralEnd(x, 1, body);
  }

  /** A literal at the start of the text: copied whole, and the rendering goes on after it. */
  lemma {:induction false} RenderLiteralFirst(body: string, post: string, m: map<string, string>)
    requires EscapedBody(body)
    requires post == [] || post[0] != '\''
    ensures Render("'" + body + "'" + post, m, 0) == "'" + body + "'" + Render(post, m, 0)
  {
    var lit := "'" + body + "'";
    var x := lit + post;
    LiteralTokenEnd(body, post);
    assert x[0..|lit|] == lit;
    RenderToken(x, m, 0);
    RenderShift(lit, post, m, 0);
  }

  /** A well-escaped literal after plain text is copied whole, whatever it contains. */
  lemma {:induction false} RenderLiteralBody(pre: string, body: string, post: string, m: map<string, string>)
    requires Plain(pre) && EscapedBody(body)
    requires post == [] || post[0] != '\''
    ensures Render(pre + "'" + body + "'" + post, m, 0) == pre + "'" + body + "'" + Render(post, m, 0)
  {
    var lit := "'" + body + "'";
    calc {
      Render(pre + "'" + body + "'" + post, m, 0);
    == { assert pre + "'" + body + "'" + post == pre + (lit + post); }
      Render(pre + (lit + post), m, 0);
    == { RenderAfterPlain(pre, lit + post, m); }
      pre + Render(lit + post, m, 0);
    == { RenderLiteralFirst(body, post, m); }
      pre + (lit + Render(post, m, 0));
    == { assert pre + (lit + Render(post, m, 0)) == pre + "'" + body + "'" + Render(post, m, 0); }
      pre + "'" + body + "'" + Render(post, m, 0);
    }
  }

  /**
   * A string literal outside any other token, written as T-SQL writes it
   * (quotes doubled inside), is copied whole: an `@` inside it is not a
   * reference.
   */
  lemma {:induction false} RenderLiteral(pre: string, t: string, post: string, m: map<string, string>)
    requires Plain(pre)
    requires post == [] || post[0] != '\''
    ensures Render(pre + "'" + Escape(t) + "'" + post, m, 0) == pre + "'" + Escape(t) + "'" + Render(post, m, 0)
  {
    EscapeIsEscapedBody(t);
    RenderLiteralBody(pre, Escape(t), post, m);
  }

  /** The dictionary built from one assignment maps its name to its value. */
  lemma {:induction false} OneBinding(name: string, v: ArgValue)
    ensures Lookup(BuildMap(Bindings([Arg(name, v)])), name) == ArgText(v)
  {
    var bs := Bindings([Arg(name, v)]);
    assert [Arg(name, v)][1..] == [];
    assert bs == [Binding(name, ArgText(v))];
    BuildMapLast(bs, name, 0);
  }

  /**
   * End to end: a call whose statement references `@w` once, outside
   * quotes, with the argument `,@w=v`, is reconstructed into the statement
   * with the reference replaced by `v`.
   */
  lemma {:induction false} FillSubstitutes(pre: string, w: string, post: string, defs: string, v: string)
    requires Plain(pre) && Word(w) && |w| >= 1 && BareReadsBack(v)
    requires post == [] || !IsWordChar(post[0])
    requires forall k :: 0 <= k < |post| ==> post[k] != '@'
    ensures |Call(pre + "@" + w + post, defs, [Arg("@" + w, Bare(v))])| >= |ParamStmtPrefix|
    ensures Fill(Call(pre + "@" + w + post, defs, [Arg("@" + w, Bare(v))])) == Some(pre + v + post)
  {
    var stmt := pre + "@" + w + post;
    var args := [Arg("@" + w, Bare(v))];
    var m := BuildMap(Bindings(args));
    assert AllWellFormed(args) by {
      assert forall k :: 0 <= k < |"@" + w| ==> ("@" + w)[k] != '=' by {
        assert forall k :: 1 <= k < |"@" + w| ==> ("@" + w)[k] == w[k - 1];
      }
    }
    FillCall(stmt, defs, args);
    OneBinding("@" + w, Bare(v));
    RenderReference(pre, w, post, m);
    RenderWithoutReferences(post, m, 0);
    assert post[0..] == post;
  }

  /** The instance `,@a=5`: the reference `@a` in the statement becomes `5`. */
  lemma {:induction false} FillSubstitutesExample(pre: string, post: string, defs: string)
    requires Plain(pre)
    requires post == [] || !IsWordChar(post[0])
    requires forall k :: 0 <= k < |post| ==> post[k] != '@'
    ensures |Call(pre + "@a" + post, defs, [Arg("@a", Bare("5"))])| >= |ParamStmtPrefix|
    ensures Fill(Call(pre + "@a" + post, defs, [Arg("@a", Bare("5"))])) == Some(pre + "5" + post)
  {
    assert Word("a") && BareReadsBack("5");
    assert pre + "@" + "a" + post == pre + "@a" + post;
    assert "@" + "a" == "@a";
    FillSubstitutes(pre, "a", post, defs, "5");
  }
}
