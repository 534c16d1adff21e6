/**
 * What the reconstructor promises about the texts sp_executesql calls are
 * written in: a call assembled from a statement, its parameter definitions
 * and its arguments is read back into the statement with the arguments
 * substituted. Also the two shapes of text on which the code as written
 * reads past the end.
 */
module ReconstructProperties {
  import opened Wrappers
  import opened Text
  import opened Quoting
  import opened Reconstruct

  /** An argument value as a trace writes it: a bare token, or a string literal, `N`-prefixed or not. */
  datatype ArgValue = Bare(text: string) | Literal(national: bool, content: string)

  /** `@name=value` in an argument list. */
  datatype Arg = Arg(name: string, value: ArgValue)

  /** The opening of a string literal: `N'` or `'`. */
  function Quote(national: bool): string
  {
    if national then "N'" else "'"
  }

  function ArgText(v: ArgValue): string
  {
    match v
    case Bare(t) => t
    case Literal(n, c) => Quote(n) + Escape(c) + "'"
  }

  /** A bare value the scanner reads up to the next comma: no comma, and it does not open a literal. */
  predicate BareReadsBack(t: string)
  {
    (forall k :: 0 <= k < |t| ==> t[k] != ',') &&
    (t == [] || t[0] != '\'') &&
    !(|t| >= 2 && (t[0] == 'n' || t[0] == 'N') && t[1] == '\'')
  }

  /** An argument the assignment loop reads back as written: a non-empty name without `=`. */
  predicate WellFormed(a: Arg)
  {
    |a.name| >= 1 && (forall k :: 0 <= k < |a.name| ==> a.name[k] != '=') &&
    (a.value.Bare? ==> BareReadsBack(a.value.text))
  }

  predicate AllWellFormed(args: seq<Arg>)
  {
    forall k :: 0 <= k < |args| ==> WellFormed(args[k])
  }

  function Bindings(args: seq<Arg>): (bs: seq<Binding>)
    ensures |bs| == |args|
  {
    if args == [] then [] else [Binding(args[0].name, ArgText(args[0].value))] + Bindings(args[1..])
  }

  /** `,name=value` for one argument. */
  function Segment(a: Arg): string
  {
    "," + a.name + "=" + ArgText(a.value)
  }

  /** `exec sp_executesql N'<stmt>',N'<defs>'`. */
  function Head(stmt: string, defs: string): string
  {
    ParamStmtPrefix + Escape(stmt) + "',N'" + Escape(defs) + "'"
  }

  /** The call text: the head followed by `,name=value` per argument. */
  function Call(stmt: string, defs: string, args: seq<Arg>): string
  {
    Head(stmt, defs) + Serialized(Bindings(args))
  }

  /** Where a value ends: the end of the text, or the comma of the next assignment. */
  predicate ValueEndsAt(sql: string, k: nat)
  {
    k == |sql| || (k < |sql| && sql[k] == ',')
  }

  /** A well-escaped literal interior from `j`, closed by a quote that is not doubled, is found by the scan. */
  lemma {:induction false} LiteralEnd(sql: string, j: nat, body: string)
    requires At(sql, j, body) && EscapedBody(body)
    requires j + |body| < |sql| && sql[j + |body|] == '\''
    requires j + |body| + 1 == |sql| || sql[j + |body| + 1] != '\''
    ensures QuoteEnd(sql, j) == Some(j + |body| + 1)
  {
    QuoteEndComplete(sql, j, j + |body|);
  }

  /** A bare value is read up to the next comma or the end. */
  lemma {:induction false} ScanBare(sql: string, i: nat, t: string)
    requires At(sql, i, t) && BareReadsBack(t) && ValueEndsAt(sql, i + |t|)
    ensures ValueScanStart(sql, i) == i
    ensures i == |sql| || sql[i] != '\''
    ensures var c := IndexOf(sql, ',', i); (if c == -1 then |sql| else c) == i + |t|
  {
    forall k | i <= k < i + |t|
      ensures sql[k] == t[k - i]
    {
      AtIndex(sql, i, t, k - i);
    }
    IndexOfAt(sql, ',', i, i + |t|);
  }

  /** A text `q + body + "'"` splits into its three parts. */
  lemma {:induction false} QuotedParts(sql: string, i: nat, q: string, body: string)
    requires At(sql, i, q + body + "'")
    ensures At(sql, i, q) && At(sql, i + |q|, body)
    ensures i + |q| + |body| < |sql| && sql[i + |q| + |body|] == '\''
  {
    AtConcat(sql, i, q + body, "'");
    AtConcat(sql, i, q, body);
    AtIndex(sql, i + |q| + |body|, "'", 0);
  }

  /**
   * A literal value `q + body + "'"` at `i`, with its opening quote at `j`,
   * is read up to its closing quote, which ends before `k`.
   */
  lemma {:induction false} ScanLiteral(sql: string, i: nat, q: string, body: string, j: nat, k: nat)
    requires q == "'" || q == "N'"
    requires j + 1 == i + |q| && k == i + |q + body + "'"|
    requires At(sql, i, q + body + "'") && EscapedBody(body) && ValueEndsAt(sql, k)
    ensures ValueScanStart(sql, i) == j < |sql| && sql[j] == '\''
    ensures QuoteEnd(sql, j + 1) == Some(k)
  {
    QuotedParts(sql, i, q, body);
    AtIndex(sql, i, q, 0);
    if q == "N'" {
      AtIndex(sql, i, q, 1);
    }
    LiteralEnd(sql, i + |q|, body);
  }

  /** What sits at `p` is the slice up to `e`. */
  lemma {:induction false} Span(sql: string, p: nat, v: string, e: nat)
    requires At(sql, p, v) && e == p + |v|
    ensures p <= e <= |sql| && sql[p..e] == v
  {
  }

  /** A segment `,name=value` splits into its comma, name, equals sign and value. */
  lemma {:induction false} SegmentParts(sql: string, i: nat, a: Arg)
    requires At(sql, i, Segment(a)) && |a.name| >= 1
    ensures |Segment(a)| == |a.name| + |ArgText(a.value)| + 2
    ensures sql[i] == ',' && sql[i + 1 + |a.name|] == '='
    ensures At(sql, i + 1, a.name) && At(sql, i + 2 + |a.name|, ArgText(a.value))
  {
    AtConcat(sql, i, "," + a.name + "=", ArgText(a.value));
    AtConcat(sql, i, "," + a.name, "=");
    AtConcat(sql, i, ",", a.name);
    AtIndex(sql, i, ",", 0);
    AtIndex(sql, i + 1 + |a.name|, "=", 0);
  }

  /** The assignment at `i` once its `=` is known to be at `eq`. */
  lemma {:induction false} NextAt(sql: string, i: nat, eq: nat)
    requires i + 2 <= eq < |sql| && sql[i] == ',' && IndexOf(sql, '=', i + 2) == eq
    ensures NextAssignment(sql, i) == AssignmentFrom(sql, i, eq)
  {
  }

  /** A name without `=` after the comma at `i`: the loop finds its `=` at `eq` and goes on to the value. */
  lemma {:induction false} NameEnd(sql: string, i: nat, name: string, eq: nat)
    requires |name| >= 1 && forall k :: 0 <= k < |name| ==> name[k] != '='
    requires eq == i + 1 + |name| && eq < |sql| && sql[i] == ',' && At(sql, i + 1, name) && sql[eq] == '='
    ensures NextAssignment(sql, i) == AssignmentFrom(sql, i, eq)
  {
    forall k | i + 2 <= k < eq
      ensures sql[k] != '='
    {
      AtIndex(sql, i + 1, name, k - i - 1);
    }
    IndexOfAt(sql, '=', i + 2, eq);
    NextAt(sql, i, eq);
  }

  /** The value after `eq` when it is a terminated literal `v` ending before `k`. */
  lemma {:induction false} NextQuoted(sql: string, i: nat, name: string, eq: nat, v: string, j: nat, k: nat)
    requires eq == i + 1 + |name| && eq < |sql| && At(sql, i + 1, name)
    requires At(sql, eq + 1, v) && k == eq + 1 + |v|
    requires j == ValueScanStart(sql, eq + 1) && j < |sql| && sql[j] == '\'' && QuoteEnd(sql, j + 1) == Some(k)
    ensures AssignmentFrom(sql, i, eq) == Done((Binding(name, v), k))
  {
    Span(sql, i + 1, name, eq);
    Span(sql, eq + 1, v, k);
  }

  /** The value after `eq` when it is a bare `t` ending at `k`. */
  lemma {:induction false} NextBare(sql: string, i: nat, name: string, eq: nat, t: string, k: nat)
    requires eq == i + 1 + |name| && eq < |sql| && At(sql, i + 1, name)
    requires At(sql, eq + 1, t) && k == eq + 1 + |t|
    requires ValueScanStart(sql, eq + 1) == eq + 1 && (eq + 1 == |sql| || sql[eq + 1] != '\'')
    requires var c := IndexOf(sql, ',', eq + 1); (if c == -1 then |sql| else c) == k
    ensures AssignmentFrom(sql, i, eq) == Done((Binding(name, t), k))
  {
    Span(sql, i + 1, name, eq);
    Span(sql, eq + 1, t, k);
  }

  /** `,name=` followed by a literal opened by `q`: read up to the literal's closing quote at `k - 1`. */
  lemma {:induction false} NextLiteralValue(sql: string, i: nat, name: string, q: string, body: string, eq: nat, k: nat)
    requires eq == i + 1 + |name| && eq < |sql| && At(sql, i + 1, name) && (q == "'" || q == "N'")
    requires At(sql, eq + 1, q + body + "'") && EscapedBody(body)
    requires k == eq + 1 + |q + body + "'"| && ValueEndsAt(sql, k)
    ensures AssignmentFrom(sql, i, eq) == Done((Binding(name, q + body + "'"), k))
  {
    ScanLiteral(sql, eq + 1, q, body, eq + |q|, k);
    NextQuoted(sql, i, name, eq, q + body + "'", eq + |q|, k);
  }

  /** `,name=` followed by a bare value: read up to the next comma or the end, at `k`. */
  lemma {:induction false} NextBareValue(sql: string, i: nat, name: string, t: string, eq: nat, k: nat)
    requires eq == i + 1 + |name| && eq < |sql| && At(sql, i + 1, name)
    requires At(sql, eq + 1, t) && BareReadsBack(t) && k == eq + 1 + |t| && ValueEndsAt(sql, k)
    ensures AssignmentFrom(sql, i, eq) == Done((Binding(name, t), k))
  {
    ScanBare(sql, eq + 1, t);
    NextBare(sql, i, name, eq, t, k);
  }

  /** The value of a well-formed argument, written after `,name=`, is read up to its end `k`. */
  lemma {:induction false} ValueReadsBack(sql: string, i: nat, name: string, v: ArgValue, eq: nat, k: nat)
    requires eq == i + 1 + |name| && eq < |sql| && At(sql, i + 1, name)
    requires At(sql, eq + 1, ArgText(v)) && (v.Bare? ==> BareReadsBack(v.text))
    requires k == eq + 1 + |ArgText(v)| && ValueEndsAt(sql, k)
    ensures AssignmentFrom(sql, i, eq) == Done((Binding(name, ArgText(v)), k))
  {
    match v
    case Bare(t) =>
      NextBareValue(sql, i, name, t, eq, k);
    case Literal(n, c) =>
      EscapeIsEscapedBody(c);
      NextLiteralValue(sql, i, name, Quote(n), Escape(c), eq, k);
  }

  /** One well-formed segment `,name=value` of the text is read back as written, up to `k`. */
  lemma {:induction false} SegmentReadsBack(sql: string, i: nat, a: Arg, k: nat)
    requires At(sql, i, Segment(a)) && WellFormed(a) && k == i + |Segment(a)| && ValueEndsAt(sql, k)
    ensures i < |sql| && NextAssignment(sql, i) == Done((Binding(a.name, ArgText(a.value)), k))
  {
    var eq := i + 1 + |a.name|;
    SegmentParts(sql, i, a);
    NameEnd(sql, i, a.name, eq);
    ValueReadsBack(sql, i, a.name, a.value, eq, k);
  }

  /** The loop reads one well-formed segment and goes on after it. */
  lemma {:induction false} SegmentStep(sql: string, i: nat, a: Arg, b: Binding, k: nat)
    requires At(sql, i, Segment(a)) && WellFormed(a) && k == i + |Segment(a)| && ValueEndsAt(sql, k)
    requires b == Binding(a.name, ArgText(a.value))
    ensures k <= |sql| && Assignments(sql, i) == Prefixed([b], Assignments(sql, k))
  {
    SegmentReadsBack(sql, i, a, k);
    AssignmentsAfter(sql, i, b, k);
  }

  /** The text of the arguments from the first one on. */
  lemma {:induction false} SerializedCons(args: seq<Arg>)
    requires args != []
    ensures Serialized(Bindings(args)) == Segment(args[0]) + Serialized(Bindings(args[1..]))
  {
    assert Bindings(args)[1..] == Bindings(args[1..]);
  }

  lemma {:induction false} SerializedStarts(args: seq<Arg>)
    ensures Serialized(Bindings(args)) == [] || Serialized(Bindings(args))[0] == ','
  {
    if args != [] {
      SerializedCons(args);
    }
  }

  /** Where the text of the arguments sits in `sql`, after the first one. */
  lemma {:induction false} ArgumentsAt(sql: string, i: nat, args: seq<Arg>, tail: string)
    requires args != [] && AllWellFormed(args)
    requires At(sql, i, Serialized(Bindings(args))) && At(sql, i + |Serialized(Bindings(args))|, tail)
    requires i + |Serialized(Bindings(args))| + |tail| == |sql| && (tail == [] || tail[0] == ',')
    ensures At(sql, i, Segment(args[0])) && WellFormed(args[0]) && AllWellFormed(args[1..])
    ensures At(sql, i + |Segment(args[0])|, Serialized(Bindings(args[1..])))
    ensures ValueEndsAt(sql, i + |Segment(args[0])|)
  {
    var k := i + |Segment(args[0])|;
    var rest := Serialized(Bindings(args[1..]));
    SerializedCons(args);
    AtConcat(sql, i, Segment(args[0]), rest);
    SerializedStarts(args[1..]);
    if rest != [] {
      AtIndex(sql, k, rest, 0);
    } else if tail != [] {
      AtIndex(sql, k, tail, 0);
    }
    assert AllWellFormed(args[1..]) by {
      assert forall m :: 0 <= m < |args| - 1 ==> args[1..][m] == args[m + 1];
    }
  }

  /** A comma that ends the text: `IndexOf` would start past the end. */
  lemma {:induction false} AssignmentsLoneComma(sql: string, i: nat)
    requires i + 1 == |sql| && sql[i] == ','
    ensures Assignments(sql, i) == OutOfRange
  {
    assert NextAssignment(sql, i) == OutOfRange;
  }

  lemma {:induction false} BindingsHead(args: seq<Arg>)
    requires args != []
    ensures Bindings(args)[0] == Binding(args[0].name, ArgText(args[0].value))
  {
  }

  lemma {:induction false} BindingsCons(args: seq<Arg>)
    requires args != []
    ensures Bindings(args) == [Bindings(args)[0]] + Bindings(args[1..])
  {
  }

  /** One iteration of the loop over a well-formed argument list: it reads the first argument. */
  lemma {:induction false} ArgumentStep(sql: string, i: nat, args: seq<Arg>, tail: string)
    requires args != [] && AllWellFormed(args)
    requires At(sql, i, Serialized(Bindings(args))) && At(sql, i + |Serialized(Bindings(args))|, tail)
    requires i + |Serialized(Bindings(args))| + |tail| == |sql| && (tail == [] || tail[0] == ',')
    ensures i + |Segment(args[0])| <= |sql| && AllWellFormed(args[1..])
    ensures At(sql, i + |Segment(args[0])|, Serialized(Bindings(args[1..])))
    ensures Assignments(sql, i) == Prefixed([Bindings(args)[0]], Assignments(sql, i + |Segment(args[0])|))
  {
    ArgumentsAt(sql, i, args, tail);
    SegmentStep(sql, i, args[0], Binding(args[0].name, ArgText(args[0].value)), i + |Segment(args[0])|);
    BindingsHead(args);
  }

  /** A well-formed argument list that ends the text is parsed back into exactly its assignments. */
  lemma {:induction false} AssignmentsReadBack(sql: string, i: nat, args: seq<Arg>)
    requires At(sql, i, Serialized(Bindings(args))) && i + |Serialized(Bindings(args))| == |sql|
    requires AllWellFormed(args)
    ensures Assignments(sql, i) == Done(Bindings(args))
    decreases |args|
  {
    if args != [] {
      var k := i + |Segment(args[0])|;
      ArgumentStep(sql, i, args, []);
      SerializedCons(args);
      AssignmentsReadBack(sql, k, args[1..]);
      BindingsCons(args);
    }
  }

  /** The same list followed by a comma: the loop, as written, runs `IndexOf` past the end. */
  lemma {:induction false} AssignmentsTrailingComma(sql: string, i: nat, args: seq<Arg>)
    requires At(sql, i, Serialized(Bindings(args)) + ",") && i + |Serialized(Bindings(args))| + 1 == |sql|
    requires AllWellFormed(args)
    ensures Assignments(sql, i) == OutOfRange
    decreases |args|
  {
    var text := Serialized(Bindings(args));
    AtConcat(sql, i, text, ",");
    if args != [] {
      var k := i + |Segment(args[0])|;
      ArgumentStep(sql, i, args, ",");
      SerializedCons(args);
      AtConcat(sql, k, Serialized(Bindings(args[1..])), ",");
      AssignmentsTrailingComma(sql, k, args[1..]);
    } else {
      AtIndex(sql, i, ",", 0);
      AssignmentsLoneComma(sql, i);
    }
  }

  /** The pieces of a call's head, each where it sits: `e1` at `o`, the separator at `m - 1`, `e2` at `m + 3`. */
  lemma {:induction false} HeadParts(sql: string, p: string, e1: string, e2: string, o: nat, m: nat)
    requires o == |p| && m == o + |e1| + 1
    requires At(sql, 0, p + e1 + "',N'" + e2 + "'")
    ensures At(sql, 0, p) && At(sql, o, e1) && At(sql, m - 1, "',N'")
    ensures At(sql, m + 3, e2) && At(sql, m + 3 + |e2|, "'")
  {
    AtConcat(sql, 0, p + e1 + "',N'" + e2, "'");
    AtConcat(sql, 0, p + e1 + "',N'", e2);
    AtConcat(sql, 0, p + e1, "',N'");
    AtConcat(sql, 0, p, e1);
  }

  /** The separator between the two literals, character by character. */
  lemma {:induction false} SeparatorChars(sql: string, k: nat)
    requires At(sql, k, "',N'")
    ensures k + 4 <= |sql| && sql[k] == '\'' && sql[k + 1] == ',' && sql[k + 2] == 'N' && sql[k + 3] == '\''
  {
    AtIndex(sql, k, "',N'", 0);
    AtIndex(sql, k, "',N'", 1);
    AtIndex(sql, k, "',N'", 2);
    AtIndex(sql, k, "',N'", 3);
  }

  /** The statement literal, from `o` up to its closing quote before `m`, reads back as the statement. */
  lemma {:induction false} StatementText(sql: string, stmt: string, o: nat, m: nat)
    requires o == StmtOpen + 1 && m == o + |Escape(stmt)| + 1 && m <= |sql|
    requires At(sql, o, Escape(stmt))
    ensures StmtOpen + 2 <= m <= |sql| && Statement(sql, m) == stmt
  {
    assert sql[StmtOpen + 1..m - 1] == Escape(stmt);
    UnescapeEscape(stmt);
  }

  /**
   * Two well-escaped literals joined by the separator after a prefix `p`
   * that ends in a quote: the first closes at `m`, the second at `n`.
   */
  lemma {:induction false} TwoLiterals(sql: string, p: string, e1: string, e2: string, o: nat, m: nat, n: nat)
    requires 1 <= o == |p| && p[o - 1] == '\''
    requires m == o + |e1| + 1 && n == m + 3 + |e2| + 1
    requires At(sql, 0, p + e1 + "',N'" + e2 + "'") && EscapedBody(e1) && EscapedBody(e2)
    requires n == |sql| || sql[n] != '\''
    ensures o <= |sql| && sql[o - 1] == '\'' && QuoteEnd(sql, o) == Some(m)
    ensures m + 2 < |sql| && sql[m] == ',' && sql[m + 1] == 'N' && sql[m + 2] == '\''
    ensures QuoteEnd(sql, m + 3) == Some(n)
  {
    HeadParts(sql, p, e1, e2, o, m);
    FirstLiteral(sql, p, e1, o, m);
    SecondLiteral(sql, e2, m, n);
  }

  /** The statement literal after the prefix `p`, up to the separator at `m - 1`. */
  lemma {:induction false} FirstLiteral(sql: string, p: string, e1: string, o: nat, m: nat)
    requires 1 <= o == |p| && p[o - 1] == '\'' && m == o + |e1| + 1
    requires At(sql, 0, p) && At(sql, o, e1) && EscapedBody(e1) && At(sql, m - 1, "',N'")
    ensures o <= |sql| && sql[o - 1] == '\'' && QuoteEnd(sql, o) == Some(m)
    ensures m + 2 < |sql| && sql[m] == ',' && sql[m + 1] == 'N' && sql[m + 2] == '\''
  {
    AtIndex(sql, 0, p, o - 1);
    SeparatorChars(sql, m - 1);
    LiteralEnd(sql, o, e1);
  }

  /** The definitions literal from `m + 3`, closed by the quote before `n`. */
  lemma {:induction false} SecondLiteral(sql: string, e2: string, m: nat, n: nat)
    requires At(sql, m + 3, e2) && At(sql, m + 3 + |e2|, "'") && EscapedBody(e2)
    requires n == m + 3 + |e2| + 1 && (n == |sql| || sql[n] != '\'')
    ensures QuoteEnd(sql, m + 3) == Some(n)
  {
    AtIndex(sql, m + 3 + |e2|, "'", 0);
    LiteralEnd(sql, m + 3, e2);
  }

  /** The prefix of a call ends in the quote that opens the statement. */
  lemma {:induction false} PrefixEnds()
    ensures |ParamStmtPrefix| == StmtOpen + 1 && ParamStmtPrefix[StmtOpen] == '\''
  {
  }

  /** The two literals of a call: where they end, and what the first one holds. */
  lemma {:induction false} CallLiterals(sql: string, stmt: string, defs: string, stmtEnd: nat, pdefEnd: nat)
    requires stmtEnd == |ParamStmtPrefix| + |Escape(stmt)| + 1 && pdefEnd == |Head(stmt, defs)|
    requires At(sql, 0, Head(stmt, defs))
    requires pdefEnd == |sql| || sql[pdefEnd] != '\''
    ensures |sql| >= |ParamStmtPrefix| && sql[StmtOpen] == '\'' && QuoteEnd(sql, StmtOpen + 1) == Some(stmtEnd)
    ensures stmtEnd + 3 <= |sql| && sql[stmtEnd] == ',' && sql[stmtEnd + 1] == 'N' && sql[stmtEnd + 2] == '\''
    ensures QuoteEnd(sql, stmtEnd + 3) == Some(pdefEnd) && pdefEnd <= |sql|
    ensures StmtOpen + 2 <= stmtEnd && Statement(sql, stmtEnd) == stmt
  {
    var e1, e2 := Escape(stmt), Escape(defs);
    EscapeIsEscapedBody(stmt);
    EscapeIsEscapedBody(defs);
    PrefixEnds();
    TwoLiterals(sql, ParamStmtPrefix, e1, e2, StmtOpen + 1, stmtEnd, pdefEnd);
    HeadParts(sql, ParamStmtPrefix, e1, e2, StmtOpen + 1, stmtEnd);
    StatementText(sql, stmt, StmtOpen + 1, stmtEnd);
  }

  /** Where the three parts of `a + b + c` sit. */
  lemma {:induction false} ThreeParts(sql: string, a: string, b: string, c: string)
    requires sql == a + b + c
    ensures At(sql, 0, a) && At(sql, |a|, b + c) && At(sql, |a|, b) && At(sql, |a| + |b|, c)
  {
    AtWhole(sql);
    AtConcat(sql, 0, a + b, c);
    AtConcat(sql, 0, a, b);
    AtConcat(sql, |a|, b, c);
  }

  /** The whole of a text sits at its start. */
  lemma {:induction false} AtWhole(s: string)
    ensures At(s, 0, s)
  {
    assert s[0..|s|] == s;
  }

  /**
   * A call assembled from a statement, any parameter definitions and
   * well-formed arguments is reconstructed into the statement with the
   * arguments substituted; the definitions play no part.
   */
  lemma {:induction false} FillCall(stmt: string, defs: string, args: seq<Arg>)
    requires AllWellFormed(args)
    ensures |Call(stmt, defs, args)| >= |ParamStmtPrefix|
    ensures Fill(Call(stmt, defs, args)) == Some(Render(stmt, BuildMap(Bindings(args)), 0))
  {
    var sql := Call(stmt, defs, args);
    var h, tail := Head(stmt, defs), Serialized(Bindings(args));
    AtWhole(sql);
    AtConcat(sql, 0, h, tail);
    SerializedStarts(args);
    if tail != [] {
      AtIndex(sql, |h|, tail, 0);
    }
    var stmtEnd := |ParamStmtPrefix| + |Escape(stmt)| + 1;
    CallLiterals(sql, stmt, defs, stmtEnd, |h|);
    AssignmentsReadBack(sql, |h|, args);
    FillFromLiterals(sql, stmtEnd, |h|, Bindings(args));
  }

  /**
   * The separator test at XEStreamer.cs:238 guards `i + 2 > sql.Length`
   * and then reads `sql[i + 2]`: a call text that ends right after `,N`
   * runs past the end.
   */
  lemma {:induction false} SeparatorOverrun(stmt: string)
    ensures |ParamStmtPrefix + Escape(stmt) + "',N"| >= |ParamStmtPrefix|
    ensures FillAsWritten(ParamStmtPrefix + Escape(stmt) + "',N") == OutOfRange
    ensures Fill(ParamStmtPrefix + Escape(stmt) + "',N") == None
  {
    var sql := ParamStmtPrefix + Escape(stmt) + "',N";
    var stmtEnd := StmtOpen + 1 + |Escape(stmt)| + 1;
    PrefixEnds();
    EscapeIsEscapedBody(stmt);
    LoneSeparator(sql, ParamStmtPrefix, Escape(stmt), StmtOpen + 1, stmtEnd);
    FillOverrunAtSeparator(sql, stmtEnd);
  }

  /** A prefix ending in a quote, a well-escaped literal and `,N`: the text ends right after the `N`. */
  lemma {:induction false} LoneSeparator(sql: string, p: string, e1: string, o: nat, m: nat)
    requires 1 <= o == |p| && p[o - 1] == '\'' && m == o + |e1| + 1
    requires sql == p + e1 + "',N" && EscapedBody(e1)
    ensures o <= |sql| && sql[o - 1] == '\'' && QuoteEnd(sql, o) == Some(m)
    ensures m + 2 == |sql| && sql[m] == ',' && sql[m + 1] == 'N'
  {
    ThreeParts(sql, p, e1, "',N");
    AtIndex(sql, 0, p, o - 1);
    AtIndex(sql, m - 1, "',N", 0);
    AtIndex(sql, m - 1, "',N", 1);
    AtIndex(sql, m - 1, "',N", 2);
    LiteralEnd(sql, o, e1);
  }

  /** The smallest such text. */
  lemma {:induction false} SeparatorOverrunExample()
    ensures FillAsWritten("exec sp_executesql N'x',N") == OutOfRange
  {
    SeparatorOverrun("x");
    assert Escape("x") == "x";
    assert ParamStmtPrefix + "x" + "',N" == "exec sp_executesql N'x',N";
  }

  /**
   * The assignment loop at XEStreamer.cs:248-254 looks for the `=` from
   * `i + 1` after the comma: a well-formed call followed by a comma runs
   * past the end.
   */
  lemma {:induction false} TrailingCommaOverrun(stmt: string, defs: string, args: seq<Arg>)
    requires AllWellFormed(args)
    ensures |Call(stmt, defs, args) + ","| >= |ParamStmtPrefix|
    ensures FillAsWritten(Call(stmt, defs, args) + ",") == OutOfRange
    ensures Fill(Call(stmt, defs, args) + ",") == None
  {
    var h, tail := Head(stmt, defs), Serialized(Bindings(args));
    var sql := h + tail + ",";
    ThreeParts(sql, h, tail, ",");
    SerializedStarts(args);
    AtIndex(sql, |h|, tail + ",", 0);
    var stmtEnd := |ParamStmtPrefix| + |Escape(stmt)| + 1;
    CallLiterals(sql, stmt, defs, stmtEnd, |h|);
    AssignmentsTrailingComma(sql, |h|, args);
    FillOverrunInAssignments(sql, stmtEnd, |h|);
  }
}
