/**
 * The parameterised-statement reconstructor (XEStreamer.cs:202, 228-324):
 * turns `exec sp_executesql N'<stmt>',N'<defs>',@a=v,...` back into the
 * statement with every `@name` replaced by its value. Colour wrappers of the
 * output are the identity here.
 */
module Reconstruct {
  import opened Wrappers
  import opened Text
  import opened Quoting

  /** `s_paramStmtPrefix`; its last character is the statement literal's opening quote. */
  const ParamStmtPrefix: string := "exec sp_executesql N'"

  /** Index of the statement literal's opening quote (`s_paramStmtPrefix.Length - 1`). */
  const StmtOpen: nat := |ParamStmtPrefix| - 1

  /**
   * The result of the code as written: a text, the null it returns for "no
   * match", or the .NET exception an out-of-range index raises.
   */
  datatype Outcome<T> = Done(value: T) | NoMatch | OutOfRange

  /** One `name=value` assignment; both are raw spans of the call text. */
  datatype Binding = Binding(name: string, value: string)

  /** The assignments in text form: `,name=value` each. */
  function Serialized(bs: seq<Binding>): string
  {
    if bs == [] then "" else "," + bs[0].name + "=" + bs[0].value + Serialized(bs[1..])
  }

  function Prefixed(bs: seq<Binding>, o: Outcome<seq<Binding>>): Outcome<seq<Binding>>
  {
    match o
    case Done(rest) => Done(bs + rest)
    case NoMatch => NoMatch
    case OutOfRange => OutOfRange
  }

  /** Where a value is scanned from: one past an `N` (or `n`) that prefixes a quote. */
  function ValueScanStart(sql: string, valStart: nat): (j: nat)
    requires valStart <= |sql|
    ensures valStart <= j <= |sql|
  {
    if valStart + 1 < |sql| && (sql[valStart] == 'n' || sql[valStart] == 'N') && sql[valStart + 1] == '\'' then
      valStart + 1
    else
      valStart
  }

  /** A segment `,name=value` of the text. */
  lemma {:induction false} SegmentText(sql: string, i: nat, eq: nat, k: nat)
    requires i < eq < k <= |sql| && sql[i] == ',' && sql[eq] == '='
    ensures sql[i..k] == "," + sql[i + 1..eq] + "=" + sql[eq + 1..k]
  {
    assert sql[i..k] == sql[i..i + 1] + sql[i + 1..eq] + sql[eq..eq + 1] + sql[eq + 1..k];
  }

  /**
   * One iteration of the assignment loop of FillParameters
   * (XEStreamer.cs:250-274) at index `i`, as written: the binding and the
   * index after its value. After a trailing comma `IndexOf('=', i + 1)`
   * starts past the end of the text, which .NET rejects (OutOfRange).
   */
  function NextAssignment(sql: string, i: nat): (r: Outcome<(Binding, nat)>)
    requires i < |sql|
    ensures r.Done? ==> i + 2 + |r.value.0.name| <= r.value.1 <= |sql|
    ensures r.Done? ==> |r.value.0.name| >= 1
  {
    if sql[i] != ',' then NoMatch
    else if i + 2 > |sql| then OutOfRange
    else
      var eq := IndexOf(sql, '=', i + 2);
      if eq == -1 then NoMatch else AssignmentFrom(sql, i, eq)
  }

  /** The rest of one iteration once the `=` is found at `eq`: the value is a literal or runs to the next comma. */
  function AssignmentFrom(sql: string, i: nat, eq: nat): (r: Outcome<(Binding, nat)>)
    requires i < eq < |sql|
    ensures r.Done? ==> r.value.0.name == sql[i + 1..eq] && eq < r.value.1 <= |sql|
  {
    var valStart := eq + 1;
    var j := ValueScanStart(sql, valStart);
    if j < |sql| && sql[j] == '\'' then
      match QuoteEnd(sql, j + 1)
      case None => NoMatch
      case Some(k) => Done((Binding(sql[i + 1..eq], sql[valStart..k]), k))
    else
      var c := IndexOf(sql, ',', j);
      var k := if c == -1 then |sql| else c;
      Done((Binding(sql[i + 1..eq], sql[valStart..k]), k))
  }

  /** A segment read by NextAssignment is exactly `,name=value`. */
  lemma {:induction false} NextAssignmentSpan(sql: string, i: nat)
    requires i < |sql| && NextAssignment(sql, i).Done?
    ensures var (b, k) := NextAssignment(sql, i).value; sql[i..k] == "," + b.name + "=" + b.value
  {
    var (b, k) := NextAssignment(sql, i).value;
    var eq := IndexOf(sql, '=', i + 2);
    SegmentText(sql, i, eq, k);
  }

  /** The whole assignment loop from index `i`: the bindings in order, or how it fails. */
  function Assignments(sql: string, i: nat): (r: Outcome<seq<Binding>>)
    requires i <= |sql|
    decreases |sql| - i
    ensures r.Done? ==> forall b :: b in r.value ==> |b.name| >= 1
  {
    if i == |sql| then Done([])
    else match NextAssignment(sql, i)
      case Done((b, k)) => Prefixed([b], Assignments(sql, k))
      case NoMatch => NoMatch
      case OutOfRange => OutOfRange
  }

  /** The assignment loop after one successful iteration. */
  lemma {:induction false} AssignmentsAfter(sql: string, i: nat, b: Binding, k: nat)
    requires i < |sql| && NextAssignment(sql, i) == Done((b, k))
    ensures k <= |sql| && Assignments(sql, i) == Prefixed([b], Assignments(sql, k))
  {
  }

  lemma {:induction false} SerializedPrepend(b: Binding, rest: seq<Binding>)
    ensures Serialized([b] + rest) == "," + b.name + "=" + b.value + Serialized(rest)
  {
    assert ([b] + rest)[1..] == rest;
  }

  /** A successful scan covers the rest of the text: it is exactly the assignments in order. */
  lemma {:induction false} AssignmentsSpan(sql: string, i: nat)
    requires i <= |sql| && Assignments(sql, i).Done?
    ensures sql[i..] == Serialized(Assignments(sql, i).value)
    decreases |sql| - i
  {
    if i < |sql| {
      var (b, k) := NextAssignment(sql, i).value;
      AssignmentsAfter(sql, i, b, k);
      var rest := Assignments(sql, k).value;
      assert sql[i..k] == "," + b.name + "=" + b.value by {
        NextAssignmentSpan(sql, i);
      }
      assert sql[k..] == Serialized(rest) by {
        AssignmentsSpan(sql, k);
      }
      SliceSplit(sql, i, k);
      SerializedPrepend(b, rest);
    }
  }

  /** The case-insensitive `paramVal` dictionary after the assignments, in order. */
  function BuildMap(bs: seq<Binding>): map<string, string>
  {
    if bs == [] then map[] else Put(BuildMap(bs[..|bs| - 1]), bs[|bs| - 1].name, bs[|bs| - 1].value)
  }

  /** `bs[k]` is the last assignment to `key`, compared ignoring case. */
  predicate IsLastAssignment(bs: seq<Binding>, k: int, key: string)
  {
    0 <= k < |bs| && EqIgnoreCase(bs[k].name, key) &&
    forall j :: k < j < |bs| ==> !EqIgnoreCase(bs[j].name, key)
  }

  /** A name is mapped iff some assignment names it, ignoring case. */
  lemma {:induction false} BuildMapDomain(bs: seq<Binding>, key: string)
    ensures Get(BuildMap(bs), key).Some? <==> exists k :: 0 <= k < |bs| && EqIgnoreCase(bs[k].name, key)
  {
    if bs != [] {
      var init, last := bs[..|bs| - 1], bs[|bs| - 1];
      BuildMapDomain(init, key);
      GetPut(BuildMap(init), last.name, last.value, key);
      assert forall k :: 0 <= k < |init| ==> init[k] == bs[k];
    }
  }

  /** The last assignment to a name, ignoring case, gives its value. */
  lemma {:induction false} BuildMapLast(bs: seq<Binding>, key: string, k: int)
    requires IsLastAssignment(bs, k, key)
    ensures Get(BuildMap(bs), key) == Some(bs[k].value)
  {
    var init, last := bs[..|bs| - 1], bs[|bs| - 1];
    GetPut(BuildMap(init), last.name, last.value, key);
    if k < |init| {
      assert IsLastAssignment(init, k, key) by {
        assert forall j :: k < j < |init| ==> init[j] == bs[j];
      }
      BuildMapLast(init, key, k);
    }
  }

  /** A name is mapped iff some assignment names it, ignoring case; the last such assignment wins. */
  lemma {:induction false} BuildMapLookup(bs: seq<Binding>, key: string)
    ensures Get(BuildMap(bs), key).Some? <==> exists k :: 0 <= k < |bs| && EqIgnoreCase(bs[k].name, key)
    ensures forall k :: IsLastAssignment(bs, k, key) ==> Get(BuildMap(bs), key) == Some(bs[k].value)
  {
    BuildMapDomain(bs, key);
    forall k | IsLastAssignment(bs, k, key)
      ensures Get(BuildMap(bs), key) == Some(bs[k].value)
    {
      BuildMapLast(bs, key, k);
    }
  }

  /** The end of the identifier run at `j` (letters, digits and `_`). */
  function IdentEnd(s: string, j: nat): (r: nat)
    requires j <= |s|
    decreases |s| - j
    ensures j <= r <= |s|
    ensures forall k :: j <= k < r ==> IsWordChar(s[k])
    ensures r == |s| || !IsWordChar(s[r])
  {
    if j == |s| || !IsWordChar(s[j]) then j else IdentEnd(s, j + 1)
  }

  /** `s_skipChars`: the characters the substitution loop stops at. */
  predicate IsSkipChar(c: char)
  {
    c == '@' || c == '\''
  }

  /** `stmt.IndexOfAny(s_skipChars, from)`. */
  function IndexOfAny(s: string, from: nat): (r: int)
    requires from <= |s|
    decreases |s| - from
    ensures r == -1 || (from <= r < |s| && IsSkipChar(s[r]))
    ensures forall k :: from <= k < |s| && (r == -1 || k < r) ==> !IsSkipChar(s[k])
  {
    if from == |s| then -1
    else if IsSkipChar(s[from]) then from
    else IndexOfAny(s, from + 1)
  }

  /** The text a parameter reference stands for: its value, or the raw reference. */
  function Lookup(vals: map<string, string>, param: string): string
  {
    match Get(vals, param)
    case Some(v) => v
    case None => param
  }

  /** Where the quoted region or parameter reference that starts at `s` ends. */
  function TokenEnd(stmt: string, s: nat): (e: nat)
    requires s < |stmt| && IsSkipChar(stmt[s])
    ensures s < e <= |stmt|
  {
    if stmt[s] == '\'' then SkipEnd(stmt, s) else IdentEnd(stmt, s + 1)
  }

  /**
   * What the token at `s` becomes: a quoted region is copied through
   * unchanged, a parameter reference `@name` is replaced by its lookup.
   */
  function Token(stmt: string, vals: map<string, string>, s: nat): string
    requires s < |stmt| && IsSkipChar(stmt[s])
  {
    if stmt[s] == '\'' then stmt[s..TokenEnd(stmt, s)] else Lookup(vals, stmt[s..TokenEnd(stmt, s)])
  }

  /**
   * The statement from index `rx` with parameters substituted: tokens are
   * rendered, and every other character is copied.
   */
  function Render(stmt: string, vals: map<string, string>, rx: nat): string
    requires rx <= |stmt|
    decreases |stmt| - rx
  {
    if rx == |stmt| then []
    else if IsSkipChar(stmt[rx]) then Token(stmt, vals, rx) + Render(stmt, vals, TokenEnd(stmt, rx))
    else [stmt[rx]] + Render(stmt, vals, rx + 1)
  }

  /** Render at a character that is copied. */
  lemma {:induction false} RenderCopy(stmt: string, vals: map<string, string>, rx: nat)
    requires rx < |stmt| && !IsSkipChar(stmt[rx])
    ensures Render(stmt, vals, rx) == [stmt[rx]] + Render(stmt, vals, rx + 1)
  {
  }

  /** Render at the start of a token. */
  lemma {:induction false} RenderToken(stmt: string, vals: map<string, string>, rx: nat)
    requires rx < |stmt| && IsSkipChar(stmt[rx])
    ensures Render(stmt, vals, rx) == Token(stmt, vals, rx) + Render(stmt, vals, TokenEnd(stmt, rx))
  {
  }

  lemma {:induction false} SliceSplit(s: string, a: nat, b: nat)
    requires a <= b <= |s|
    ensures s[a..] == s[a..b] + s[b..]
  {
  }

  /** A run without `@` or quotes is copied as one chunk. */
  lemma {:induction false} RenderPlain(stmt: string, vals: map<string, string>, rx: nat, s: nat)
    requires rx <= s <= |stmt|
    requires forall k :: rx <= k < s ==> !IsSkipChar(stmt[k])
    ensures Render(stmt, vals, rx) == stmt[rx..s] + Render(stmt, vals, s)
    decreases s - rx
  {
    if rx < s {
      calc {
        Render(stmt, vals, rx);
      == { RenderCopy(stmt, vals, rx); }
        [stmt[rx]] + Render(stmt, vals, rx + 1);
      == { RenderPlain(stmt, vals, rx + 1, s); }
        [stmt[rx]] + (stmt[rx + 1..s] + Render(stmt, vals, s));
      == { assert stmt[rx..s] == [stmt[rx]] + stmt[rx + 1..s]; }
        stmt[rx..s] + Render(stmt, vals, s);
      }
    }
  }

  /** A plain run followed by one token. */
  lemma {:induction false} RenderChunk(stmt: string, vals: map<string, string>, rx: nat, s: nat)
    requires rx <= s < |stmt| && IsSkipChar(stmt[s])
    requires forall k :: rx <= k < s ==> !IsSkipChar(stmt[k])
    ensures Render(stmt, vals, rx) == stmt[rx..s] + (Token(stmt, vals, s) + Render(stmt, vals, TokenEnd(stmt, s)))
  {
    RenderPlain(stmt, vals, rx, s);
    RenderToken(stmt, vals, s);
  }

  /** A statement without parameter references is reproduced exactly, whatever the map. */
  lemma {:induction false} RenderWithoutReferences(stmt: string, vals: map<string, string>, rx: nat)
    requires rx <= |stmt|
    requires forall k :: rx <= k < |stmt| ==> stmt[k] != '@'
    ensures Render(stmt, vals, rx) == stmt[rx..]
    decreases |stmt| - rx
  {
    if rx < |stmt| {
      if stmt[rx] == '\'' {
        var e := TokenEnd(stmt, rx);
        RenderToken(stmt, vals, rx);
        RenderWithoutReferences(stmt, vals, e);
        SliceSplit(stmt, rx, e);
      } else {
        RenderCopy(stmt, vals, rx);
        RenderWithoutReferences(stmt, vals, rx + 1);
        SliceSplit(stmt, rx, rx + 1);
        assert stmt[rx..rx + 1] == [stmt[rx]];
      }
    }
  }

  /** With no assignments every reference is kept as written: the statement is reproduced. */
  lemma {:induction false} RenderEmptyMap(stmt: string, rx: nat)
    requires rx <= |stmt|
    ensures Render(stmt, map[], rx) == stmt[rx..]
    decreases |stmt| - rx
  {
    if rx < |stmt| {
      if IsSkipChar(stmt[rx]) {
        var e := TokenEnd(stmt, rx);
        assert Render(stmt, map[], rx) == stmt[rx..e] + stmt[e..] by {
          assert Token(stmt, map[], rx) == stmt[rx..e] by {
            assert Get<string>(map[], stmt[rx..e]) == None;
          }
          RenderToken(stmt, map[], rx);
          RenderEmptyMap(stmt, e);
        }
        SliceSplit(stmt, rx, e);
      } else {
        assert Render(stmt, map[], rx) == [stmt[rx]] + stmt[rx + 1..] by {
          RenderCopy(stmt, map[], rx);
          RenderEmptyMap(stmt, rx + 1);
        }
        SliceSplit(stmt, rx, rx + 1);
        assert stmt[rx..rx + 1] == [stmt[rx]];
      }
    }
  }

  /** The recovered statement: the first literal without its quotes, `''` unescaped. */
  function Statement(sql: string, stmtEnd: nat): string
    requires StmtOpen + 2 <= stmtEnd <= |sql|
  {
    Unescape(sql[StmtOpen + 1..stmtEnd - 1])
  }

  /**
   * FillParameters as written (XEStreamer.cs:230-324). The separator test
   * `i + 2 > sql.Length` still reads `sql[i + 2]` when `i + 2 == sql.Length`
   * (OutOfRange), and so does the assignment loop after a trailing comma.
   */
  function FillAsWritten(sql: string): (r: Outcome<string>)
    requires |sql| >= |ParamStmtPrefix|
  {
    if sql[StmtOpen] != '\'' then NoMatch
    else match QuoteEnd(sql, StmtOpen + 1)
      case None => NoMatch
      case Some(stmtEnd) => AfterStatement(sql, stmtEnd)
  }

  /** The rest of FillAsWritten once the statement literal ends at `stmtEnd`. */
  function AfterStatement(sql: string, stmtEnd: nat): Outcome<string>
    requires StmtOpen + 2 <= stmtEnd <= |sql|
  {
    if stmtEnd + 2 > |sql| || sql[stmtEnd] != ',' || sql[stmtEnd + 1] != 'N' then NoMatch
    else if stmtEnd + 2 == |sql| then OutOfRange
    else if sql[stmtEnd + 2] != '\'' then NoMatch
    else match QuoteEnd(sql, stmtEnd + 3)
      case None => NoMatch
      case Some(pdefEnd) => AfterDefinitions(sql, stmtEnd, pdefEnd)
  }

  /** The rest of FillAsWritten once the definitions literal ends at `pdefEnd`. */
  function AfterDefinitions(sql: string, stmtEnd: nat, pdefEnd: nat): Outcome<string>
    requires StmtOpen + 2 <= stmtEnd <= pdefEnd <= |sql|
  {
    match Assignments(sql, pdefEnd)
    case Done(bs) => Done(Render(Statement(sql, stmtEnd), BuildMap(bs), 0))
    case NoMatch => NoMatch
    case OutOfRange => OutOfRange
  }

  /** The reconstruction with both out-of-range reads turned into "no match". */
  function Fill(sql: string): Option<string>
    requires |sql| >= |ParamStmtPrefix|
  {
    match FillAsWritten(sql)
    case Done(t) => Some(t)
    case _ => None
  }

  /** FillAsWritten once both literals are found and the assignments parse. */
  lemma {:induction false} FillFromLiterals(sql: string, stmtEnd: nat, pdefEnd: nat, bs: seq<Binding>)
    requires |sql| >= |ParamStmtPrefix| && sql[StmtOpen] == '\'' && QuoteEnd(sql, StmtOpen + 1) == Some(stmtEnd)
    requires stmtEnd + 3 <= |sql| && sql[stmtEnd] == ',' && sql[stmtEnd + 1] == 'N' && sql[stmtEnd + 2] == '\''
    requires QuoteEnd(sql, stmtEnd + 3) == Some(pdefEnd)
    requires pdefEnd <= |sql| && Assignments(sql, pdefEnd) == Done(bs)
    ensures FillAsWritten(sql).Done?
    ensures StmtOpen + 2 <= stmtEnd
    ensures FillAsWritten(sql).value == Render(Statement(sql, stmtEnd), BuildMap(bs), 0)
  {
    assert FillAsWritten(sql) == AfterStatement(sql, stmtEnd);
    assert AfterStatement(sql, stmtEnd) == AfterDefinitions(sql, stmtEnd, pdefEnd);
  }

  /** FillAsWritten once both literals are found and the assignment loop runs past the end. */
  lemma {:induction false} FillOverrunInAssignments(sql: string, stmtEnd: nat, pdefEnd: nat)
    requires |sql| >= |ParamStmtPrefix| && sql[StmtOpen] == '\'' && QuoteEnd(sql, StmtOpen + 1) == Some(stmtEnd)
    requires stmtEnd + 3 <= |sql| && sql[stmtEnd] == ',' && sql[stmtEnd + 1] == 'N' && sql[stmtEnd + 2] == '\''
    requires QuoteEnd(sql, stmtEnd + 3) == Some(pdefEnd)
    requires pdefEnd <= |sql| && Assignments(sql, pdefEnd) == OutOfRange
    ensures FillAsWritten(sql) == OutOfRange
  {
    assert FillAsWritten(sql) == AfterStatement(sql, stmtEnd);
    assert AfterStatement(sql, stmtEnd) == AfterDefinitions(sql, stmtEnd, pdefEnd);
  }

  /** FillAsWritten once the statement literal is followed by `,N` and nothing more. */
  lemma {:induction false} FillOverrunAtSeparator(sql: string, stmtEnd: nat)
    requires |sql| >= |ParamStmtPrefix| && sql[StmtOpen] == '\'' && QuoteEnd(sql, StmtOpen + 1) == Some(stmtEnd)
    requires stmtEnd + 2 == |sql| && sql[stmtEnd] == ',' && sql[stmtEnd + 1] == 'N'
    ensures FillAsWritten(sql) == OutOfRange
  {
    assert FillAsWritten(sql) == AfterStatement(sql, stmtEnd);
  }

  /** FillAsWritten once both literals are found and the assignments do not parse. */
  lemma {:induction false} FillFailsInAssignments(sql: string, stmtEnd: nat, pdefEnd: nat)
    requires |sql| >= |ParamStmtPrefix| && sql[StmtOpen] == '\'' && QuoteEnd(sql, StmtOpen + 1) == Some(stmtEnd)
    requires stmtEnd + 3 <= |sql| && sql[stmtEnd] == ',' && sql[stmtEnd + 1] == 'N' && sql[stmtEnd + 2] == '\''
    requires QuoteEnd(sql, stmtEnd + 3) == Some(pdefEnd)
    requires pdefEnd <= |sql| && !Assignments(sql, pdefEnd).Done?
    ensures !FillAsWritten(sql).Done?
  {
    assert FillAsWritten(sql) == AfterStatement(sql, stmtEnd);
    assert AfterStatement(sql, stmtEnd) == AfterDefinitions(sql, stmtEnd, pdefEnd);
  }

  /** The call as FillParameters reads it: statement literal, `,N`, definitions literal, then the assignments. */
  predicate CallParts(sql: string, stmtEnd: nat, pdefEnd: nat, bs: seq<Binding>)
  {
    LiteralAt(sql, StmtOpen, stmtEnd) && stmtEnd + 2 <= |sql| && sql[stmtEnd] == ',' && sql[stmtEnd + 1] == 'N' &&
    LiteralAt(sql, stmtEnd + 2, pdefEnd) && Assignments(sql, pdefEnd) == Done(bs)
  }

  /** A call read this way reconstructs to its statement with the assignments substituted. */
  lemma {:induction false} FillComplete(sql: string, stmtEnd: nat, pdefEnd: nat, bs: seq<Binding>)
    requires |sql| >= |ParamStmtPrefix| && CallParts(sql, stmtEnd, pdefEnd, bs)
    ensures Fill(sql) == Some(Render(Statement(sql, stmtEnd), BuildMap(bs), 0))
  {
    QuoteEndIsLiteral(sql, StmtOpen, stmtEnd);
    QuoteEndIsLiteral(sql, stmtEnd + 2, pdefEnd);
    FillFromLiterals(sql, stmtEnd, pdefEnd, bs);
  }

  /** A reconstruction needs a terminated statement literal; the rest is read after it. */
  lemma {:induction false} FillStatementStage(sql: string)
    requires |sql| >= |ParamStmtPrefix| && FillAsWritten(sql).Done?
    ensures sql[StmtOpen] == '\'' && QuoteEnd(sql, StmtOpen + 1).Some?
    ensures FillAsWritten(sql) == AfterStatement(sql, QuoteEnd(sql, StmtOpen + 1).value)
  {
  }

  /** After the statement literal it needs `,N'` and a terminated definitions literal. */
  lemma {:induction false} FillDefinitionsStage(sql: string, stmtEnd: nat)
    requires StmtOpen + 2 <= stmtEnd <= |sql| && AfterStatement(sql, stmtEnd).Done?
    ensures stmtEnd + 3 <= |sql| && sql[stmtEnd] == ',' && sql[stmtEnd + 1] == 'N' && sql[stmtEnd + 2] == '\''
    ensures QuoteEnd(sql, stmtEnd + 3).Some?
    ensures AfterStatement(sql, stmtEnd) == AfterDefinitions(sql, stmtEnd, QuoteEnd(sql, stmtEnd + 3).value)
  {
  }

  /**
   * A reconstruction comes only from a call of that shape: the two literals,
   * the separator between them, and assignments that cover the rest of the
   * text; the result is the statement with those assignments substituted.
   */
  lemma {:induction false} FillSound(sql: string, t: string)
    requires |sql| >= |ParamStmtPrefix| && Fill(sql) == Some(t)
    ensures exists stmtEnd: nat, pdefEnd: nat, bs: seq<Binding> ::
      (CallParts(sql, stmtEnd, pdefEnd, bs) &&
       sql[pdefEnd..] == Serialized(bs) && t == Render(Statement(sql, stmtEnd), BuildMap(bs), 0))
  {
    FillStatementStage(sql);
    var stmtEnd := QuoteEnd(sql, StmtOpen + 1).value;
    FillDefinitionsStage(sql, stmtEnd);
    var pdefEnd := QuoteEnd(sql, stmtEnd + 3).value;
    var bs := Assignments(sql, pdefEnd).value;
    FoundParts(sql, stmtEnd, pdefEnd, bs);
    FillFromLiterals(sql, stmtEnd, pdefEnd, bs);
  }

  /** The places the scans stop at are the parts of the call. */
  lemma {:induction false} FoundParts(sql: string, stmtEnd: nat, pdefEnd: nat, bs: seq<Binding>)
    requires |sql| >= |ParamStmtPrefix| && sql[StmtOpen] == '\'' && QuoteEnd(sql, StmtOpen + 1) == Some(stmtEnd)
    requires stmtEnd + 3 <= |sql| && sql[stmtEnd] == ',' && sql[stmtEnd + 1] == 'N' && sql[stmtEnd + 2] == '\''
    requires QuoteEnd(sql, stmtEnd + 3) == Some(pdefEnd) && Assignments(sql, pdefEnd) == Done(bs)
    ensures CallParts(sql, stmtEnd, pdefEnd, bs) && sql[pdefEnd..] == Serialized(bs)
  {
    QuoteEndIsLiteral(sql, StmtOpen, stmtEnd);
    QuoteEndIsLiteral(sql, stmtEnd + 2, pdefEnd);
    AssignmentsSpan(sql, pdefEnd);
  }

  /** No complete literal starts at `open`. */
  ghost predicate NoLiteralAt(s: string, open: nat)
  {
    forall close :: !LiteralAt(s, open, close)
  }

  /** Without a terminated statement literal after the prefix there is no match. */
  lemma {:induction false} FillNeedsStatementLiteral(sql: string)
    requires |sql| >= |ParamStmtPrefix|
    ensures NoLiteralAt(sql, StmtOpen) ==> FillAsWritten(sql) == NoMatch
  {
    if sql[StmtOpen] == '\'' && QuoteEnd(sql, StmtOpen + 1).Some? {
      QuoteEndIsLiteral(sql, StmtOpen, QuoteEnd(sql, StmtOpen + 1).value);
    }
  }

  /** `,N'` at `k`: the separator before the definitions literal. */
  predicate SeparatorAt(sql: string, k: nat)
  {
    k + 3 <= |sql| && sql[k] == ',' && sql[k + 1] == 'N' && sql[k + 2] == '\''
  }

  /**
   * Without `,N'` after the statement literal there is no match; as written,
   * a text that ends in `,N` there reads past the end instead.
   */
  lemma {:induction false} FillNeedsSeparator(sql: string, stmtEnd: nat)
    requires |sql| >= |ParamStmtPrefix| && LiteralAt(sql, StmtOpen, stmtEnd)
    ensures !SeparatorAt(sql, stmtEnd) ==> Fill(sql) == None
    ensures !SeparatorAt(sql, stmtEnd) && !(stmtEnd + 2 == |sql| && sql[stmtEnd] == ',' && sql[stmtEnd + 1] == 'N') ==>
      FillAsWritten(sql) == NoMatch
  {
    QuoteEndIsLiteral(sql, StmtOpen, stmtEnd);
    assert FillAsWritten(sql) == AfterStatement(sql, stmtEnd);
  }

  /** After the statement literal and `,N'`, a definitions literal that does not terminate gives no match. */
  lemma {:induction false} FillNeedsDefinitionsLiteral(sql: string, stmtEnd: nat)
    requires |sql| >= |ParamStmtPrefix| && LiteralAt(sql, StmtOpen, stmtEnd) && SeparatorAt(sql, stmtEnd)
    ensures NoLiteralAt(sql, stmtEnd + 2) ==> FillAsWritten(sql) == NoMatch
  {
    QuoteEndIsLiteral(sql, StmtOpen, stmtEnd);
    assert FillAsWritten(sql) == AfterStatement(sql, stmtEnd);
    if QuoteEnd(sql, stmtEnd + 3).Some? {
      QuoteEndIsLiteral(sql, stmtEnd + 2, QuoteEnd(sql, stmtEnd + 3).value);
    }
  }

  /** An assignment must start with `,`; otherwise the loop, and so the call, has no match. */
  lemma {:induction false} AssignmentNeedsComma(sql: string, i: nat)
    requires i < |sql| && sql[i] != ','
    ensures NextAssignment(sql, i) == NoMatch && Assignments(sql, i) == NoMatch
  {
  }

  /** An assignment needs an `=` after the first character of its name. */
  lemma {:induction false} AssignmentNeedsEquals(sql: string, i: nat)
    requires i + 2 <= |sql| && sql[i] == ','
    requires forall k :: i + 2 <= k < |sql| ==> sql[k] != '='
    ensures NextAssignment(sql, i) == NoMatch && Assignments(sql, i) == NoMatch
  {
    assert IndexOf(sql, '=', i + 2) == -1;
  }

  /**
   * An assignment whose value opens a quote (after an optional `N`) that
   * never closes has no match. `eq` is the first `=` after the name's first
   * character.
   */
  lemma {:induction false} AssignmentNeedsClosedValue(sql: string, i: nat, eq: nat)
    requires i + 2 <= eq < |sql| && sql[i] == ',' && sql[eq] == '='
    requires forall k :: i + 2 <= k < eq ==> sql[k] != '='
    requires ValueScanStart(sql, eq + 1) < |sql| && sql[ValueScanStart(sql, eq + 1)] == '\''
    requires NoLiteralAt(sql, ValueScanStart(sql, eq + 1))
    ensures NextAssignment(sql, i) == NoMatch && Assignments(sql, i) == NoMatch
  {
    assert IndexOf(sql, '=', i + 2) == eq;
    var j := ValueScanStart(sql, eq + 1);
    if QuoteEnd(sql, j + 1).Some? {
      QuoteEndIsLiteral(sql, j, QuoteEnd(sql, j + 1).value);
    }
  }

  /**
   * FillParameters with the two bounds corrected: the separator test asks for
   * three characters, and a trailing comma ends the scan with no match. Its
   * two loops are the methods ParseAssignments and Substitute.
   */
  method FillParameters(sql: string) returns (r: Option<string>)
    requires |sql| >= |ParamStmtPrefix|
    ensures r == Fill(sql)
  {
    var i := |ParamStmtPrefix| - 1;
    var stmtStart := i;
    var ok;
    ok, i := SkipString(sql, i);
    if !ok {
      assert FillAsWritten(sql) == NoMatch;
      return None;
    }
    var stmtEnd := i;
    assert QuoteEnd(sql, StmtOpen + 1) == Some(stmtEnd);

    if i + 3 > |sql| || sql[i] != ',' || sql[i + 1] != 'N' || sql[i + 2] != '\'' {
      assert !FillAsWritten(sql).Done?;
      return None;
    }
    i := i + 2;
    ok, i := SkipString(sql, i);
    if !ok {
      assert FillAsWritten(sql) == NoMatch;
      return None;
    }
    var pdefEnd := i;
    assert QuoteEnd(sql, stmtEnd + 3) == Some(pdefEnd);

    var paramVal := ParseAssignments(sql, i);
    if paramVal.None? {
      FillFailsInAssignments(sql, stmtEnd, pdefEnd);
      return None;
    }
    FillFromLiterals(sql, stmtEnd, pdefEnd, Assignments(sql, pdefEnd).value);
    var stmt := Unescape(sql[stmtStart + 1..stmtEnd - 1]);
    var text := Substitute(stmt, paramVal.value);
    return Some(text);
  }

  /**
   * One iteration of the assignment loop (XEStreamer.cs:250-274), with the
   * guard before `IndexOf('=', i + 1)` strengthened so that a trailing comma
   * fails the match instead of throwing.
   */
  method ScanAssignment(sql: string, i0: nat) returns (ok: bool, name: string, value: string, k: nat)
    requires i0 < |sql|
    ensures ok <==> NextAssignment(sql, i0).Done?
    ensures ok ==> NextAssignment(sql, i0) == Done((Binding(name, value), k))
  {
    name, value, k := "", "", i0;
    var i := i0;
    if sql[i] != ',' {
      return false, name, value, k;
    }
    i := i + 1;
    var nameStart := i;
    if i + 1 > |sql| {
      return false, name, value, k;
    }
    var eq := IndexOf(sql, '=', i + 1);
    if eq == -1 {
      return false, name, value, k;
    }
    name := sql[nameStart..eq];
    var valStart := eq + 1;
    i := valStart;
    if i + 1 < |sql| && (sql[i] == 'n' || sql[i] == 'N') && sql[i + 1] == '\'' {
      // skip the N: the value is scanned as a literal
      i := i + 1;
    }
    var j := i;
    assert j == ValueScanStart(sql, valStart);
    if i < |sql| && sql[i] == '\'' {
      var closed;
      closed, i := SkipString(sql, i);
      if !closed {
        return false, name, value, k;
      }
      assert QuoteEnd(sql, j + 1) == Some(i);
    } else {
      i := IndexOf(sql, ',', i);
      if i == -1 {
        i := |sql|;
      }
    }
    value := sql[valStart..i];
    k := i;
    ok := true;
  }

  lemma {:induction false} PrefixedNothing(o: Outcome<seq<Binding>>)
    ensures Prefixed([], o) == o
  {
    if o.Done? {
      assert [] + o.value == o.value;
    }
  }

  lemma {:induction false} PrefixedStep(bs: seq<Binding>, b: Binding, o: Outcome<seq<Binding>>)
    ensures Prefixed(bs, Prefixed([b], o)) == Prefixed(bs + [b], o)
  {
    if o.Done? {
      assert bs + ([b] + o.value) == (bs + [b]) + o.value;
    }
  }

  /** The assignment loop (XEStreamer.cs:246-275), filling the case-insensitive `paramVal`. */
  method ParseAssignments(sql: string, start: nat) returns (r: Option<map<string, string>>)
    requires start <= |sql|
    ensures r.Some? <==> Assignments(sql, start).Done?
    ensures r.Some? ==> r.value == BuildMap(Assignments(sql, start).value)
  {
    var i := start;
    var paramVal: map<string, string> := map[];
    ghost var bound: seq<Binding> := [];
    PrefixedNothing(Assignments(sql, start));
    while i < |sql|
      invariant start <= i <= |sql|
      invariant paramVal == BuildMap(bound)
      invariant Assignments(sql, start) == Prefixed(bound, Assignments(sql, i))
      decreases |sql| - i
    {
      var ok, name, value, k := ScanAssignment(sql, i);
      if !ok {
        return None;
      }
      PrefixedStep(bound, Binding(name, value), Assignments(sql, k));
      ghost var prev := bound;
      paramVal := Put(paramVal, name, value);
      bound := bound + [Binding(name, value)];
      assert bound[..|bound| - 1] == prev;
      i := k;
    }
    assert bound + [] == bound;
    return Some(paramVal);
  }

  lemma {:induction false} Regroup(a: string, b: string, c: string, d: string)
    ensures a + b + c + d == a + (b + (c + d))
  {
  }

  /** The identifier scan after an `@` (XEStreamer.cs:306-308). */
  method ScanIdentifier(stmt: string, from: nat) returns (rx: nat)
    requires from <= |stmt|
    ensures rx == IdentEnd(stmt, from)
  {
    rx := from;
    while rx < |stmt| && (IsLetterOrDigit(stmt[rx]) || stmt[rx] == '_')
      invariant from <= rx <= |stmt|
      invariant IdentEnd(stmt, rx) == IdentEnd(stmt, from)
      decreases |stmt| - rx
    {
      rx := rx + 1;
    }
  }

  /** One token of the substitution loop: a literal copied whole, or a parameter reference looked up. */
  method ScanToken(stmt: string, paramVal: map<string, string>, s: nat) returns (e: nat, piece: string)
    requires s < |stmt| && IsSkipChar(stmt[s])
    ensures e == TokenEnd(stmt, s) && piece == Token(stmt, paramVal, s)
  {
    if stmt[s] == '\'' {
      // a string literal: copied whole, so no parameter inside it is expanded
      var ok;
      ok, e := SkipString(stmt, s);
      piece := stmt[s..e];
    } else {
      // a parameter reference
      e := ScanIdentifier(stmt, s + 1);
      piece := Lookup(paramVal, stmt[s..e]);
    }
  }

  /** The substitution loop (XEStreamer.cs:279-323), appending to a string builder. */
  method Substitute(stmt: string, paramVal: map<string, string>) returns (text: string)
    ensures text == Render(stmt, paramVal, 0)
  {
    var sb := "";
    var rx := 0;
    while rx < |stmt|
      invariant rx <= |stmt|
      invariant sb + Render(stmt, paramVal, rx) == Render(stmt, paramVal, 0)
      decreases |stmt| - rx
    {
      ghost var sb0, rx0 := sb, rx;
      var s := IndexOfAny(stmt, rx);
      if s < 0 {
        RenderPlain(stmt, paramVal, rx, |stmt|);
        sb := sb + stmt[rx..];
        rx := |stmt|;
        break;
      }
      sb := sb + stmt[rx..s];
      var piece;
      rx, piece := ScanToken(stmt, paramVal, s);
      sb := sb + piece;
      RenderChunk(stmt, paramVal, rx0, s);
      Regroup(sb0, stmt[rx0..s], piece, Render(stmt, paramVal, rx));
    }
    return sb;
  }
}
