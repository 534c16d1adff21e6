/**
 * A projection on which the as-written expression and the literal-dot
 * reading disagree. With an unescaped `.` the table `abc` backs off to `a`
 * and the separator is taken to be `b`, so a projection without any
 * qualified column is rewritten, dropping its columns.
 */
module CollapseSample {
  import opened Wrappers
  import opened Text
  import opened Collapse

  const Sample: string := "SELECT abc AS x, def AS y FROM t"

  /**
   * `s` is the sample, character by character. The lemmas below are stated
   * for such an `s` rather than for the literal itself, so that the
   * verifier reasons about the matcher step by step instead of evaluating it.
   */
  predicate IsSample(s: string)
  {
    |s| == |Sample| && (forall k :: 0 <= k < |s| ==> s[k] == Sample[k]) &&
    s[0..6] == "SELECT" && s[26..30] == "FROM"
  }

  const First: Item := Item(7, 8, 10, 11, 14, 15)
  const Second: Item := Item(17, 18, 20, 21, 24, 25)

  /** The first column, read as table `a`, separator `b`, column `c`, alias `x`. */
  lemma {:induction false} FirstValid(s: string)
    requires IsSample(s)
    ensures ItemValid(AnyChar, s, First) && !InClass(Alias, s[First.end])
  {
    assert Run(Name, s, 7, 8) && Run(Name, s, 9, 10) && Run(Space, s, 10, 11);
    assert WordAt(s, 11, "as") && Run(Space, s, 13, 14) && Run(Alias, s, 14, 15);
  }

  lemma {:induction false} SecondValid(s: string)
    requires IsSample(s)
    ensures ItemValid(AnyChar, s, Second) && !InClass(Alias, s[Second.end])
  {
    assert Run(Name, s, 17, 18) && Run(Name, s, 19, 20) && Run(Space, s, 20, 21);
    assert WordAt(s, 21, "as") && Run(Space, s, 23, 24) && Run(Alias, s, 24, 25);
  }

  /** With the whole `abc` as table, the column would be `AS`, and `x` is not `AS`. */
  lemma {:induction false} FirstLongest(s: string)
    requires IsSample(s)
    ensures ItemWith(AnyChar, s, 7, 10) == None && ItemWith(AnyChar, s, 7, 9) == None
  {
    RunEndAt(Name, s, 11, 13);
    RunEndAt(Space, s, 13, 14);
    RunEndAt(Name, s, 10, 10);
    assert !WordAt(s, 14, "as") by {
      assert ToLower(s[14 + 0]) != "as"[0];
    }
  }

  lemma {:induction false} SecondLongest(s: string)
    requires IsSample(s)
    ensures ItemWith(AnyChar, s, 17, 20) == None && ItemWith(AnyChar, s, 17, 19) == None
  {
    RunEndAt(Name, s, 21, 23);
    RunEndAt(Space, s, 23, 24);
    RunEndAt(Name, s, 20, 20);
    assert !WordAt(s, 24, "as") by {
      assert ToLower(s[24 + 0]) != "as"[0];
    }
  }

  // Steps of the matcher on an arbitrary text, used below on the sample.

  /** The only reading that succeeds below the end of the name run is the one collected. */
  lemma {:induction false} CollectOne(f: nat -> Option<Item>, lo: nat, hi: nat, d: nat)
    requires lo < d <= hi && f(d).Some?
    requires forall x :: lo < x <= hi && x != d ==> f(x).None?
    ensures Collect(f, lo, hi) == [f(d).value]
    decreases hi - lo
  {
    if d < hi {
      CollectOne(f, lo, hi - 1, d);
    } else {
      CollectNone(f, lo, hi - 1);
    }
  }

  lemma {:induction false} AnotherStep(sep: Separator, s: string, pos: nat, it: Item, rest: seq<Item>, f: nat)
    requires pos < |s| && s[pos] == ',' && pos + 1 < it.start && RunEnd(Space, s, pos + 1) == it.start
    requires Items(sep, s, it.start) == [it] && ItemValid(sep, s, it)
    requires it.end <= |s| && Rest(sep, s, it.end) == Some((rest, f))
    ensures Another(sep, s, pos) == Some(([it] + rest, f))
  {
    assert FirstRest(sep, s, pos, it.start, [it]) == Some(([it] + rest, f));
  }

  lemma {:induction false} ColumnsStep(sep: Separator, s: string, q: nat, it: Item, rest: seq<Item>, f: nat)
    requires q < it.start <= |s| && RunEnd(Space, s, q) == it.start
    requires Items(sep, s, it.start) == [it] && ItemValid(sep, s, it)
    requires it.end <= |s| && Another(sep, s, it.end) == Some((rest, f))
    ensures Columns(sep, s, q) == Some(([it] + rest, f))
  {
    assert FirstAnother(sep, s, [it]) == Some(([it] + rest, f));
  }

  lemma {:induction false} PlainMatch(sep: Separator, s: string, p: nat, items: seq<Item>, f: nat)
    requires p + 6 <= |s| && WordAt(s, p, "select") && TopEnd(s, p + 6) == None
    requires Columns(sep, s, p + 6) == Some((items, f))
    ensures MatchAt(sep, s, p) == Some(Match(NoTop, p + 6, items, f))
  {
    assert WithTop(sep, s, p) == None;
  }

  /** A match at `p` is replaced, and the text goes on after its `FROM`. */
  lemma {:induction false} ReplaceAt(sep: Separator, s: string, p: nat, m: Match, tables: seq<string>)
    requires p < |s| && MatchAt(sep, s, p) == Some(m)
    requires forall k :: 0 <= k < |m.items| ==> m.items[k].start <= m.items[k].dot <= |s|
    requires tables == Tables(s, m.items)
    ensures p + 6 <= m.selectEnd < m.fromAt && MatchEnd(m) <= |s|
    ensures Replace(sep, s, p) ==
      s[p..m.selectEnd] + " " + Listing(Distinct(tables)) + " " + s[m.fromAt..MatchEnd(m)] + Replace(sep, s, MatchEnd(m))
  {
    ValidBounds(sep, s, p, m);
  }

  // The sample.

  /** The longest name runs at 7 and at 17 are `abc` and `def`. */
  lemma {:induction false} FirstTable(s: string)
    requires IsSample(s)
    ensures RunEnd(Name, s, 7) == 10
  {
    assert RunEnd(Name, s, 10) == 10;
    assert RunEnd(Name, s, 9) == 10;
    assert RunEnd(Name, s, 8) == 10;
  }

  lemma {:induction false} SecondTable(s: string)
    requires IsSample(s)
    ensures RunEnd(Name, s, 17) == 20
  {
    assert RunEnd(Name, s, 20) == 20;
    assert RunEnd(Name, s, 19) == 20;
    assert RunEnd(Name, s, 18) == 20;
  }

  /** The readings tried at 7 and at 17: one each. */
  lemma {:induction false} FirstItems(s: string)
    requires IsSample(s)
    ensures Items(AnyChar, s, 7) == [First]
  {
    FirstValid(s);
    ItemRuns(AnyChar, s, First);
    ItemWithOf(AnyChar, s, First);
    FirstLongest(s);
    FirstTable(s);
    var f := Reading(AnyChar, s, 7);
    assert f(10) == None && f(9) == None && f(8) == Some(First);
    CollectOne(f, 7, 10, 8);
  }

  lemma {:induction false} SecondItems(s: string)
    requires IsSample(s)
    ensures Items(AnyChar, s, 17) == [Second]
  {
    SecondValid(s);
    ItemRuns(AnyChar, s, Second);
    ItemWithOf(AnyChar, s, Second);
    SecondLongest(s);
    SecondTable(s);
    var f := Reading(AnyChar, s, 17);
    assert f(20) == None && f(19) == None && f(18) == Some(Second);
    CollectOne(f, 17, 20, 18);
  }

  /** After `y` the loop stops and `FROM` follows. */
  lemma {:induction false} AfterSecond(s: string)
    requires IsSample(s)
    ensures Rest(AnyChar, s, 25) == Some(([], 26))
  {
    RunEndAt(Space, s, 25, 26);
    assert WordAt(s, 26, "from");
  }

  lemma {:induction false} AfterFirst(s: string)
    requires IsSample(s)
    ensures Another(AnyChar, s, 15) == Some(([Second], 26))
  {
    RunEndAt(Space, s, 16, 17);
    SecondItems(s);
    AfterSecond(s);
    SecondValid(s);
    AnotherStep(AnyChar, s, 15, Second, [], 26);
    assert [Second] + [] == [Second];
  }

  lemma {:induction false} SampleColumns(s: string)
    requires IsSample(s)
    ensures Columns(AnyChar, s, 6) == Some(([First, Second], 26))
  {
    RunEndAt(Space, s, 6, 7);
    FirstItems(s);
    AfterFirst(s);
    FirstValid(s);
    ColumnsStep(AnyChar, s, 6, First, [Second], 26);
    assert [First] + [Second] == [First, Second];
  }

  /** `abc` is not `TOP`, so only the reading without the group is left. */
  lemma {:induction false} SampleMatch(s: string)
    requires IsSample(s)
    ensures MatchAt(AnyChar, s, 0) == Some(Match(NoTop, 6, [First, Second], 26))
  {
    RunEndAt(Space, s, 6, 7);
    assert !WordAt(s, 7, "top") by {
      assert ToLower(s[7 + 0]) != "top"[0];
    }
    SampleColumns(s);
    SampleSelect(s);
    PlainMatch(AnyChar, s, 0, [First, Second], 26);
  }

  lemma {:induction false} SampleSelect(s: string)
    requires IsSample(s)
    ensures WordAt(s, 0, "select")
  {
  }

  lemma {:induction false} SampleTables(s: string)
    requires IsSample(s)
    ensures Tables(s, [First, Second]) == ["a", "d"]
  {
    assert s[7..8] == [s[7]] && s[17..18] == [s[17]];
  }

  lemma {:induction false} SampleTail(s: string)
    requires IsSample(s)
    ensures Replace(AnyChar, s, 30) == " t"
  {
    assert MatchAt(AnyChar, s, 31) == None && MatchAt(AnyChar, s, 30) == None;
    assert Replace(AnyChar, s, 31) == [s[31]];
    assert Replace(AnyChar, s, 30) == [s[30]] + [s[31]];
  }

  /** The match at the start is replaced by the select keyword, the listing and `FROM`. */
  lemma {:induction false} SampleHead(s: string)
    requires IsSample(s)
    ensures Replace(AnyChar, s, 0) == "SELECT a.*, d.* FROM" + Replace(AnyChar, s, 30)
  {
    SampleMatch(s);
    SampleTables(s);
    ReplaceAt(AnyChar, s, 0, Match(NoTop, 6, [First, Second], 26), ["a", "d"]);
    SampleListing();
    SampleJoin(s);
  }

  lemma {:induction false} SampleJoin(s: string)
    requires IsSample(s)
    ensures s[0..6] + " " + "a.*, d.*" + " " + s[26..30] == "SELECT a.*, d.* FROM"
  {
  }

  lemma SampleListing()
    ensures Listing(Distinct(["a", "d"])) == "a.*, d.*"
  {
    assert ["a", "d"][1..] == ["d"] && ["d"][1..] == [];
    assert DistinctFrom(["d"], {"a"}) == ["d"];
    assert {} + {"a"} == {"a"};
    assert Distinct(["a", "d"]) == ["a"] + ["d"];
    assert Listing(["d"]) == "d.*";
  }

  lemma SampleConcat()
    ensures "SELECT a.*, d.* FROM" + " t" == "SELECT a.*, d.* FROM t"
  {
  }

  /** As written, the projection loses its columns. */
  lemma {:induction false} SampleAsWritten(s: string)
    requires IsSample(s)
    ensures CollapseSelects(AnyChar, s) == "SELECT a.*, d.* FROM t"
  {
    SampleHead(s);
    SampleTail(s);
    SampleConcat();
  }

  /** With a literal dot, the projection is left as it is. */
  lemma {:induction false} SampleIntended(s: string)
    requires IsSample(s)
    ensures CollapseSelects(Dot, s) == s
  {
    assert '.' !in s;
    NoDotUnchanged(s);
  }

  /** The sample itself. */
  lemma SampleLiteral()
    ensures IsSample(Sample)
    ensures CollapseSelects(AnyChar, Sample) == "SELECT a.*, d.* FROM t"
    ensures CollapseSelects(Dot, Sample) == Sample
  {
    SampleAsWritten(Sample);
    SampleIntended(Sample);
  }
}
