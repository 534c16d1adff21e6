/**
 * The projection collapser (XEStreamer.cs:326-340). A regular expression,
 * matched case-insensitively, finds
 *
 *   SELECT [\s+ TOP \s+ \S+] \s+ t.c \s+ AS \s+ a (, \s+ t.c \s+ AS \s+ a)+ \s+ FROM
 *
 * and replaces each match by the select part, the distinct table names in
 * order of first appearance each followed by `.*` and joined by `, `, and
 * the `FROM`. The expression is modelled by a hand-written matcher for
 * exactly this shape that tries the alternatives in the order the
 * backtracking engine does; it is proved sound and complete with respect to
 * a declarative grammar of the shape (Valid).
 *
 * The `.` between table and column is unescaped in the source, so it
 * matches any character (Separator.AnyChar); the evidently intended reading
 * is a literal dot (Separator.Dot).
 */
module Collapse {
  import opened Wrappers
  import opened Text

  /** What the character between a table and its column may be. */
  datatype Separator = AnyChar | Dot

  predicate SepMatches(sep: Separator, c: char)
  {
    sep.AnyChar? || c == '.'
  }

  /** `\s` (its ASCII part). */
  predicate IsSpace(c: char)
  {
    c == ' ' || c == '\t' || c == '\n' || c == '\r' || c == '\U{000B}' || c == '\U{000C}'
  }

  /** The character classes of the expression: `\s`, `\S`, `[[\]\w_]` and `[[\]\w_+]`. */
  datatype CharClass = Space | NonSpace | Name | Alias

  predicate InClass(cl: CharClass, c: char)
  {
    match cl
    case Space => IsSpace(c)
    case NonSpace => !IsSpace(c)
    case Name => c == '[' || c == ']' || IsWordChar(c)
    case Alias => c == '[' || c == ']' || IsWordChar(c) || c == '+'
  }

  /** `s[a..b]` is a non-empty run of the class. */
  predicate Run(cl: CharClass, s: string, a: nat, b: nat)
  {
    a < b <= |s| && forall k :: a <= k < b ==> InClass(cl, s[k])
  }

  /** The lower-case keyword `w` at `i`, matched ignoring case. */
  predicate WordAt(s: string, i: nat, w: string)
  {
    i + |w| <= |s| && forall k :: 0 <= k < |w| ==> ToLower(s[i + k]) == w[k]
  }

  /** The end of the longest run of the class from `i` (a greedy `+` or `*`). */
  function RunEnd(cl: CharClass, s: string, i: nat): (e: nat)
    requires i <= |s|
    decreases |s| - i
    ensures i <= e <= |s| && (e == |s| || !InClass(cl, s[e]))
    ensures forall k :: i <= k < e ==> InClass(cl, s[k])
  {
    if i == |s| || !InClass(cl, s[i]) then i else RunEnd(cl, s, i + 1)
  }

  /** A run that is followed by a character outside its class ends where the longest run does. */
  lemma {:induction false} RunEndAt(cl: CharClass, s: string, a: nat, b: nat)
    requires a <= b <= |s| && (forall k :: a <= k < b ==> InClass(cl, s[k]))
    requires b == |s| || !InClass(cl, s[b])
    ensures RunEnd(cl, s, a) == b
    decreases b - a
  {
    if a < b {
      RunEndAt(cl, s, a + 1, b);
    }
  }

  /** Any run from `a` lies within the longest one. */
  lemma {:induction false} RunWithin(cl: CharClass, s: string, a: nat, b: nat)
    requires Run(cl, s, a, b)
    ensures b <= RunEnd(cl, s, a)
  {
    var e := RunEnd(cl, s, a);
    if e < b {
      assert false;
    }
  }

  // ---------------------------------------------------------------------
  // The declarative grammar of a match.

  /**
   * `table.column AS alias`: the table is `s[start..dot]`, the separator
   * character sits at `dot`, the column runs up to `columnEnd`, `AS` sits at
   * `asAt` and the alias runs from `aliasStart` up to `end`.
   */
  datatype Item = Item(start: nat, dot: nat, columnEnd: nat, asAt: nat, aliasStart: nat, end: nat)

  /** The optional `\s+ TOP \s+ \S+`: absent, or `TOP` at `at` with its argument from `arg`. */
  datatype Top = NoTop | Top(at: nat, arg: nat)

  /** A match from `SELECT` to `FROM`; the select group ends at `selectEnd`, `FROM` sits at `fromAt`. */
  datatype Match = Match(top: Top, selectEnd: nat, items: seq<Item>, fromAt: nat)

  predicate ItemValid(sep: Separator, s: string, it: Item)
  {
    it.dot < |s| && Run(Name, s, it.start, it.dot) && SepMatches(sep, s[it.dot]) &&
    Run(Name, s, it.dot + 1, it.columnEnd) && Run(Space, s, it.columnEnd, it.asAt) &&
    WordAt(s, it.asAt, "as") && Run(Space, s, it.asAt + 2, it.aliasStart) &&
    Run(Alias, s, it.aliasStart, it.end)
  }

  /** The select group after `SELECT` (which ends at `i`). */
  predicate TopValid(s: string, i: nat, top: Top, selectEnd: nat)
  {
    match top
    case NoTop => selectEnd == i
    case Top(at, arg) =>
      Run(Space, s, i, at) && WordAt(s, at, "top") && Run(Space, s, at + 3, arg) &&
      Run(NonSpace, s, arg, selectEnd)
  }

  /** From `pos`: `(, \s+ item)*` over `items`, then `\s+ FROM` with `FROM` at `fromAt`. */
  predicate Chain(sep: Separator, s: string, pos: nat, items: seq<Item>, fromAt: nat)
    decreases |items|
  {
    if items == [] then Run(Space, s, pos, fromAt) && WordAt(s, fromAt, "from")
    else
      pos < |s| && s[pos] == ',' && Run(Space, s, pos + 1, items[0].start) &&
      ItemValid(sep, s, items[0]) && Chain(sep, s, items[0].end, items[1..], fromAt)
  }

  /** `m` is a match of the expression starting at `p`: at least two items, each with `AS`. */
  predicate Valid(sep: Separator, s: string, p: nat, m: Match)
  {
    WordAt(s, p, "select") && TopValid(s, p + 6, m.top, m.selectEnd) &&
    |m.items| >= 2 && Run(Space, s, m.selectEnd, m.items[0].start) &&
    ItemValid(sep, s, m.items[0]) && Chain(sep, s, m.items[0].end, m.items[1..], m.fromAt)
  }

  // ---------------------------------------------------------------------
  // The matcher, in the engine's order of alternatives.

  /** The item whose separator sits at `dot`, every other run taken as long as it goes. */
  function ItemWith(sep: Separator, s: string, i: nat, dot: nat): (r: Option<Item>)
    requires i <= dot
  {
    if dot >= |s| || !SepMatches(sep, s[dot]) then None
    else
      var c := RunEnd(Name, s, dot + 1);
      var a := RunEnd(Space, s, c);
      if c == dot + 1 || a == c || !WordAt(s, a, "as") then None
      else
        var w := RunEnd(Space, s, a + 2);
        var e := RunEnd(Alias, s, w);
        if w == a + 2 || e == w then None
        else Some(Item(i, dot, c, a, w, e))
  }

  /** A reading at `dot` is an item of the grammar with its table from `i` to `dot`. */
  lemma {:induction false} ItemWithValid(sep: Separator, s: string, i: nat, dot: nat)
    requires Run(Name, s, i, dot) && ItemWith(sep, s, i, dot).Some?
    ensures ItemWith(sep, s, i, dot).value.start == i && ItemWith(sep, s, i, dot).value.dot == dot
    ensures ItemValid(sep, s, ItemWith(sep, s, i, dot).value)
  {
  }

  /** The readings `f(d)` that succeed for `d` from `hi` down to just above `lo`, in that order. */
  function Collect(f: nat -> Option<Item>, lo: nat, hi: nat): seq<Item>
    decreases hi - lo
  {
    if hi <= lo then []
    else if f(hi).Some? then [f(hi).value] + Collect(f, lo, hi - 1)
    else Collect(f, lo, hi - 1)
  }

  /** The reading at `i` whose table ends at `dot`, for every `dot` after `i`. */
  function Reading(sep: Separator, s: string, i: nat): nat -> Option<Item>
  {
    (dot: nat) => if i <= dot then ItemWith(sep, s, i, dot) else None
  }

  /** The items at `i` whose table ends at or before `dot`, longest table first. */
  function Candidates(sep: Separator, s: string, i: nat, dot: nat): seq<Item>
  {
    Collect(Reading(sep, s, i), i, dot)
  }

  /** Every way an item can be read at `i`: the greedy table backs off one character at a time. */
  function Items(sep: Separator, s: string, i: nat): seq<Item>
    requires i <= |s|
  {
    Candidates(sep, s, i, RunEnd(Name, s, i))
  }

  /** Every collected item is the reading at some `d` between the bounds. */
  lemma {:induction false} CollectFrom(f: nat -> Option<Item>, lo: nat, hi: nat, k: nat) returns (d: nat)
    requires k < |Collect(f, lo, hi)|
    ensures lo < d <= hi && f(d) == Some(Collect(f, lo, hi)[k])
    decreases hi - lo
  {
    if f(hi).Some? && k == 0 {
      d := hi;
    } else if f(hi).Some? {
      d := CollectFrom(f, lo, hi - 1, k - 1);
    } else {
      d := CollectFrom(f, lo, hi - 1, k);
    }
  }

  /** Every reading the matcher tries at `i` is an item of the grammar starting at `i`. */
  lemma {:induction false} CandidatesValid(sep: Separator, s: string, i: nat, dot: nat)
    requires i <= |s| && i <= dot <= RunEnd(Name, s, i)
    ensures forall k :: 0 <= k < |Candidates(sep, s, i, dot)| ==>
      Candidates(sep, s, i, dot)[k].start == i && ItemValid(sep, s, Candidates(sep, s, i, dot)[k])
  {
    forall k | 0 <= k < |Candidates(sep, s, i, dot)|
      ensures Candidates(sep, s, i, dot)[k].start == i && ItemValid(sep, s, Candidates(sep, s, i, dot)[k])
    {
      var d := CollectFrom(Reading(sep, s, i), i, dot, k);
      ItemWithValid(sep, s, i, d);
    }
  }

  lemma {:induction false} ItemsValid(sep: Separator, s: string, i: nat)
    requires i <= |s|
    ensures forall k :: 0 <= k < |Items(sep, s, i)| ==> Items(sep, s, i)[k].start == i && ItemValid(sep, s, Items(sep, s, i)[k])
  {
    CandidatesValid(sep, s, i, RunEnd(Name, s, i));
  }

  /** `\s+ FROM` at `pos`: where `FROM` sits. */
  function FromAt(s: string, pos: nat): (r: Option<nat>)
    requires pos <= |s|
    ensures r.Some? ==> Run(Space, s, pos, r.value) && WordAt(s, r.value, "from")
  {
    var w := RunEnd(Space, s, pos);
    if w > pos && WordAt(s, w, "from") then Some(w) else None
  }

  /** The greedy loop from `pos`: one more iteration if any succeeds, else `\s+ FROM`. */
  function Rest(sep: Separator, s: string, pos: nat): (r: Option<(seq<Item>, nat)>)
    requires pos <= |s|
    decreases |s| - pos, 2
    ensures r.Some? ==> Chain(sep, s, pos, r.value.0, r.value.1)
  {
    match Another(sep, s, pos)
    case Some(x) => Some(x)
    case None =>
      match FromAt(s, pos)
      case Some(f) => Some(([], f))
      case None => None
  }

  /** One iteration `, \s+ item` at `pos`, followed by the rest of the loop. */
  function Another(sep: Separator, s: string, pos: nat): (r: Option<(seq<Item>, nat)>)
    requires pos <= |s|
    decreases |s| - pos, 1
    ensures r.Some? ==> r.value.0 != [] && Chain(sep, s, pos, r.value.0, r.value.1)
  {
    if pos < |s| && s[pos] == ',' then
      var w := RunEnd(Space, s, pos + 1);
      if w == pos + 1 then None
      else
        ItemsValid(sep, s, w);
        FirstRest(sep, s, pos, w, Items(sep, s, w))
    else None
  }

  /** The first of the item readings `opts` after which the loop goes on to a match. */
  function FirstRest(sep: Separator, s: string, pos: nat, w: nat, opts: seq<Item>): (r: Option<(seq<Item>, nat)>)
    requires pos < |s| && s[pos] == ',' && Run(Space, s, pos + 1, w)
    requires forall k :: 0 <= k < |opts| ==> opts[k].start == w && ItemValid(sep, s, opts[k])
    decreases |s| - pos, 0, |opts|
    ensures r.Some? ==> r.value.0 != [] && Chain(sep, s, pos, r.value.0, r.value.1)
  {
    if opts == [] then None
    else
      ItemBounds(sep, s, opts[0]);
      match Rest(sep, s, opts[0].end)
      case Some((items, f)) => Some(([opts[0]] + items, f))
      case None => FirstRest(sep, s, pos, w, opts[1..])
  }

  /** After the first item: the mandatory iteration and the rest of the loop. */
  function FirstAnother(sep: Separator, s: string, opts: seq<Item>): (r: Option<(seq<Item>, nat)>)
    requires forall k :: 0 <= k < |opts| ==> ItemValid(sep, s, opts[k])
    ensures r.Some? ==> |r.value.0| >= 2 && ItemValid(sep, s, r.value.0[0])
    ensures r.Some? ==> r.value.0[0] in opts && Chain(sep, s, r.value.0[0].end, r.value.0[1..], r.value.1)
  {
    if opts == [] then None
    else
      ItemBounds(sep, s, opts[0]);
      match Another(sep, s, opts[0].end)
      case Some((items, f)) => Some(([opts[0]] + items, f))
      case None => FirstAnother(sep, s, opts[1..])
  }

  /** `\s+ item (, \s+ item)+ \s+ FROM` after the select group, which ends at `q`. */
  function Columns(sep: Separator, s: string, q: nat): (r: Option<(seq<Item>, nat)>)
    requires q <= |s|
    ensures r.Some? ==> |r.value.0| >= 2 && Run(Space, s, q, r.value.0[0].start) && ItemValid(sep, s, r.value.0[0])
    ensures r.Some? ==> Chain(sep, s, r.value.0[0].end, r.value.0[1..], r.value.1)
  {
    var w := RunEnd(Space, s, q);
    if w == q then None
    else
      ItemsValid(sep, s, w);
      FirstAnother(sep, s, Items(sep, s, w))
  }

  /** `\s+ TOP \s+ \S+` from `i`: where it ends. */
  function TopEnd(s: string, i: nat): (r: Option<(Top, nat)>)
    requires i <= |s|
    ensures r.Some? ==> r.value.0.Top? && TopValid(s, i, r.value.0, r.value.1)
  {
    var at := RunEnd(Space, s, i);
    if at == i || !WordAt(s, at, "top") then None
    else
      var arg := RunEnd(Space, s, at + 3);
      var e := RunEnd(NonSpace, s, arg);
      if arg == at + 3 || e == arg then None else Some((Top(at, arg), e))
  }

  /** The match at `p` without the `TOP` group. */
  function Plain(sep: Separator, s: string, p: nat): (r: Option<Match>)
    requires p + 6 <= |s|
    ensures r.Some? ==> r.value.top == NoTop && r.value.selectEnd == p + 6
  {
    match Columns(sep, s, p + 6)
    case Some((items, f)) => Some(Match(NoTop, p + 6, items, f))
    case None => None
  }

  /** The match at `p` with the `TOP` group. */
  function WithTop(sep: Separator, s: string, p: nat): (r: Option<Match>)
    requires p + 6 <= |s|
    ensures r.Some? ==> r.value.top.Top? && TopValid(s, p + 6, r.value.top, r.value.selectEnd)
  {
    match TopEnd(s, p + 6)
    case Some((top, q)) =>
      (match Columns(sep, s, q)
       case Some((items, f)) => Some(Match(top, q, items, f))
       case None => None)
    case None => None
  }

  /** The match at `p`, if any: with the `TOP` group first, then without it. */
  function MatchAt(sep: Separator, s: string, p: nat): (r: Option<Match>)
    requires p <= |s|
    ensures r.Some? ==> Valid(sep, s, p, r.value)
  {
    if !WordAt(s, p, "select") then None
    else if WithTop(sep, s, p).Some? then WithTop(sep, s, p)
    else Plain(sep, s, p)
  }

  // ---------------------------------------------------------------------
  // The replacement.

  /** The table names of a match's items, in order. */
  function Tables(s: string, items: seq<Item>): (r: seq<string>)
    requires forall k :: 0 <= k < |items| ==> items[k].start <= items[k].dot <= |s|
    ensures |r| == |items|
    ensures forall k :: 0 <= k < |items| ==> r[k] == s[items[k].start..items[k].dot]
  {
    if items == [] then [] else [s[items[0].start..items[0].dot]] + Tables(s, items[1..])
  }

  /** `GroupBy` keys: the distinct elements in order of first appearance, skipping those in `seen`. */
  function DistinctFrom(xs: seq<string>, seen: set<string>): seq<string>
  {
    if xs == [] then []
    else if xs[0] in seen then DistinctFrom(xs[1..], seen)
    else [xs[0]] + DistinctFrom(xs[1..], seen + {xs[0]})
  }

  function Distinct(xs: seq<string>): seq<string>
  {
    DistinctFrom(xs, {})
  }

  /** `string.Join(", ", tables.Select(t => t + ".*"))`. */
  function Listing(ts: seq<string>): string
  {
    if ts == [] then ""
    else if |ts| == 1 then ts[0] + ".*"
    else ts[0] + ".*, " + Listing(ts[1..])
  }

  /** The end of a match: just after `FROM`. */
  function MatchEnd(m: Match): nat
  {
    m.fromAt + 4
  }

  /** What a match at `p` is replaced by. */
  function Replacement(sep: Separator, s: string, p: nat, m: Match): string
    requires Valid(sep, s, p, m)
  {
    ValidBounds(sep, s, p, m);
    s[p..m.selectEnd] + " " + Listing(Distinct(Tables(s, m.items))) + " " + s[m.fromAt..MatchEnd(m)]
  }

  /** `Regex.Replace` from `p`: each match, leftmost first, is replaced; other characters are copied. */
  function Replace(sep: Separator, s: string, p: nat): string
    requires p <= |s|
    decreases |s| - p
  {
    if p == |s| then ""
    else
      match MatchAt(sep, s, p)
      case Some(m) =>
        ValidBounds(sep, s, p, m);
        Replacement(sep, s, p, m) + Replace(sep, s, MatchEnd(m))
      case None => [s[p]] + Replace(sep, s, p + 1)
  }

  /** `CollapseSelects`. */
  function CollapseSelects(sep: Separator, s: string): string
  {
    Replace(sep, s, 0)
  }

  // ---------------------------------------------------------------------
  // Properties.

  /** The parts of an item follow one another. */
  lemma {:induction false} ItemBounds(sep: Separator, s: string, it: Item)
    requires ItemValid(sep, s, it)
    ensures it.start < it.dot < it.columnEnd < it.asAt < it.aliasStart < it.end <= |s|
  {
  }

  /** A chain ends after its starting point, and once it reaches FROM it fits in the text. */
  lemma {:induction false} ChainBounds(sep: Separator, s: string, pos: nat, items: seq<Item>, f: nat)
    requires Chain(sep, s, pos, items, f)
    ensures pos < f && f + 4 <= |s|
    ensures forall k :: 0 <= k < |items| ==> items[k].start < items[k].dot <= |s|
    decreases |items|
  {
    if items != [] {
      var it := items[0];
      ChainBounds(sep, s, it.end, items[1..], f);
      assert forall k :: 1 <= k < |items| ==> items[k] == items[1..][k - 1];
    }
  }

  /** A match lies within the text, and its parts in order. */
  lemma {:induction false} ValidBounds(sep: Separator, s: string, p: nat, m: Match)
    requires Valid(sep, s, p, m)
    ensures p + 6 <= m.selectEnd < m.fromAt && MatchEnd(m) <= |s|
    ensures forall k :: 0 <= k < |m.items| ==> m.items[k].start <= m.items[k].dot <= |s|
  {
    var it := m.items[0];
    ChainBounds(sep, s, it.end, m.items[1..], m.fromAt);
    assert forall k :: 1 <= k < |m.items| ==> m.items[k] == m.items[1..][k - 1];
  }

  // ---------------------------------------------------------------------
  // Completeness: whenever the grammar admits a match at `p`, the matcher finds one.

  /** Characters that start the next token after a run are outside the run's class. */
  lemma {:induction false} KeywordNotSpace(s: string, i: nat, w: string)
    requires WordAt(s, i, w) && |w| >= 1 && w[0] != ' ' && 'a' <= w[0] <= 'z'
    ensures i < |s| && !IsSpace(s[i])
  {
    assert ToLower(s[i + 0]) == w[0];
  }

  /** After an item in a chain comes a comma or a space, neither of which continues the alias. */
  lemma {:induction false} ChainFollow(sep: Separator, s: string, pos: nat, items: seq<Item>, f: nat)
    requires Chain(sep, s, pos, items, f)
    ensures pos < |s| && !InClass(Alias, s[pos]) && !InClass(Name, s[pos])
  {
    if items == [] {
      assert IsSpace(s[pos]);
    }
  }

  /** Every run of an item whose alias is not continued is a longest run. */
  lemma {:induction false} ItemRuns(sep: Separator, s: string, it: Item)
    requires ItemValid(sep, s, it) && (it.end == |s| || !InClass(Alias, s[it.end]))
    ensures it.dot + 1 <= |s| && RunEnd(Name, s, it.dot + 1) == it.columnEnd
    ensures RunEnd(Space, s, it.columnEnd) == it.asAt && it.asAt + 2 <= |s|
    ensures RunEnd(Space, s, it.asAt + 2) == it.aliasStart && RunEnd(Alias, s, it.aliasStart) == it.end
  {
    ItemBounds(sep, s, it);
    assert IsSpace(s[it.columnEnd]);
    RunEndAt(Name, s, it.dot + 1, it.columnEnd);
    KeywordNotSpace(s, it.asAt, "as");
    RunEndAt(Space, s, it.columnEnd, it.asAt);
    assert InClass(Alias, s[it.aliasStart]);
    RunEndAt(Space, s, it.asAt + 2, it.aliasStart);
    RunEndAt(Alias, s, it.aliasStart, it.end);
  }

  /** An item made of longest runs is the reading with its separator. */
  lemma {:induction false} ItemWithOf(sep: Separator, s: string, it: Item)
    requires ItemValid(sep, s, it) && it.start <= it.dot && it.dot + 1 <= |s| && it.asAt + 2 <= |s|
    requires RunEnd(Name, s, it.dot + 1) == it.columnEnd && RunEnd(Space, s, it.columnEnd) == it.asAt
    requires RunEnd(Space, s, it.asAt + 2) == it.aliasStart && RunEnd(Alias, s, it.aliasStart) == it.end
    ensures ItemWith(sep, s, it.start, it.dot) == Some(it)
  {
  }

  /** An item whose alias is not continued is one of the readings the matcher tries. */
  lemma {:induction false} ItemTried(sep: Separator, s: string, it: Item)
    requires ItemValid(sep, s, it) && (it.end == |s| || !InClass(Alias, s[it.end]))
    ensures it in Items(sep, s, it.start)
  {
    ItemRuns(sep, s, it);
    ItemWithOf(sep, s, it);
    RunWithin(Name, s, it.start, it.dot);
    CollectHas(Reading(sep, s, it.start), it.start, RunEnd(Name, s, it.start), it.dot);
  }

  /** A successful reading between the bounds is collected. */
  lemma {:induction false} CollectHas(f: nat -> Option<Item>, lo: nat, hi: nat, d: nat)
    requires lo < d <= hi && f(d).Some?
    ensures f(d).value in Collect(f, lo, hi)
    decreases hi - lo
  {
    if d < hi {
      CollectHas(f, lo, hi - 1, d);
    }
  }

  /** The first reading after which the loop succeeds is found, if there is one. */
  lemma {:induction false} FirstRestFinds(sep: Separator, s: string, pos: nat, w: nat, opts: seq<Item>, it: Item)
    requires pos < |s| && s[pos] == ',' && Run(Space, s, pos + 1, w)
    requires forall k :: 0 <= k < |opts| ==> opts[k].start == w && ItemValid(sep, s, opts[k])
    requires it in opts && it.end <= |s| && Rest(sep, s, it.end).Some?
    ensures FirstRest(sep, s, pos, w, opts).Some?
    decreases |opts|
  {
    if opts[0] != it {
      ItemBounds(sep, s, opts[0]);
      if Rest(sep, s, opts[0].end).None? {
        FirstRestFinds(sep, s, pos, w, opts[1..], it);
      }
    }
  }

  lemma {:induction false} FirstAnotherFinds(sep: Separator, s: string, opts: seq<Item>, it: Item)
    requires forall k :: 0 <= k < |opts| ==> ItemValid(sep, s, opts[k])
    requires it in opts && it.end <= |s| && Another(sep, s, it.end).Some?
    ensures FirstAnother(sep, s, opts).Some?
    decreases |opts|
  {
    if opts[0] != it {
      ItemBounds(sep, s, opts[0]);
      if Another(sep, s, opts[0].end).None? {
        FirstAnotherFinds(sep, s, opts[1..], it);
      }
    }
  }

  /** An item after spaces and followed by a chain is read where the spaces end. */
  lemma {:induction false} ItemAfterSpace(sep: Separator, s: string, q: nat, items: seq<Item>, f: nat)
    requires items != [] && Run(Space, s, q, items[0].start) && ItemValid(sep, s, items[0])
    requires Chain(sep, s, items[0].end, items[1..], f)
    ensures RunEnd(Space, s, q) == items[0].start && items[0] in Items(sep, s, items[0].start)
    ensures items[0].end <= |s|
  {
    var it := items[0];
    ItemBounds(sep, s, it);
    assert InClass(Name, s[it.start]);
    RunEndAt(Space, s, q, it.start);
    ChainFollow(sep, s, it.end, items[1..], f);
    ItemTried(sep, s, it);
  }

  /** The greedy loop succeeds on any text the grammar reads as a chain from `pos`. */
  lemma {:induction false} RestComplete(sep: Separator, s: string, pos: nat, items: seq<Item>, f: nat)
    requires pos <= |s| && Chain(sep, s, pos, items, f)
    ensures Rest(sep, s, pos).Some?
    decreases |items|, 1
  {
    if items == [] {
      if Another(sep, s, pos).None? {
        KeywordNotSpace(s, f, "from");
        RunEndAt(Space, s, pos, f);
      }
    } else {
      AnotherComplete(sep, s, pos, items, f);
    }
  }

  lemma {:induction false} AnotherComplete(sep: Separator, s: string, pos: nat, items: seq<Item>, f: nat)
    requires pos <= |s| && items != [] && Chain(sep, s, pos, items, f)
    ensures Another(sep, s, pos).Some?
    decreases |items|, 0
  {
    var it := items[0];
    ItemAfterSpace(sep, s, pos + 1, items, f);
    RestComplete(sep, s, it.end, items[1..], f);
    ItemsValid(sep, s, it.start);
    FirstRestFinds(sep, s, pos, it.start, Items(sep, s, it.start), it);
  }

  /** The items after the select group are found whenever the grammar reads them. */
  lemma {:induction false} ColumnsComplete(sep: Separator, s: string, q: nat, items: seq<Item>, f: nat)
    requires q <= |s| && |items| >= 2 && Run(Space, s, q, items[0].start) && ItemValid(sep, s, items[0])
    requires Chain(sep, s, items[0].end, items[1..], f)
    ensures Columns(sep, s, q).Some?
  {
    var it := items[0];
    ItemAfterSpace(sep, s, q, items, f);
    AnotherComplete(sep, s, it.end, items[1..], f);
    ItemsValid(sep, s, it.start);
    FirstAnotherFinds(sep, s, Items(sep, s, it.start), it);
  }

  /** A `TOP` group followed by a space is the one the matcher reads. */
  lemma {:induction false} TopComplete(s: string, i: nat, top: Top, e: nat)
    requires i <= |s| && top.Top? && TopValid(s, i, top, e) && (e == |s| || IsSpace(s[e]))
    ensures TopEnd(s, i) == Some((top, e))
  {
    KeywordNotSpace(s, top.at, "top");
    RunEndAt(Space, s, i, top.at);
    assert !IsSpace(s[top.arg]);
    RunEndAt(Space, s, top.at + 3, top.arg);
    RunEndAt(NonSpace, s, top.arg, e);
  }

  /** The matcher finds a match at `p` exactly when the grammar admits one there. */
  lemma {:induction false} PlainFound(sep: Separator, s: string, p: nat)
    requires p + 6 <= |s| && Columns(sep, s, p + 6).Some?
    ensures Plain(sep, s, p).Some?
  {
  }

  lemma {:induction false} WithTopFound(sep: Separator, s: string, p: nat, top: Top, q: nat)
    requires p + 6 <= |s| && TopEnd(s, p + 6) == Some((top, q)) && Columns(sep, s, q).Some?
    ensures WithTop(sep, s, p).Some?
  {
  }

  lemma {:induction false} MatchAtFound(sep: Separator, s: string, p: nat)
    requires p + 6 <= |s| && WordAt(s, p, "select") && (WithTop(sep, s, p).Some? || Plain(sep, s, p).Some?)
    ensures MatchAt(sep, s, p).Some?
  {
  }

  lemma {:induction false} MatchComplete(sep: Separator, s: string, p: nat, m: Match)
    requires p <= |s| && Valid(sep, s, p, m)
    ensures MatchAt(sep, s, p).Some?
  {
    ValidBounds(sep, s, p, m);
    ColumnsComplete(sep, s, m.selectEnd, m.items, m.fromAt);
    if m.top.Top? {
      ItemBounds(sep, s, m.items[0]);
      TopComplete(s, p + 6, m.top, m.selectEnd);
      WithTopFound(sep, s, p, m.top, m.selectEnd);
    } else {
      PlainFound(sep, s, p);
    }
    MatchAtFound(sep, s, p);
  }

  // ---------------------------------------------------------------------
  // The distinct tables.

  /** The distinct elements are exactly the elements not already seen. */
  lemma {:induction false} DistinctMembers(xs: seq<string>, seen: set<string>, x: string)
    ensures x in DistinctFrom(xs, seen) <==> x in xs && x !in seen
  {
    if xs != [] {
      if xs[0] in seen {
        DistinctMembers(xs[1..], seen, x);
      } else {
        DistinctMembers(xs[1..], seen + {xs[0]}, x);
      }
      assert x in xs <==> x == xs[0] || x in xs[1..];
    }
  }

  /** No element is listed twice, nor one already seen. */
  lemma {:induction false} DistinctUnique(xs: seq<string>, seen: set<string>)
    ensures forall k :: 0 <= k < |DistinctFrom(xs, seen)| ==> DistinctFrom(xs, seen)[k] !in seen
    ensures forall j, k :: 0 <= j < k < |DistinctFrom(xs, seen)| ==> DistinctFrom(xs, seen)[j] != DistinctFrom(xs, seen)[k]
  {
    if xs != [] {
      if xs[0] in seen {
        DistinctUnique(xs[1..], seen);
      } else {
        var tail := DistinctFrom(xs[1..], seen + {xs[0]});
        DistinctUnique(xs[1..], seen + {xs[0]});
        assert DistinctFrom(xs, seen) == [xs[0]] + tail;
      }
    }
  }

  /** Order of first appearance: appending an element lists it at the end, unless it was there before. */
  lemma {:induction false} DistinctAppend(xs: seq<string>, seen: set<string>, x: string)
    ensures DistinctFrom(xs + [x], seen) ==
      DistinctFrom(xs, seen) + (if x in xs || x in seen then [] else [x])
  {
    if xs == [] {
      assert [] + [x] == [x];
    } else {
      assert (xs + [x])[0] == xs[0] && (xs + [x])[1..] == xs[1..] + [x];
      assert x in xs <==> x == xs[0] || x in xs[1..];
      if xs[0] in seen {
        DistinctAppend(xs[1..], seen, x);
      } else {
        DistinctAppend(xs[1..], seen + {xs[0]}, x);
      }
    }
  }

  // ---------------------------------------------------------------------
  // What the matcher finds, and what the replacement leaves alone.

  /** There is a match at `p` exactly when the grammar admits one. */
  lemma {:induction false} MatchIff(sep: Separator, s: string, p: nat)
    requires p <= |s|
    ensures MatchAt(sep, s, p).Some? <==> exists m :: Valid(sep, s, p, m)
  {
    if m :| Valid(sep, s, p, m) {
      MatchComplete(sep, s, p, m);
    }
  }

  /** Text in which the grammar admits no match from `p` on is copied unchanged. */
  lemma {:induction false} ReplaceUnchanged(sep: Separator, s: string, p: nat)
    requires p <= |s|
    requires forall q, m :: p <= q <= |s| ==> !Valid(sep, s, q, m)
    ensures Replace(sep, s, p) == s[p..]
    decreases |s| - p
  {
    if p < |s| {
      if MatchAt(sep, s, p).Some? {
        assert false;
      }
      ReplaceUnchanged(sep, s, p + 1);
      assert s[p..] == [s[p]] + s[p + 1..];
    }
  }

  /** With a literal dot between table and column, a text without a dot is never rewritten. */
  lemma {:induction false} NoDotUnchanged(s: string)
    requires '.' !in s
    ensures CollapseSelects(Dot, s) == s
  {
    forall q, m | 0 <= q <= |s| ensures !Valid(Dot, s, q, m) {
      if Valid(Dot, s, q, m) {
        assert false;
      }
    }
    ReplaceUnchanged(Dot, s, 0);
  }

  /** Every item under the literal-dot reading is one under the as-written reading. */
  lemma {:induction false} ChainDotAnyChar(s: string, pos: nat, items: seq<Item>, f: nat)
    requires Chain(Dot, s, pos, items, f)
    ensures Chain(AnyChar, s, pos, items, f)
    decreases |items|
  {
    if items != [] {
      ChainDotAnyChar(s, items[0].end, items[1..], f);
    }
  }

  /** Every match under the literal-dot reading is one under the as-written reading. */
  lemma {:induction false} ValidDotAnyChar(s: string, p: nat, m: Match)
    requires Valid(Dot, s, p, m)
    ensures Valid(AnyChar, s, p, m)
  {
    ChainDotAnyChar(s, m.items[0].end, m.items[1..], m.fromAt);
  }

  /** Under the literal-dot reading the table never backs off: its dot is where the longest name run ends. */
  lemma {:induction false} DotReadings(s: string, i: nat)
    requires i <= |s|
    ensures |Items(Dot, s, i)| <= 1
    ensures forall k :: 0 <= k < |Items(Dot, s, i)| ==> Items(Dot, s, i)[k].dot == RunEnd(Name, s, i)
  {
    var e := RunEnd(Name, s, i);
    var f := Reading(Dot, s, i);
    forall d | i < d < e ensures f(d).None? {
      DotNoBackoff(s, i, d);
    }
    CollectOnlyTop(f, i, e);
  }

  /** A dot inside the name run cannot be the separator. */
  lemma {:induction false} DotNoBackoff(s: string, i: nat, d: nat)
    requires i < d && i <= |s| && d < RunEnd(Name, s, i)
    ensures Reading(Dot, s, i)(d).None?
  {
    if ItemWith(Dot, s, i, d).Some? {
      ItemWithValid(Dot, s, i, d);
      assert false;
    }
  }

  /** When no reading below `hi` succeeds, at most the one at `hi` is collected. */
  lemma {:induction false} CollectOnlyTop(f: nat -> Option<Item>, lo: nat, hi: nat)
    requires forall d :: lo < d < hi ==> f(d).None?
    ensures Collect(f, lo, hi) == if hi > lo && f(hi).Some? then [f(hi).value] else []
  {
    if hi > lo {
      CollectNone(f, lo, hi - 1);
    }
  }

  /** No reading succeeds between the bounds: nothing is collected. */
  lemma {:induction false} CollectNone(f: nat -> Option<Item>, lo: nat, hi: nat)
    requires forall d :: lo < d <= hi ==> f(d).None?
    ensures Collect(f, lo, hi) == []
    decreases hi - lo
  {
    if hi > lo {
      CollectNone(f, lo, hi - 1);
    }
  }
}
