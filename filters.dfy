/**
 * Filter sets of the event streamer (XEStreamer.cs:35-55): a case-insensitive
 * set of strings, where an empty configuration list means "absent", that is,
 * no constraint at all.
 */
module Filters {
  import opened Wrappers
  import opened Text

  /** A `HashSet<string>` with `OrdinalIgnoreCase`, or null; it holds folded keys. */
  type FilterSet = Option<set<string>>

  /** `CreateFilterSet`: an empty list gives an absent set. */
  function CreateFilterSet(elements: seq<string>): (r: FilterSet)
    ensures r.None? <==> |elements| == 0
    ensures r.Some? ==> forall key :: key in r.value ==> exists e :: e in elements && Fold(e) == key
    ensures r.Some? ==> forall e :: e in elements ==> Fold(e) in r.value
  {
    if |elements| == 0 then None else Some(set e | e in elements :: Fold(e))
  }

  /** `set?.Contains(v)`: null when the set is absent. */
  function Contains(fs: FilterSet, v: string): Option<bool>
  {
    if fs.None? then None else Some(Fold(v) in fs.value)
  }

  /** Membership in a set built from a list is case-insensitive equality with one of its elements. */
  lemma {:induction false} ContainsCreated(elements: seq<string>, v: string)
    requires |elements| > 0
    ensures Contains(CreateFilterSet(elements), v) == Some(exists e :: e in elements && EqIgnoreCase(e, v))
  {
    var fs := CreateFilterSet(elements);
    if Fold(v) in fs.value {
      var e :| e in elements && Fold(e) == Fold(v);
      assert EqIgnoreCase(e, v);
    }
  }

  /** The value `IsPrefixInSet` computes: null, or whether some member prefixes the statement. */
  function PrefixInSet(prefixSet: FilterSet, statement: Option<string>): Option<bool>
  {
    if prefixSet.None? || statement.None? then None
    else Some(exists p :: p in prefixSet.value && StartsWithIgnoreCase(statement.value, p))
  }

  /** `IsPrefixInSet` (XEStreamer.cs:41-55): a foreach over the set with an early return. */
  method IsPrefixInSet(prefixSet: FilterSet, statement: Option<string>) returns (r: Option<bool>)
    ensures r.None? <==> prefixSet.None? || statement.None?
    ensures r == Some(true) <==>
      (prefixSet.Some? && statement.Some? &&
       exists p :: p in prefixSet.value && StartsWithIgnoreCase(statement.value, p))
    ensures r == PrefixInSet(prefixSet, statement)
  {
    if prefixSet.None? || statement.None? {
      return None;
    }
    var remaining := prefixSet.value;
    while remaining != {}
      invariant remaining <= prefixSet.value
      invariant forall p :: p in prefixSet.value && p !in remaining ==> !StartsWithIgnoreCase(statement.value, p)
      decreases remaining
    {
      var prefix :| prefix in remaining;
      if StartsWithIgnoreCase(statement.value, prefix) {
        return Some(true);
      }
      remaining := remaining - {prefix};
    }
    return Some(false);
  }

  /** A prefix set built from a list matches exactly when some list element is a case-insensitive prefix. */
  lemma {:induction false} PrefixInCreated(elements: seq<string>, statement: string)
    requires |elements| > 0
    ensures PrefixInSet(CreateFilterSet(elements), Some(statement)) ==
      Some(exists e :: e in elements && StartsWithIgnoreCase(statement, e))
  {
    var fs := CreateFilterSet(elements);
    if exists p :: p in fs.value && StartsWithIgnoreCase(statement, p) {
      var p :| p in fs.value && StartsWithIgnoreCase(statement, p);
      var e :| e in elements && Fold(e) == p;
      StartsWithFolded(statement, e);
    }
    if exists e :: e in elements && StartsWithIgnoreCase(statement, e) {
      var e :| e in elements && StartsWithIgnoreCase(statement, e);
      StartsWithFolded(statement, e);
      assert Fold(e) in fs.value;
    }
  }

  /**
   * Whether a dimension excludes an event: a missing value never does; a
   * value is excluded when an ignore set is present and holds it, or when an
   * only set is present and does not.
   */
  predicate Excluded(only: FilterSet, ignore: FilterSet, v: Option<string>)
  {
    v.Some? &&
    ((ignore.Some? && Fold(v.value) in ignore.value) || (only.Some? && Fold(v.value) !in only.value))
  }

  /** The same exclusion rule for prefix sets: membership is "some member is a prefix". */
  predicate PrefixExcluded(only: FilterSet, ignore: FilterSet, v: Option<string>)
  {
    v.Some? &&
    ((ignore.Some? && exists p :: p in ignore.value && StartsWithIgnoreCase(v.value, p)) ||
     (only.Some? && !exists p :: p in only.value && StartsWithIgnoreCase(v.value, p)))
  }

  /** The source's `ignore?.Contains(v) == true || only?.Contains(v) == false` is exactly exclusion. */
  lemma {:induction false} ContainsTestIsExclusion(only: FilterSet, ignore: FilterSet, v: string)
    ensures (Contains(ignore, v) == Some(true) || Contains(only, v) == Some(false)) <==> Excluded(only, ignore, Some(v))
  {
  }

  /** Two absent sets never exclude anything. */
  lemma {:induction false} AbsentSetsNeverExclude(v: Option<string>)
    ensures !Excluded(None, None, v) && !PrefixExcluded(None, None, v)
  {
  }
}
