/**
 * The event formatter of the streamer (XEStreamer.cs:20-33, 153-199): the
 * eight filter sets built from a profile, and `FormatText`, which either
 * suppresses an event or renders it as one line of text.
 *
 * An event is two dictionaries of objects, its actions and its fields. A
 * value is either a string or some other object the formatter ignores.
 * `e.ToString()` is the `generic` parameter, and the colour wrappers around
 * the pieces of the line are left out (they only add terminal escapes).
 */
module Formatter {
  import opened Wrappers
  import opened Text
  import opened Filters
  import opened Profiles
  import Reconstruct
  import Collapse

  /** An event payload value: a string, or an object of another type. */
  datatype Value = Str(text: string) | Other

  /** `IXEvent`: only its action and field dictionaries are read here. */
  datatype Event = Event(actions: map<string, Value>, fields: map<string, Value>)

  /** The eight filter sets of a streamer; none changes after construction. */
  datatype Streamer = Streamer(
    onlyDatabases: FilterSet,
    onlyUsers: FilterSet,
    onlyStatements: FilterSet,
    onlyPrefixes: FilterSet,
    ignoredDatabases: FilterSet,
    ignoredUsers: FilterSet,
    ignoredStatements: FilterSet,
    ignoredPrefixes: FilterSet)

  /** The `XEStreamer(profile)` constructor: one filter set per profile list. */
  function NewStreamer(p: Profile): Streamer
  {
    Streamer(
      CreateFilterSet(p.onlyDatabases), CreateFilterSet(p.onlyUsers),
      CreateFilterSet(p.onlyStatements), CreateFilterSet(p.onlyPrefixes),
      CreateFilterSet(p.ignoreDatabases), CreateFilterSet(p.ignoreUsers),
      CreateFilterSet(p.ignoreStatements), CreateFilterSet(p.ignorePrefixes))
  }

  /** `m.TryGetValue(key, out var o) && o is string s`: the string under `key`, if any. */
  function StringAt(m: map<string, Value>, key: string): Option<string>
  {
    if key in m && m[key].Str? then Some(m[key].text) else None
  }

  /**
   * The statement text: the `statement` field when present, otherwise the
   * `batch_text` field. A present `statement` that is not a string does not
   * fall back to `batch_text`, since the lookup stops at the first key found.
   */
  function StatementOf(fields: map<string, Value>): Option<string>
  {
    if "statement" in fields then StringAt(fields, "statement") else StringAt(fields, "batch_text")
  }

  /** `ignored?.Contains(v) == true || only?.Contains(v) == false`. */
  predicate Rejects(only: FilterSet, ignore: FilterSet, v: string)
  {
    Contains(ignore, v) == Some(true) || Contains(only, v) == Some(false)
  }

  /** `IsPrefixInSet(ignored, v) == true || IsPrefixInSet(only, v) == false`. */
  predicate PrefixRejects(only: FilterSet, ignore: FilterSet, v: string)
  {
    PrefixInSet(ignore, Some(v)) == Some(true) || PrefixInSet(only, Some(v)) == Some(false)
  }

  /**
   * The rendered statement: a parametrised call whose parameters can be
   * filled in is shown filled in, anything else as it was; either way with
   * the long column lists collapsed.
   */
  function Formatted(stmt: string): string
  {
    if StartsWithIgnoreCase(stmt, Reconstruct.ParamStmtPrefix) && Reconstruct.Fill(stmt).Some? then
      Collapse.CollapseSelects(Collapse.Dot, Reconstruct.Fill(stmt).value)
    else
      Collapse.CollapseSelects(Collapse.Dot, stmt)
  }

  /** `Output.Cyan(dbName)` without the colour: a missing name renders as nothing. */
  function Label(db: Option<string>): string
  {
    if db.Some? then db.value else ""
  }

  /** `FormatText`: `None` is the suppressed event (the source's `null`). */
  function FormatText(st: Streamer, e: Event, generic: string): Option<string>
  {
    var db := StringAt(e.actions, "database_name");
    var user := StringAt(e.actions, "nt_username");
    if db.Some? && Rejects(st.onlyDatabases, st.ignoredDatabases, db.value) then None
    else if user.Some? && Rejects(st.onlyUsers, st.ignoredUsers, user.value) then None
    else
      match StatementOf(e.fields)
      case None => Some(generic)
      case Some(stmt) =>
        if Rejects(st.onlyStatements, st.ignoredStatements, stmt) ||
           PrefixRejects(st.onlyPrefixes, st.ignoredPrefixes, stmt)
        then None
        else Some(Label(db) + ": " + Formatted(stmt))
  }

  /** The statement comes from `statement` when that key exists, from `batch_text` only when it does not. */
  lemma {:induction false} StatementSource(fields: map<string, Value>, s: string)
    ensures StatementOf(fields) == Some(s) <==>
      ("statement" in fields && fields["statement"] == Str(s)) ||
      ("statement" !in fields && "batch_text" in fields && fields["batch_text"] == Str(s))
  {
  }

  /** The prefix test of the formatter is exactly prefix exclusion. */
  lemma {:induction false} PrefixTestIsExclusion(only: FilterSet, ignore: FilterSet, v: string)
    ensures PrefixRejects(only, ignore, v) <==> PrefixExcluded(only, ignore, Some(v))
  {
  }

  /**
   * An event is suppressed exactly when its database, its user or its
   * statement (by value or by prefix) is excluded; a missing action or
   * statement excludes nothing.
   */
  lemma {:induction false} FormatSuppression(st: Streamer, e: Event, generic: string)
    ensures FormatText(st, e, generic).None? <==>
      Excluded(st.onlyDatabases, st.ignoredDatabases, StringAt(e.actions, "database_name")) ||
      Excluded(st.onlyUsers, st.ignoredUsers, StringAt(e.actions, "nt_username")) ||
      Excluded(st.onlyStatements, st.ignoredStatements, StatementOf(e.fields)) ||
      PrefixExcluded(st.onlyPrefixes, st.ignoredPrefixes, StatementOf(e.fields))
  {
    var db := StringAt(e.actions, "database_name");
    var user := StringAt(e.actions, "nt_username");
    if db.Some? {
      ContainsTestIsExclusion(st.onlyDatabases, st.ignoredDatabases, db.value);
    }
    if user.Some? {
      ContainsTestIsExclusion(st.onlyUsers, st.ignoredUsers, user.value);
    }
    var stmt := StatementOf(e.fields);
    if stmt.Some? {
      ContainsTestIsExclusion(st.onlyStatements, st.ignoredStatements, stmt.value);
      PrefixTestIsExclusion(st.onlyPrefixes, st.ignoredPrefixes, stmt.value);
    }
  }

  /** An event without a statement is shown by its generic text unless its database or user is excluded. */
  lemma {:induction false} FormatGeneric(st: Streamer, e: Event, generic: string)
    requires StatementOf(e.fields).None?
    ensures FormatText(st, e, generic) ==
      if Excluded(st.onlyDatabases, st.ignoredDatabases, StringAt(e.actions, "database_name")) ||
         Excluded(st.onlyUsers, st.ignoredUsers, StringAt(e.actions, "nt_username"))
      then None else Some(generic)
  {
    FormatSuppression(st, e, generic);
  }

  /** A shown statement event is the database name followed by the rendered statement. */
  lemma {:induction false} FormatShown(st: Streamer, e: Event, generic: string, stmt: string)
    requires FormatText(st, e, generic).Some?
    requires StatementOf(e.fields) == Some(stmt)
    ensures FormatText(st, e, generic) == Some(Label(StringAt(e.actions, "database_name")) + ": " + Formatted(stmt))
  {
  }

  /** A parametrised call that fills in is shown filled in and collapsed, after the database name. */
  lemma {:induction false} FormatFilled(st: Streamer, e: Event, generic: string, stmt: string, t: string)
    requires FormatText(st, e, generic).Some?
    requires StatementOf(e.fields) == Some(stmt)
    requires StartsWithIgnoreCase(stmt, Reconstruct.ParamStmtPrefix) && Reconstruct.Fill(stmt) == Some(t)
    ensures FormatText(st, e, generic) ==
      Some(Label(StringAt(e.actions, "database_name")) + ": " + Collapse.CollapseSelects(Collapse.Dot, t))
  {
    FormatShown(st, e, generic, stmt);
  }

  /** Any other statement, including a parametrised call that does not fill in, is shown collapsed as it came. */
  lemma {:induction false} FormatUnfilled(st: Streamer, e: Event, generic: string, stmt: string)
    requires FormatText(st, e, generic).Some?
    requires StatementOf(e.fields) == Some(stmt)
    requires !(StartsWithIgnoreCase(stmt, Reconstruct.ParamStmtPrefix) && Reconstruct.Fill(stmt).Some?)
    ensures FormatText(st, e, generic) ==
      Some(Label(StringAt(e.actions, "database_name")) + ": " + Collapse.CollapseSelects(Collapse.Dot, stmt))
  {
    FormatShown(st, e, generic, stmt);
  }

  /** A plain statement without any qualified name is shown verbatim after the database name. */
  lemma {:induction false} FormatVerbatim(st: Streamer, e: Event, generic: string, stmt: string)
    requires FormatText(st, e, generic).Some?
    requires StatementOf(e.fields) == Some(stmt)
    requires !StartsWithIgnoreCase(stmt, Reconstruct.ParamStmtPrefix) && '.' !in stmt
    ensures FormatText(st, e, generic) == Some(Label(StringAt(e.actions, "database_name")) + ": " + stmt)
  {
    FormatShown(st, e, generic, stmt);
    Collapse.NoDotUnchanged(stmt);
  }

  /** Without a database name, the database filters have no say: any sets give the same result. */
  lemma {:induction false} MissingDatabaseIgnoresFilters(st: Streamer, e: Event, generic: string, only: FilterSet, ignore: FilterSet)
    requires StringAt(e.actions, "database_name").None?
    ensures FormatText(st.(onlyDatabases := only, ignoredDatabases := ignore), e, generic) == FormatText(st, e, generic)
  {
  }

  /** Without a user name, the user filters have no say: any sets give the same result. */
  lemma {:induction false} MissingUserIgnoresFilters(st: Streamer, e: Event, generic: string, only: FilterSet, ignore: FilterSet)
    requires StringAt(e.actions, "nt_username").None?
    ensures FormatText(st.(onlyUsers := only, ignoredUsers := ignore), e, generic) == FormatText(st, e, generic)
  {
  }

  /** A profile with empty lists filters nothing: every event is shown. */
  lemma {:induction false} DefaultShowsEverything(e: Event, generic: string)
    ensures FormatText(NewStreamer(Default), e, generic).Some?
  {
    var st := NewStreamer(Default);
    assert st == Streamer(None, None, None, None, None, None, None, None);
    FormatSuppression(st, e, generic);
    AbsentSetsNeverExclude(StringAt(e.actions, "database_name"));
    AbsentSetsNeverExclude(StringAt(e.actions, "nt_username"));
    AbsentSetsNeverExclude(StatementOf(e.fields));
  }

  /**
   * Exclusion by two configured lists: a value is excluded when it equals an
   * ignored entry, or when the only-list is non-empty and holds no entry equal
   * to it, ignoring case either way.
   */
  lemma {:induction false} ListExclusion(only: seq<string>, ignore: seq<string>, v: string)
    ensures Excluded(CreateFilterSet(only), CreateFilterSet(ignore), Some(v)) <==>
      (exists e :: e in ignore && EqIgnoreCase(e, v)) ||
      (|only| > 0 && !exists e :: e in only && EqIgnoreCase(e, v))
  {
    ContainsTestIsExclusion(CreateFilterSet(only), CreateFilterSet(ignore), v);
    if |only| > 0 {
      ContainsCreated(only, v);
    }
    if |ignore| > 0 {
      ContainsCreated(ignore, v);
    }
  }

  /** The same for prefix lists: an entry counts when it is a case-insensitive prefix of the value. */
  lemma {:induction false} ListPrefixExclusion(only: seq<string>, ignore: seq<string>, v: string)
    ensures PrefixExcluded(CreateFilterSet(only), CreateFilterSet(ignore), Some(v)) <==>
      (exists e :: e in ignore && StartsWithIgnoreCase(v, e)) ||
      (|only| > 0 && !exists e :: e in only && StartsWithIgnoreCase(v, e))
  {
    if |only| > 0 {
      PrefixInCreated(only, v);
    }
    if |ignore| > 0 {
      PrefixInCreated(ignore, v);
    }
  }

  /** A streamer made from a profile excludes by that profile's four pairs of lists. */
  lemma {:induction false} StreamerExclusion(p: Profile, v: string)
    ensures Excluded(NewStreamer(p).onlyDatabases, NewStreamer(p).ignoredDatabases, Some(v)) <==>
      (exists e :: e in p.ignoreDatabases && EqIgnoreCase(e, v)) ||
      (|p.onlyDatabases| > 0 && !exists e :: e in p.onlyDatabases && EqIgnoreCase(e, v))
    ensures Excluded(NewStreamer(p).onlyUsers, NewStreamer(p).ignoredUsers, Some(v)) <==>
      (exists e :: e in p.ignoreUsers && EqIgnoreCase(e, v)) ||
      (|p.onlyUsers| > 0 && !exists e :: e in p.onlyUsers && EqIgnoreCase(e, v))
    ensures Excluded(NewStreamer(p).onlyStatements, NewStreamer(p).ignoredStatements, Some(v)) <==>
      (exists e :: e in p.ignoreStatements && EqIgnoreCase(e, v)) ||
      (|p.onlyStatements| > 0 && !exists e :: e in p.onlyStatements && EqIgnoreCase(e, v))
    ensures PrefixExcluded(NewStreamer(p).onlyPrefixes, NewStreamer(p).ignoredPrefixes, Some(v)) <==>
      (exists e :: e in p.ignorePrefixes && StartsWithIgnoreCase(v, e)) ||
      (|p.onlyPrefixes| > 0 && !exists e :: e in p.onlyPrefixes && StartsWithIgnoreCase(v, e))
  {
    ListExclusion(p.onlyDatabases, p.ignoreDatabases, v);
    ListExclusion(p.onlyUsers, p.ignoreUsers, v);
    ListExclusion(p.onlyStatements, p.ignoreStatements, v);
    ListPrefixExclusion(p.onlyPrefixes, p.ignorePrefixes, v);
  }
}
