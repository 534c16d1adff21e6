/**
 * Connection and filter profiles (Profile.cs). A profile names a
 * connection, may inherit from another profile by name, and carries the
 * ignore lists of the event filter. `Combine` merges a base profile with a
 * more specific one.
 *
 * The event streamer also reads only-lists (XEStreamer.cs:24-27) and the
 * program an `IndividualStatements` switch (Program.cs:24, 68) that the
 * profile class shown does not declare. They are plain fields here, and
 * `Combine` leaves them at their initial values, as its object initialiser
 * does for every property it does not name; nothing is claimed about them.
 */
module Profiles {
  import opened Wrappers

  datatype Profile = Profile(
    name: Option<string>,
    isDefault: bool,
    inheritFrom: Option<string>,
    connectionString: Option<string>,
    ignoreDatabases: seq<string>,
    ignoreUsers: seq<string>,
    ignoreStatements: seq<string>,
    ignorePrefixes: seq<string>,
    onlyDatabases: seq<string>,
    onlyUsers: seq<string>,
    onlyStatements: seq<string>,
    onlyPrefixes: seq<string>,
    individualStatements: bool)

  /** `new Profile()`: no name, no parent, no connection, empty lists. */
  const Default: Profile := Profile(None, false, None, None, [], [], [], [], [], [], [], [], false)

  /** `Profile.Combine(p1, p2)`: identity from `p2`, parent from `p1`, ignore lists concatenated. */
  function Combine(p1: Profile, p2: Profile): Profile
  {
    Default.(
      name := p2.name,
      isDefault := p2.isDefault,
      inheritFrom := p1.inheritFrom,
      connectionString := p2.connectionString,
      ignoreDatabases := p1.ignoreDatabases + p2.ignoreDatabases,
      ignoreUsers := p1.ignoreUsers + p2.ignoreUsers,
      ignoreStatements := p1.ignoreStatements + p2.ignoreStatements,
      ignorePrefixes := p1.ignorePrefixes + p2.ignorePrefixes)
  }

  /** `xs` followed by `ys`: the length adds up and both orders are kept. */
  predicate Joined(r: seq<string>, xs: seq<string>, ys: seq<string>)
  {
    |r| == |xs| + |ys| && r[..|xs|] == xs && r[|xs|..] == ys
  }

  /** The profile's name, default flag and connection come from the second argument, its parent from the first. */
  lemma {:induction false} CombineIdentity(p1: Profile, p2: Profile)
    ensures Combine(p1, p2).name == p2.name && Combine(p1, p2).isDefault == p2.isDefault
    ensures Combine(p1, p2).connectionString == p2.connectionString
    ensures Combine(p1, p2).inheritFrom == p1.inheritFrom
  {
  }

  /** Each ignore list is the first profile's entries followed by the second's. */
  lemma {:induction false} CombineIgnoreLists(p1: Profile, p2: Profile)
    ensures Joined(Combine(p1, p2).ignoreDatabases, p1.ignoreDatabases, p2.ignoreDatabases)
    ensures Joined(Combine(p1, p2).ignoreUsers, p1.ignoreUsers, p2.ignoreUsers)
    ensures Joined(Combine(p1, p2).ignoreStatements, p1.ignoreStatements, p2.ignoreStatements)
    ensures Joined(Combine(p1, p2).ignorePrefixes, p1.ignorePrefixes, p2.ignorePrefixes)
  {
    var r := Combine(p1, p2);
    assert r.ignoreDatabases[..|p1.ignoreDatabases|] == p1.ignoreDatabases;
    assert r.ignoreUsers[..|p1.ignoreUsers|] == p1.ignoreUsers;
    assert r.ignoreStatements[..|p1.ignoreStatements|] == p1.ignoreStatements;
    assert r.ignorePrefixes[..|p1.ignorePrefixes|] == p1.ignorePrefixes;
  }

  /** A profile with empty ignore lists adds no entries: the other side's lists are kept as they were. */
  lemma {:induction false} CombineWithEmptyLists(p: Profile, e: Profile)
    requires e.ignoreDatabases == [] && e.ignoreUsers == [] && e.ignoreStatements == [] && e.ignorePrefixes == []
    ensures Combine(e, p).ignoreDatabases == p.ignoreDatabases && Combine(p, e).ignoreDatabases == p.ignoreDatabases
    ensures Combine(e, p).ignoreUsers == p.ignoreUsers && Combine(p, e).ignoreUsers == p.ignoreUsers
    ensures Combine(e, p).ignoreStatements == p.ignoreStatements && Combine(p, e).ignoreStatements == p.ignoreStatements
    ensures Combine(e, p).ignorePrefixes == p.ignorePrefixes && Combine(p, e).ignorePrefixes == p.ignorePrefixes
  {
    assert p.ignoreDatabases + [] == p.ignoreDatabases && [] + p.ignoreDatabases == p.ignoreDatabases;
    assert p.ignoreUsers + [] == p.ignoreUsers && [] + p.ignoreUsers == p.ignoreUsers;
    assert p.ignoreStatements + [] == p.ignoreStatements && [] + p.ignoreStatements == p.ignoreStatements;
    assert p.ignorePrefixes + [] == p.ignorePrefixes && [] + p.ignorePrefixes == p.ignorePrefixes;
  }

  /** Merging is associative: a chain of profiles can be merged in either grouping. */
  lemma {:induction false} CombineAssociative(a: Profile, b: Profile, c: Profile)
    ensures Combine(Combine(a, b), c) == Combine(a, Combine(b, c))
  {
    assert (a.ignoreDatabases + b.ignoreDatabases) + c.ignoreDatabases == a.ignoreDatabases + (b.ignoreDatabases + c.ignoreDatabases);
    assert (a.ignoreUsers + b.ignoreUsers) + c.ignoreUsers == a.ignoreUsers + (b.ignoreUsers + c.ignoreUsers);
    assert (a.ignoreStatements + b.ignoreStatements) + c.ignoreStatements == a.ignoreStatements + (b.ignoreStatements + c.ignoreStatements);
    assert (a.ignorePrefixes + b.ignorePrefixes) + c.ignorePrefixes == a.ignorePrefixes + (b.ignorePrefixes + c.ignorePrefixes);
  }
}
