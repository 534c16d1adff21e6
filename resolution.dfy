/**
 * Choosing the effective profile (Program.cs:44-70). One pass over the
 * configured profiles remembers the requested profile, the one flagged as
 * default and the one named "default", and indexes every named profile by
 * its name, ignoring case. The chosen profile is then merged with its
 * ancestors, nearest first, each ancestor being removed from the index as it
 * is used, and finally with the command-line options.
 */
module Resolution {
  import opened Wrappers
  import opened Text
  import opened Profiles

  /** What each of the three remembered profiles is recognised by. */
  datatype Criterion = Requested(n: string) | Flagged | NamedDefault

  predicate Meets(p: Profile, c: Criterion)
  {
    match c
    case Requested(n) => p.name == Some(n)
    case Flagged => p.isDefault
    case NamedDefault => p.name == Some("default")
  }

  /** The last profile meeting the criterion: the variable the pass keeps overwriting. */
  function Last(ps: seq<Profile>, c: Criterion): Option<Profile>
  {
    if ps == [] then None
    else if Meets(ps[|ps| - 1], c) then Some(ps[|ps| - 1])
    else Last(ps[..|ps| - 1], c)
  }

  /** `ps[i]` meets the criterion and no later profile does. */
  predicate IsLastMeeting(ps: seq<Profile>, i: int, c: Criterion)
  {
    0 <= i < |ps| && Meets(ps[i], c) && forall j :: i < j < |ps| ==> !Meets(ps[j], c)
  }

  lemma {:induction false} LastFound(ps: seq<Profile>, c: Criterion)
    ensures Last(ps, c).Some? <==> exists i :: 0 <= i < |ps| && Meets(ps[i], c)
  {
    if ps != [] {
      var init := ps[..|ps| - 1];
      LastFound(init, c);
      assert forall i :: 0 <= i < |init| ==> init[i] == ps[i];
      if exists i :: 0 <= i < |ps| && Meets(ps[i], c) {
        var i :| 0 <= i < |ps| && Meets(ps[i], c);
        if i < |init| {
          assert Meets(init[i], c);
        }
      }
    }
  }

  lemma {:induction false} LastIsLatest(ps: seq<Profile>, c: Criterion, i: int)
    requires IsLastMeeting(ps, i, c)
    ensures Last(ps, c) == Some(ps[i])
  {
    var init := ps[..|ps| - 1];
    if i < |init| {
      assert IsLastMeeting(init, i, c) by {
        assert forall j :: i < j < |init| ==> init[j] == ps[j];
      }
      LastIsLatest(init, c, i);
    }
  }

  /** A profile is remembered iff one meets the criterion, and then it is the last such profile. */
  lemma {:induction false} LastSpec(ps: seq<Profile>, c: Criterion)
    ensures Last(ps, c).Some? <==> exists i :: 0 <= i < |ps| && Meets(ps[i], c)
    ensures forall i :: IsLastMeeting(ps, i, c) ==> Last(ps, c) == Some(ps[i])
  {
    LastFound(ps, c);
    forall i | IsLastMeeting(ps, i, c)
      ensures Last(ps, c) == Some(ps[i])
    {
      LastIsLatest(ps, c, i);
    }
  }

  /** `selected ?? cfgDefault ?? nameDefault`; a requested name is compared exactly. */
  function Selected(ps: seq<Profile>, requested: Option<string>): Option<Profile>
  {
    var selected := if requested.Some? then Last(ps, Requested(requested.value)) else None;
    if selected.Some? then selected
    else if Last(ps, Flagged).Some? then Last(ps, Flagged)
    else Last(ps, NamedDefault)
  }

  /** The requested profile wins over the flagged default, which wins over the one named "default". */
  lemma {:induction false} SelectionPrecedence(ps: seq<Profile>, requested: Option<string>, i: int)
    ensures requested.Some? && IsLastMeeting(ps, i, Requested(requested.value)) ==> Selected(ps, requested) == Some(ps[i])
    ensures ((requested.None? || (forall j :: 0 <= j < |ps| ==> ps[j].name != requested)) &&
             IsLastMeeting(ps, i, Flagged)) ==> Selected(ps, requested) == Some(ps[i])
    ensures ((requested.None? || (forall j :: 0 <= j < |ps| ==> ps[j].name != requested)) &&
             (forall j :: 0 <= j < |ps| ==> !ps[j].isDefault) &&
             IsLastMeeting(ps, i, NamedDefault)) ==> Selected(ps, requested) == Some(ps[i])
  {
    if requested.Some? {
      LastSpec(ps, Requested(requested.value));
    }
    LastSpec(ps, Flagged);
    LastSpec(ps, NamedDefault);
  }

  /** Nothing is selected exactly when no profile is requested, flagged or named "default". */
  lemma {:induction false} NothingSelected(ps: seq<Profile>, requested: Option<string>)
    ensures Selected(ps, requested).None? <==>
      forall j :: 0 <= j < |ps| ==>
        (requested.None? || ps[j].name != requested) && !ps[j].isDefault && ps[j].name != Some("default")
  {
    if requested.Some? {
      LastSpec(ps, Requested(requested.value));
    }
    LastSpec(ps, Flagged);
    LastSpec(ps, NamedDefault);
  }

  /** `profileMap`: every named profile under its name, ignoring case, the later overwriting the earlier. */
  function ProfileMap(ps: seq<Profile>): map<string, Profile>
  {
    if ps == [] then map[]
    else
      var m := ProfileMap(ps[..|ps| - 1]);
      var p := ps[|ps| - 1];
      if p.name.Some? then Put(m, p.name.value, p) else m
  }

  /** `ps[i]` is the last profile whose name equals `key` ignoring case. */
  predicate IsLastNamed(ps: seq<Profile>, i: int, key: string)
  {
    0 <= i < |ps| && ps[i].name.Some? && EqIgnoreCase(ps[i].name.value, key) &&
    forall j :: i < j < |ps| ==> ps[j].name.None? || !EqIgnoreCase(ps[j].name.value, key)
  }

  lemma {:induction false} ProfileMapDomain(ps: seq<Profile>, key: string)
    ensures Get(ProfileMap(ps), key).Some? <==>
      exists i :: 0 <= i < |ps| && ps[i].name.Some? && EqIgnoreCase(ps[i].name.value, key)
  {
    if ps != [] {
      var init, p := ps[..|ps| - 1], ps[|ps| - 1];
      ProfileMapDomain(init, key);
      if p.name.Some? {
        GetPut(ProfileMap(init), p.name.value, p, key);
      }
      assert forall i :: 0 <= i < |init| ==> init[i] == ps[i];
    }
  }

  lemma {:induction false} ProfileMapLast(ps: seq<Profile>, key: string, i: int)
    requires IsLastNamed(ps, i, key)
    ensures Get(ProfileMap(ps), key) == Some(ps[i])
  {
    var init, p := ps[..|ps| - 1], ps[|ps| - 1];
    if p.name.Some? {
      GetPut(ProfileMap(init), p.name.value, p, key);
    }
    if i < |init| {
      assert IsLastNamed(init, i, key) by {
        assert forall j :: i < j < |init| ==> init[j] == ps[j];
      }
      ProfileMapLast(init, key, i);
    }
  }

  /** A name is a key iff some profile carries it, ignoring case; the last such profile is stored. */
  lemma {:induction false} ProfileMapLookup(ps: seq<Profile>, key: string)
    ensures Get(ProfileMap(ps), key).Some? <==>
      exists i :: 0 <= i < |ps| && ps[i].name.Some? && EqIgnoreCase(ps[i].name.value, key)
    ensures forall i :: IsLastNamed(ps, i, key) ==> Get(ProfileMap(ps), key) == Some(ps[i])
  {
    ProfileMapDomain(ps, key);
    forall i | IsLastNamed(ps, i, key)
      ensures Get(ProfileMap(ps), key) == Some(ps[i])
    {
      ProfileMapLast(ps, key, i);
    }
  }

  /** One more profile of the pass: the remembered profiles and the map after it. */
  lemma {:induction false} PassStep(ps: seq<Profile>, k: nat)
    requires k < |ps|
    ensures forall c :: Last(ps[..k + 1], c) == if Meets(ps[k], c) then Some(ps[k]) else Last(ps[..k], c)
    ensures ProfileMap(ps[..k + 1]) ==
      if ps[k].name.Some? then Put(ProfileMap(ps[..k]), ps[k].name.value, ps[k]) else ProfileMap(ps[..k])
  {
    assert ps[..k + 1][..k] == ps[..k];
  }

  /** The loop condition: a non-empty parent name that is still a key of the map. */
  predicate HasParent(m: map<string, Profile>, p: Profile)
  {
    p.inheritFrom.Some? && p.inheritFrom.value != "" && Fold(p.inheritFrom.value) in m
  }

  /** The inheritance loop: the remaining map and the merged profile when it stops. */
  function InheritState(m: map<string, Profile>, p: Profile): (map<string, Profile>, Profile)
    decreases m.Keys
  {
    if HasParent(m, p) then
      var key := Fold(p.inheritFrom.value);
      InheritState(m - {key}, Combine(m[key], p))
    else (m, p)
  }

  function Inherit(m: map<string, Profile>, p: Profile): Profile
  {
    InheritState(m, p).1
  }

  /**
   * The loop stops exactly when there is no parent left to merge; what
   * remains of the map is part of the original one; and the merged profile
   * keeps the identity of the profile it started from, with that profile's
   * ignore entries last.
   */
  lemma {:induction false} InheritProperties(m: map<string, Profile>, p: Profile)
    ensures !HasParent(InheritState(m, p).0, InheritState(m, p).1)
    ensures InheritState(m, p).0.Keys <= m.Keys
    ensures forall k :: k in InheritState(m, p).0 ==> InheritState(m, p).0[k] == m[k]
    ensures Inherit(m, p).name == p.name && Inherit(m, p).isDefault == p.isDefault
    ensures Inherit(m, p).connectionString == p.connectionString
    ensures EndsWith(Inherit(m, p).ignoreDatabases, p.ignoreDatabases)
    ensures EndsWith(Inherit(m, p).ignoreUsers, p.ignoreUsers)
    ensures EndsWith(Inherit(m, p).ignoreStatements, p.ignoreStatements)
    ensures EndsWith(Inherit(m, p).ignorePrefixes, p.ignorePrefixes)
    decreases m.Keys
  {
    if HasParent(m, p) {
      var key := Fold(p.inheritFrom.value);
      var q := Combine(m[key], p);
      InheritProperties(m - {key}, q);
      EndsWithAppend(Inherit(m, p).ignoreDatabases, m[key].ignoreDatabases, p.ignoreDatabases);
      EndsWithAppend(Inherit(m, p).ignoreUsers, m[key].ignoreUsers, p.ignoreUsers);
      EndsWithAppend(Inherit(m, p).ignoreStatements, m[key].ignoreStatements, p.ignoreStatements);
      EndsWithAppend(Inherit(m, p).ignorePrefixes, m[key].ignorePrefixes, p.ignorePrefixes);
    } else {
      EndsWithSelf(p.ignoreDatabases);
      EndsWithSelf(p.ignoreUsers);
      EndsWithSelf(p.ignoreStatements);
      EndsWithSelf(p.ignorePrefixes);
    }
  }

  /** `ys` is a suffix of `r`. */
  predicate EndsWith(r: seq<string>, ys: seq<string>)
  {
    |ys| <= |r| && r[|r| - |ys|..] == ys
  }

  lemma {:induction false} EndsWithSelf(ys: seq<string>)
    ensures EndsWith(ys, ys)
  {
    assert ys[0..] == ys;
  }

  lemma {:induction false} EndsWithAppend(r: seq<string>, xs: seq<string>, ys: seq<string>)
    requires EndsWith(r, xs + ys)
    ensures EndsWith(r, ys)
  {
    assert r[|r| - |ys|..] == r[|r| - |xs + ys|..][|xs|..];
    assert (xs + ys)[|xs|..] == ys;
  }

  /** A profile with a parent in the map is merged under it: one loop step. */
  lemma {:induction false} InheritStep(m: map<string, Profile>, p: Profile)
    requires HasParent(m, p)
    ensures Inherit(m, p) == Inherit(m - {Fold(p.inheritFrom.value)}, Combine(m[Fold(p.inheritFrom.value)], p))
    ensures |m - {Fold(p.inheritFrom.value)}| == |m| - 1
  {
    var key := Fold(p.inheritFrom.value);
    assert (m - {key}).Keys == m.Keys - {key};
  }

  /** The outcome: the merged profile, or the failure when no profile is selected. */
  datatype Outcome = Resolved(profile: Profile) | NoProfile

  /** The options as merged: the hidden `IndividualStatements` copy of lines 66-69 applied. */
  function Options(options: Profile, individualStatements: bool): Profile
  {
    if individualStatements then options.(individualStatements := true) else options
  }

  /** Program.cs:44-70: select, merge the ancestors, then merge the options last. */
  function Resolve(ps: seq<Profile>, requested: Option<string>, options: Profile, individualStatements: bool): Outcome
  {
    match Selected(ps, requested)
    case None => NoProfile
    case Some(p) => Resolved(Combine(Inherit(ProfileMap(ps), p), Options(options, individualStatements)))
  }

  /** An ignore list after resolution: the chosen profile's entries, then the options' entries last. */
  predicate MergedList(r: seq<string>, chosen: seq<string>, opts: seq<string>)
  {
    EndsWith(r, opts) && EndsWith(r[..|r| - |opts|], chosen)
  }

  /** Appending the options' entries to a list that ends with the chosen profile's entries. */
  lemma {:induction false} MergedListAppend(b: seq<string>, chosen: seq<string>, opts: seq<string>)
    requires EndsWith(b, chosen)
    ensures MergedList(b + opts, chosen, opts)
  {
    var r := b + opts;
    assert r[|r| - |opts|..] == opts;
    assert r[..|r| - |opts|] == b;
  }

  /**
   * The resolution fails exactly when no profile is selected; otherwise the
   * options decide the identity, the parent is what inheritance left, and
   * each ignore list holds the chosen profile's entries with the options'
   * entries last.
   */
  lemma {:induction false} ResolveProperties(ps: seq<Profile>, requested: Option<string>, options: Profile, individualStatements: bool)
    ensures Resolve(ps, requested, options, individualStatements).NoProfile? <==> Selected(ps, requested).None?
    ensures Resolve(ps, requested, options, individualStatements).Resolved? ==>
      var r := Resolve(ps, requested, options, individualStatements).profile;
      r.name == options.name && r.isDefault == options.isDefault && r.connectionString == options.connectionString &&
      r.inheritFrom == Inherit(ProfileMap(ps), Selected(ps, requested).value).inheritFrom
    ensures Resolve(ps, requested, options, individualStatements).Resolved? ==>
      var r := Resolve(ps, requested, options, individualStatements).profile;
      var chosen := Selected(ps, requested).value;
      MergedList(r.ignoreDatabases, chosen.ignoreDatabases, options.ignoreDatabases) &&
      MergedList(r.ignoreUsers, chosen.ignoreUsers, options.ignoreUsers) &&
      MergedList(r.ignoreStatements, chosen.ignoreStatements, options.ignoreStatements) &&
      MergedList(r.ignorePrefixes, chosen.ignorePrefixes, options.ignorePrefixes)
  {
    if Selected(ps, requested).Some? {
      var p := Selected(ps, requested).value;
      var b := Inherit(ProfileMap(ps), p);
      var o := Options(options, individualStatements);
      InheritProperties(ProfileMap(ps), p);
      MergedListAppend(b.ignoreDatabases, p.ignoreDatabases, o.ignoreDatabases);
      MergedListAppend(b.ignoreUsers, p.ignoreUsers, o.ignoreUsers);
      MergedListAppend(b.ignoreStatements, p.ignoreStatements, o.ignoreStatements);
      MergedListAppend(b.ignorePrefixes, p.ignorePrefixes, o.ignorePrefixes);
    }
  }

  /** `Program.Run` lines 44-70, with the profile stream given as a sequence. */
  method ResolveProfile(profiles: seq<Profile>, requested: Option<string>, options: Profile, individualStatements: bool)
    returns (r: Outcome)
    ensures r == Resolve(profiles, requested, options, individualStatements)
  {
    var nameDefault: Option<Profile> := None;
    var cfgDefault: Option<Profile> := None;
    var selected: Option<Profile> := None;
    var profileMap: map<string, Profile> := map[];
    for k := 0 to |profiles|
      invariant cfgDefault == Last(profiles[..k], Flagged)
      invariant selected == if requested.Some? then Last(profiles[..k], Requested(requested.value)) else None
      invariant nameDefault == Last(profiles[..k], NamedDefault)
      invariant profileMap == ProfileMap(profiles[..k])
    {
      var p := profiles[k];
      PassStep(profiles, k);
      if p.isDefault {
        cfgDefault := Some(p);
      }
      if requested.Some? && p.name == requested {
        selected := Some(p);
      }
      if p.name == Some("default") {
        nameDefault := Some(p);
      }
      if p.name.Some? {
        profileMap := Put(profileMap, p.name.value, p);
      }
    }
    assert profiles[..|profiles|] == profiles;
    var chosen := if selected.Some? then selected else if cfgDefault.Some? then cfgDefault else nameDefault;
    if chosen.None? {
      return NoProfile;
    }
    var profile := chosen.value;
    while HasParent(profileMap, profile)
      invariant Inherit(profileMap, profile) == Inherit(ProfileMap(profiles), chosen.value)
      decreases |profileMap|
    {
      var key := Fold(profile.inheritFrom.value);
      var baseProfile := profileMap[key];
      InheritStep(profileMap, profile);
      profileMap := profileMap - {key};
      profile := Combine(baseProfile, profile);
    }
    var opts := options;
    if individualStatements {
      opts := opts.(individualStatements := true);
    }
    profile := Combine(profile, opts);
    return Resolved(profile);
  }
}
