/**
 * The role-name resolver: a read-through cache from role-definition id to
 * display name, filled by a bulk listing and then lazily, one id at a time,
 * from a single-role fetch.
 *
 * The directory is not modelled: the bulk listing is an input and the
 * single-role fetch is a function `RoleLookup` from id to its outcome.
 */
module RoleNames {
  import opened Records

  /** What the single-role fetch gives: a failure (exception or status >= 400),
      or the fetched definition's displayName field (possibly absent). */
  datatype FetchOutcome = FetchFailed | Fetched(displayName: Field)

  type RoleLookup = string -> FetchOutcome

  /** The name the resolver gives for `id` against the cache contents `names`. */
  function Resolve(names: map<string, string>, lookup: RoleLookup, id: Field): (name: string)
    ensures !Truthy(id) ==> name == ""
    // a failed fetch degrades to the raw id, never to an empty name
    ensures Truthy(id) && id.value !in names && lookup(id.value).FetchFailed? ==> name == id.value
    // a set id resolves to "" only when the cache or the directory names it so
    ensures name == "" && Truthy(id) ==>
              (id.value in names && names[id.value] == "") || lookup(id.value) == Fetched(Some(""))
  {
    if !Truthy(id) then ""
    else if id.value in names then names[id.value]
    else match lookup(id.value)
      case FetchFailed => id.value
      case Fetched(displayName) => displayName.GetOr(id.value)
  }

  /** The cache contents after one resolution of `id`: a miss whose fetch succeeds
      records the resolved name, nothing else changes. */
  function AfterResolve(names: map<string, string>, lookup: RoleLookup, id: Field): map<string, string> {
    if Truthy(id) && id.value !in names && lookup(id.value).Fetched?
    then names[id.value := Resolve(names, lookup, id)]
    else names
  }

  /** `names` extends `base` only with entries the single-role fetch gives. */
  ghost predicate Grown(base: map<string, string>, names: map<string, string>, lookup: RoleLookup) {
    && (forall k :: k in base ==> k in names && names[k] == base[k])
    && (forall k :: k in names && k !in base ==>
          lookup(k).Fetched? && names[k] == lookup(k).displayName.GetOr(k))
  }

  /** Two cache contents under which every id resolves to the same name. */
  ghost predicate SameResolution(a: map<string, string>, b: map<string, string>, lookup: RoleLookup) {
    forall id: Field :: Resolve(a, lookup, id) == Resolve(b, lookup, id)
  }

  /** The id -> displayName table built from the bulk listing; a definition
      without an id aborts the whole table, a later entry overrides an earlier
      one with the same id, and an absent displayName becomes "". */
  function DefinitionTable(defs: seq<RoleDefinition>): (t: Option<map<string, string>>)
    ensures t.Some? <==> forall j :: 0 <= j < |defs| ==> defs[j].id.Some?
    ensures t.Some? ==> forall k :: k in t.value <==> exists j :: 0 <= j < |defs| && defs[j].id == Some(k)
    decreases |defs|
  {
    if defs == [] then Some(map[])
    else
      var init := defs[..|defs| - 1];
      var last := defs[|defs| - 1];
      var rest := DefinitionTable(init);
      assert forall j :: 0 <= j < |init| ==> init[j] == defs[j];
      if rest.None? || last.id.None? then None
      else
        var t := rest.value[last.id.value := last.displayName.GetOr("")];
        assert forall k :: k in t ==> exists j :: 0 <= j < |defs| && defs[j].id == Some(k) by {
          forall k | k in t
            ensures exists j :: 0 <= j < |defs| && defs[j].id == Some(k)
          {
            if k == last.id.value {
              assert defs[|defs| - 1].id == Some(k);
            } else {
              var j :| 0 <= j < |init| && init[j].id == Some(k);
              assert defs[j].id == Some(k);
            }
          }
        }
        Some(t)
  }

  /** The cache contents after the bulk load: unchanged when the listing failed
      (`None`) or a definition lacks an id, otherwise overwritten by the table. */
  function BulkLoaded(names: map<string, string>, defs: Option<seq<RoleDefinition>>): (loaded: map<string, string>)
    ensures names.Keys <= loaded.Keys
    ensures forall k :: k in loaded && k !in names ==>
              defs.Some? && exists j :: 0 <= j < |defs.value| && defs.value[j].id == Some(k)
    ensures defs.None? || DefinitionTable(defs.value).None? ==> loaded == names
    ensures forall k :: k in names && (defs.None? || forall j :: 0 <= j < |defs.value| ==> defs.value[j].id != Some(k)) ==>
              loaded[k] == names[k]
  {
    match defs
    case None => names
    case Some(ds) =>
      match DefinitionTable(ds)
      case None => names
      case Some(t) => names + t
  }

  /** The cache contents after resolving each id of `ids` in turn. */
  function ResolveAll(names: map<string, string>, lookup: RoleLookup, ids: seq<Field>): map<string, string>
    decreases |ids|
  {
    if ids == [] then names
    else AfterResolve(ResolveAll(names, lookup, ids[..|ids| - 1]), lookup, ids[|ids| - 1])
  }

  /** One more resolution extends the fold over a prefix of `ids` by one id. */
  lemma ResolveAllStep(names: map<string, string>, lookup: RoleLookup, ids: seq<Field>, j: nat)
    requires j < |ids|
    ensures ResolveAll(names, lookup, ids[..j + 1]) == AfterResolve(ResolveAll(names, lookup, ids[..j]), lookup, ids[j])
  {
    assert ids[..j + 1][..j] == ids[..j];
  }

  /** Every set id among `ids` whose fetch succeeds is in the cache `names`. */
  ghost predicate CachedAll(names: map<string, string>, lookup: RoleLookup, ids: seq<Field>) {
    forall j :: 0 <= j < |ids| && Truthy(ids[j]) && lookup(ids[j].value).Fetched? ==> ids[j].value in names
  }

  /** Every key `after` has beyond `before` is one of `ids`. */
  ghost predicate AddedOnly(before: map<string, string>, after: map<string, string>, ids: seq<Field>) {
    forall k :: k in after && k !in before ==> exists j :: 0 <= j < |ids| && ids[j] == Some(k)
  }

  /** After resolving `ids`, the cache keeps every entry it had, holds every id
      whose fetch succeeds, and gained no other key. */
  lemma {:induction false} ResolveAllCaches(names: map<string, string>, lookup: RoleLookup, ids: seq<Field>)
    ensures Grown(names, ResolveAll(names, lookup, ids), lookup)
    ensures CachedAll(ResolveAll(names, lookup, ids), lookup, ids)
    ensures AddedOnly(names, ResolveAll(names, lookup, ids), ids)
    decreases |ids|
  {
    if ids != [] {
      var init := ids[..|ids| - 1];
      var last := ids[|ids| - 1];
      ResolveAllCaches(names, lookup, init);
      var mid := ResolveAll(names, lookup, init);
      var after := AfterResolve(mid, lookup, last);
      GrownTransitive(names, mid, after, lookup);
      forall j | 0 <= j < |ids| && Truthy(ids[j]) && lookup(ids[j].value).Fetched?
        ensures ids[j].value in after
      {
        if j < |ids| - 1 {
          assert init[j] == ids[j];
        }
      }
      forall k | k in after && k !in names
        ensures exists j :: 0 <= j < |ids| && ids[j] == Some(k)
      {
        if k in mid {
          var j :| 0 <= j < |init| && init[j] == Some(k);
          assert ids[j] == Some(k);
        } else {
          assert ids[|ids| - 1] == Some(k);
        }
      }
    }
  }

  /** Resolving `a` and then `b` leaves the cache as resolving `a + b`. */
  lemma {:induction false} ResolveAllAppend(names: map<string, string>, lookup: RoleLookup, a: seq<Field>, b: seq<Field>)
    ensures ResolveAll(names, lookup, a + b) == ResolveAll(ResolveAll(names, lookup, a), lookup, b)
    decreases |b|
  {
    if b == [] {
      assert a + b == a;
    } else {
      assert (a + b)[..|a + b| - 1] == a + b[..|b| - 1];
      ResolveAllAppend(names, lookup, a, b[..|b| - 1]);
    }
  }

  /** For an id listed more than once, the last listing decides its name. */
  lemma {:induction false} LastDefinitionWins(defs: seq<RoleDefinition>, j: nat)
    requires j < |defs| && defs[j].id.Some?
    requires forall l :: j < l < |defs| ==> defs[l].id != defs[j].id
    requires DefinitionTable(defs).Some?
    ensures defs[j].id.value in DefinitionTable(defs).value
    ensures DefinitionTable(defs).value[defs[j].id.value] == defs[j].displayName.GetOr("")
    decreases |defs|
  {
    if j < |defs| - 1 {
      var init := defs[..|defs| - 1];
      assert init[j] == defs[j];
      assert forall l :: j < l < |init| ==> init[l] == defs[l];
      LastDefinitionWins(init, j);
    }
  }

  /** A successful bulk load is idempotent: loading the same listing twice
      leaves the cache as loading it once. */
  lemma BulkLoadIdempotent(names: map<string, string>, defs: Option<seq<RoleDefinition>>)
    ensures BulkLoaded(BulkLoaded(names, defs), defs) == BulkLoaded(names, defs)
  {
  }

  /** A grown cache resolves every id as the cache it grew from. */
  lemma ResolveStable(base: map<string, string>, names: map<string, string>, lookup: RoleLookup, id: Field)
    requires Grown(base, names, lookup)
    ensures Resolve(names, lookup, id) == Resolve(base, lookup, id)
  {
  }

  lemma GrownSameResolution(base: map<string, string>, names: map<string, string>, lookup: RoleLookup)
    requires Grown(base, names, lookup)
    ensures SameResolution(base, names, lookup)
  {
  }

  lemma GrownTransitive(a: map<string, string>, b: map<string, string>, c: map<string, string>, lookup: RoleLookup)
    requires Grown(a, b, lookup) && Grown(b, c, lookup)
    ensures Grown(a, c, lookup)
  {
  }

  /** Loading the same listing over a grown cache keeps it grown from the
      cache the listing was loaded over before. */
  lemma GrownThroughBulkLoad(base: map<string, string>, names: map<string, string>,
                             defs: Option<seq<RoleDefinition>>, lookup: RoleLookup)
    requires Grown(base, names, lookup)
    ensures Grown(BulkLoaded(base, defs), BulkLoaded(names, defs), lookup)
  {
  }

  /** The process-wide cache `_role_name_by_id`. */
  class RoleNameCache {
    var names: map<string, string>

    constructor ()
      ensures names == map[]
    {
      names := map[];
    }

    /** `load_all_role_definitions`: `defs` is the bulk listing, `None` when the
        fetch raised. Failures leave the cache as it was. */
    method LoadAll(defs: Option<seq<RoleDefinition>>)
      modifies this
      ensures names == BulkLoaded(old(names), defs)
      ensures defs.Some? && DefinitionTable(defs.value).Some? ==>
                names.Keys == old(names).Keys + DefinitionTable(defs.value).value.Keys
      ensures defs.None? || DefinitionTable(defs.value).None? ==> names == old(names)
    {
      if defs.Some? {
        var table := DefinitionTable(defs.value);
        if table.Some? {
          names := names + table.value;
        }
      }
    }

    /** `role_name`: resolve `id` through the cache, fetching on a miss. */
    method RoleName(id: Field, lookup: RoleLookup) returns (name: string)
      modifies this
      ensures name == Resolve(old(names), lookup, id)
      ensures names == AfterResolve(old(names), lookup, id)
      ensures Grown(old(names), names, lookup)
      ensures !Truthy(id) ==> name == "" && names == old(names)
      ensures Truthy(id) && id.value in old(names) ==>
                name == old(names)[id.value] && names == old(names)
      ensures Truthy(id) && id.value !in old(names) && lookup(id.value).Fetched? ==>
                name == lookup(id.value).displayName.GetOr(id.value) &&
                names == old(names)[id.value := name]
      ensures Truthy(id) && id.value !in old(names) && lookup(id.value).FetchFailed? ==>
                name == id.value && names == old(names)
    {
      if !Truthy(id) {
        return "";
      }
      var key := id.value;
      if key in names {
        return names[key];
      }
      match lookup(key) {
        case Fetched(displayName) =>
          name := displayName.GetOr(key);
          names := names[key := name];
        case FetchFailed =>
          // the fetch raised or answered with an error status: fall back to the id
          name := key;
      }
    }
  }
}
