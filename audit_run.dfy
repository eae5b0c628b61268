/**
 * The classification section of the audit's main routine as it runs: each
 * loop resolves role names through the shared cache, which may grow on every
 * call, and appends to its list. Each loop is proved to compute the
 * corresponding function of the Classification module, with the role names
 * of the cache contents before the loop.
 */
module AuditRun {
  import opened Records
  import opened RoleNames
  import opened Classification

  /** `role_name` seen from a cache grown from `base`: the answer is base's. */
  method ResolveFrom(cache: RoleNameCache, id: Field, lookup: RoleLookup, ghost base: map<string, string>)
    returns (name: string)
    requires Grown(base, cache.names, lookup)
    modifies cache
    ensures Grown(base, cache.names, lookup)
    ensures cache.names == AfterResolve(old(cache.names), lookup, id)
    ensures name == Resolve(base, lookup, id)
  {
    ghost var before := cache.names;
    name := cache.RoleName(id, lookup);
    ResolveStable(base, before, lookup, id);
    GrownTransitive(base, before, cache.names, lookup);
  }

  /** The `role_name` call for the j-th of the ids a loop resolves: the cache
      moves from the fold over the first j ids to the fold over the first j + 1. */
  method ResolveNext(cache: RoleNameCache, ghost ids: seq<Field>, j: nat, id: Field, lookup: RoleLookup,
                     ghost entry: map<string, string>, ghost base: map<string, string>)
    returns (name: string)
    requires j < |ids| && ids[j] == id
    requires Grown(base, cache.names, lookup)
    requires cache.names == ResolveAll(entry, lookup, ids[..j])
    modifies cache
    ensures Grown(base, cache.names, lookup)
    ensures cache.names == ResolveAll(entry, lookup, ids[..j + 1])
    ensures name == Resolve(base, lookup, id)
  {
    name := ResolveFrom(cache, id, lookup, base);
    ResolveAllStep(entry, lookup, ids, j);
  }

  /** The permanent-assignment loop. */
  method CollectPermanent(cache: RoleNameCache, assignments: seq<RoleAssignment>, instKeys: set<Key>,
                          env: Environment, ghost base: map<string, string>)
    returns (permanent: seq<PermanentAssignment>)
    requires Grown(base, cache.names, env.roleLookup)
    modifies cache
    ensures Grown(base, cache.names, env.roleLookup)
    ensures permanent == Permanent(assignments, instKeys, base, env)
    ensures cache.names == ResolveAll(old(cache.names), env.roleLookup, RoleIds(assignments, (a: RoleAssignment) => a.roleDefinitionId))
    ensures CachedAll(cache.names, env.roleLookup, RoleIds(assignments, (a: RoleAssignment) => a.roleDefinitionId))
    ensures AddedOnly(old(cache.names), cache.names, RoleIds(assignments, (a: RoleAssignment) => a.roleDefinitionId))
  {
    permanent := [];
    ghost var entry := cache.names;
    ghost var ids := RoleIds(assignments, (a: RoleAssignment) => a.roleDefinitionId);
    for j := 0 to |assignments|
      invariant Grown(base, cache.names, env.roleLookup)
      invariant cache.names == ResolveAll(entry, env.roleLookup, ids[..j])
      invariant permanent == Permanent(assignments[..j], instKeys, base, env)
    {
      var a := assignments[j];
      assert assignments[..j + 1][..j] == assignments[..j];
      assert Permanent(assignments[..j + 1], instKeys, base, env)
          == permanent + (if IsStanding(a, instKeys, base, env) then [PermanentRow(a, base, env)] else []);
      var rname := ResolveNext(cache, ids, j, a.roleDefinitionId, env.roleLookup, entry, base);
      if rname in PRIV_ROLES {
        var key := a.JoinKey();
        if key !in instKeys {
          permanent := permanent + [PermanentAssignment(a.principalId, Upn(env, a.principalId), rname,
                                                        a.id, a.createdDateTime)];
        }
      }
    }
    assert assignments[..|assignments|] == assignments;
    assert ids[..|assignments|] == ids;
    ResolveAllCaches(entry, env.roleLookup, ids);
  }

  /** The stale-eligibility loop. */
  method CollectStale(cache: RoleNameCache, eligibles: seq<EligibilitySchedule>, recentKeys: set<Key>,
                      env: Environment, ghost base: map<string, string>)
    returns (stale: seq<StaleEligibility>)
    requires Grown(base, cache.names, env.roleLookup)
    modifies cache
    ensures Grown(base, cache.names, env.roleLookup)
    ensures stale == Stale(eligibles, recentKeys, base, env)
    ensures cache.names == ResolveAll(old(cache.names), env.roleLookup, RoleIds(eligibles, (e: EligibilitySchedule) => e.roleDefinitionId))
    ensures CachedAll(cache.names, env.roleLookup, RoleIds(eligibles, (e: EligibilitySchedule) => e.roleDefinitionId))
    ensures AddedOnly(old(cache.names), cache.names, RoleIds(eligibles, (e: EligibilitySchedule) => e.roleDefinitionId))
  {
    stale := [];
    ghost var entry := cache.names;
    ghost var ids := RoleIds(eligibles, (e: EligibilitySchedule) => e.roleDefinitionId);
    for j := 0 to |eligibles|
      invariant Grown(base, cache.names, env.roleLookup)
      invariant cache.names == ResolveAll(entry, env.roleLookup, ids[..j])
      invariant stale == Stale(eligibles[..j], recentKeys, base, env)
    {
      var e := eligibles[j];
      assert eligibles[..j + 1][..j] == eligibles[..j];
      assert Stale(eligibles[..j + 1], recentKeys, base, env)
          == stale + (if IsStale(e, recentKeys, base, env) then [StaleRow(e, base, env)] else []);
      var rname := ResolveNext(cache, ids, j, e.roleDefinitionId, env.roleLookup, entry, base);
      if rname in PRIV_ROLES {
        var key := e.JoinKey();
        if key !in recentKeys {
          stale := stale + [StaleEligibility(e.principalId, Upn(env, e.principalId), rname,
                                             e.id, e.startDateTime)];
        }
      }
    }
    assert eligibles[..|eligibles|] == eligibles;
    assert ids[..|eligibles|] == ids;
    ResolveAllCaches(entry, env.roleLookup, ids);
  }

  /** The tests the long-activation loop applies to one instance whose role
      resolved to `rname`: a privileged role, both timestamps set and parsing,
      and more than MAX_ACTIVATION_HOURS between them. The row, if any. */
  method ActivationRow(i: ScheduleInstance, rname: string, env: Environment, ghost names: map<string, string>)
    returns (row: seq<LongActivation>)
    requires rname == RoleOf(names, env, i.roleDefinitionId)
    ensures |row| <= 1
    ensures row != [] <==> IsLong(i, names, env)
    ensures row != [] ==> row == [LongRow(i, names, env)]
  {
    row := [];
    if rname in PRIV_ROLES {
      var start, end := i.startDateTime, i.endDateTime;
      if Truthy(start) && Truthy(end) {
        var s, e := env.parse(start.value), env.parse(end.value);
        if s.Some? && e.Some? {
          var seconds := e.value - s.value;
          if seconds > MAX_ACTIVATION_HOURS * SECONDS_PER_HOUR {
            row := [LongActivation(i.principalId, Upn(env, i.principalId), rname, i.id,
                                   start.value, end.value, seconds)];
          }
        }
      }
    }
  }

  /** The long-activation loop over the in-window instances; an instance whose
      timestamps are missing or do not parse is skipped. */
  method CollectLongActivations(cache: RoleNameCache, inst: seq<ScheduleInstance>,
                                env: Environment, ghost base: map<string, string>)
    returns (longActs: seq<LongActivation>)
    requires Grown(base, cache.names, env.roleLookup)
    modifies cache
    ensures Grown(base, cache.names, env.roleLookup)
    ensures longActs == LongActivations(inst, base, env)
    ensures cache.names == ResolveAll(old(cache.names), env.roleLookup, RoleIds(inst, (i: ScheduleInstance) => i.roleDefinitionId))
    ensures CachedAll(cache.names, env.roleLookup, RoleIds(inst, (i: ScheduleInstance) => i.roleDefinitionId))
    ensures AddedOnly(old(cache.names), cache.names, RoleIds(inst, (i: ScheduleInstance) => i.roleDefinitionId))
  {
    longActs := [];
    ghost var entry := cache.names;
    ghost var ids := RoleIds(inst, (i: ScheduleInstance) => i.roleDefinitionId);
    for j := 0 to |inst|
      invariant Grown(base, cache.names, env.roleLookup)
      invariant cache.names == ResolveAll(entry, env.roleLookup, ids[..j])
      invariant longActs == LongActivations(inst[..j], base, env)
    {
      var i := inst[j];
      assert inst[..j + 1][..j] == inst[..j];
      var rname := ResolveNext(cache, ids, j, i.roleDefinitionId, env.roleLookup, entry, base);
      var row := ActivationRow(i, rname, env, base);
      longActs := longActs + row;
    }
    assert inst[..|inst|] == inst;
    assert ids[..|inst|] == ids;
    ResolveAllCaches(entry, env.roleLookup, ids);
  }

  /** A metrics sum: how many of the role ids resolve to a privileged role. */
  method CountPrivileged(cache: RoleNameCache, roleIds: seq<Field>, env: Environment, ghost base: map<string, string>)
    returns (count: nat)
    requires Grown(base, cache.names, env.roleLookup)
    modifies cache
    ensures Grown(base, cache.names, env.roleLookup)
    ensures count == PrivilegedCount(roleIds, base, env)
    ensures cache.names == ResolveAll(old(cache.names), env.roleLookup, roleIds)
    ensures CachedAll(cache.names, env.roleLookup, roleIds)
    ensures AddedOnly(old(cache.names), cache.names, roleIds)
  {
    count := 0;
    ghost var entry := cache.names;
    ghost var ids := roleIds;
    for j := 0 to |roleIds|
      invariant Grown(base, cache.names, env.roleLookup)
      invariant cache.names == ResolveAll(entry, env.roleLookup, ids[..j])
      invariant count == PrivilegedCount(roleIds[..j], base, env)
    {
      var rname := ResolveNext(cache, ids, j, roleIds[j], env.roleLookup, entry, base);
      if rname in PRIV_ROLES {
        count := count + 1;
      }
      assert roleIds[..j + 1][..j] == roleIds[..j];
    }
    assert roleIds[..|roleIds|] == roleIds;
    assert ids[..|roleIds|] == ids;
    ResolveAllCaches(entry, env.roleLookup, ids);
  }

  /** The role ids one run resolves, in the order it resolves them: the
      assignments, the eligibilities, the in-window instances, then the
      assignments and the eligibilities again for the metrics. */
  function RunRoleIds(snap: Snapshot, env: Environment): seq<Field> {
    RoleIds(snap.assignments, (a: RoleAssignment) => a.roleDefinitionId)
      + RoleIds(snap.eligibilities, (e: EligibilitySchedule) => e.roleDefinitionId)
      + RoleIds(InWindow(snap.instances, env), (i: ScheduleInstance) => i.roleDefinitionId)
      + RoleIds(snap.assignments, (a: RoleAssignment) => a.roleDefinitionId)
      + RoleIds(snap.eligibilities, (e: EligibilitySchedule) => e.roleDefinitionId)
  }

  /** The classification section of one run: window filter, bulk load of role
      definitions (`defs` is None when the listing failed), key sets, the three
      loops and the metrics. The report is the Audit function of the inputs and
      of the cache after the bulk load. */
  method RunAudit(cache: RoleNameCache, snap: Snapshot, defs: Option<seq<RoleDefinition>>, env: Environment)
    returns (report: Report)
    modifies cache
    ensures report == Audit(snap, BulkLoaded(old(cache.names), defs), env)
    ensures Grown(BulkLoaded(old(cache.names), defs), cache.names, env.roleLookup)
    ensures cache.names == ResolveAll(BulkLoaded(old(cache.names), defs), env.roleLookup, RunRoleIds(snap, env))
    ensures CachedAll(cache.names, env.roleLookup, RunRoleIds(snap, env))
    ensures AddedOnly(BulkLoaded(old(cache.names), defs), cache.names, RunRoleIds(snap, env))
  {
    var inst := InWindow(snap.instances, env);
    cache.LoadAll(defs);
    ghost var loaded := cache.names;
    var instKeys := InstanceKeys(inst);
    var permanent := CollectPermanent(cache, snap.assignments, instKeys, env, loaded);
    var recentKeys := InstanceKeys(inst);
    var stale := CollectStale(cache, snap.eligibilities, recentKeys, env, loaded);
    var longActs := CollectLongActivations(cache, inst, env, loaded);
    var active := CountPrivileged(cache, RoleIds(snap.assignments, (a: RoleAssignment) => a.roleDefinitionId), env, loaded);
    var eligible := CountPrivileged(cache, RoleIds(snap.eligibilities, (e: EligibilitySchedule) => e.roleDefinitionId), env, loaded);
    report := Report(Metrics(active, eligible, |inst|, |permanent|, |stale|, |longActs|), permanent, stale, longActs);
    ghost var asIds := RoleIds(snap.assignments, (a: RoleAssignment) => a.roleDefinitionId);
    ghost var esIds := RoleIds(snap.eligibilities, (e: EligibilitySchedule) => e.roleDefinitionId);
    ghost var instIds := RoleIds(inst, (i: ScheduleInstance) => i.roleDefinitionId);
    ResolveAllAppend(loaded, env.roleLookup, asIds, esIds);
    ResolveAllAppend(loaded, env.roleLookup, asIds + esIds, instIds);
    ResolveAllAppend(loaded, env.roleLookup, asIds + esIds + instIds, asIds);
    ResolveAllAppend(loaded, env.roleLookup, asIds + esIds + instIds + asIds, esIds);
    ResolveAllCaches(loaded, env.roleLookup, RunRoleIds(snap, env));
  }

  /** Two runs over the same inputs, sharing one cache, report the same. */
  method RunTwice(cache: RoleNameCache, snap: Snapshot, defs: Option<seq<RoleDefinition>>, env: Environment)
    returns (first: Report, second: Report)
    modifies cache
    ensures first == second
  {
    ghost var initial := cache.names;
    first := RunAudit(cache, snap, defs, env);
    ghost var left := cache.names;
    second := RunAudit(cache, snap, defs, env);
    RerunIdentical(snap, defs, env, initial, left);
  }
}
