/**
 * The classification engine of the PIM audit as functions: the activation
 * window, the join-key set, the three violation lists and the summary counts,
 * with role resolution fixed to the cache contents after the bulk load.
 */
module Classification {
  import opened Records
  import opened RoleNames

  /** Everything outside the three collections that the classification reads. */
  datatype Environment = Environment(
    now: int,                             // the clock when the run starts, in seconds
    parse: string -> Option<int>,         // ISO-8601 parsing ('Z' read as +00:00), in seconds
    roleLookup: RoleLookup,               // the single-role-definition fetch
    upnLookup: string -> Option<string>)  // the userPrincipalName fetch; None on any failure

  /** The three collections fetched from the directory. */
  datatype Snapshot = Snapshot(
    assignments: seq<RoleAssignment>,
    eligibilities: seq<EligibilitySchedule>,
    instances: seq<ScheduleInstance>)

  datatype PermanentAssignment = PermanentAssignment(
    principalId: Field, principalUpn: string, role: string, assignmentId: Field, createdDateTime: Field)

  datatype StaleEligibility = StaleEligibility(
    principalId: Field, principalUpn: string, role: string, eligibilityId: Field, eligibleSince: Field)

  /** `seconds` is the activation length; the report shows it in hours. */
  datatype LongActivation = LongActivation(
    principalId: Field, principalUpn: string, role: string, instanceId: Field,
    start: string, end: string, seconds: int)

  datatype Metrics = Metrics(
    activePrivilegedAssignments: nat,
    eligiblePrivilegedUsers: nat,
    activationsInWindow: nat,
    permanentPrivilegedAssignments: nat,
    staleEligibilities: nat,
    longActivations: nat)

  datatype Report = Report(
    metrics: Metrics,
    permanent: seq<PermanentAssignment>,
    stale: seq<StaleEligibility>,
    longActivations: seq<LongActivation>)

  // ----- time -----

  /** The start of the activation window, WINDOW_DAYS before the run. */
  function Since(env: Environment): int {
    env.now - WINDOW_DAYS * SECONDS_PER_DAY
  }

  /** A timestamp field parsed to seconds; absent, empty or unparseable gives None. */
  function ParseTime(env: Environment, raw: Field): (t: Option<int>)
    ensures t.Some? ==> Truthy(raw) && t == env.parse(raw.value)
    ensures Truthy(raw) ==> t == env.parse(raw.value)
  {
    if Truthy(raw) then env.parse(raw.value) else None
  }

  /** The window test on an instance's start; the bound is inclusive. */
  predicate StartsInWindow(env: Environment, i: ScheduleInstance)
    ensures StartsInWindow(env, i) ==> Truthy(i.startDateTime) && env.parse(i.startDateTime.value).Some?
    ensures Truthy(i.startDateTime) && env.parse(i.startDateTime.value) == Some(Since(env)) ==> StartsInWindow(env, i)
    ensures Truthy(i.startDateTime) && env.parse(i.startDateTime.value) == Some(Since(env) - 1) ==> !StartsInWindow(env, i)
  {
    var s := ParseTime(env, i.startDateTime);
    s.Some? && s.value >= Since(env)
  }

  /** The instances whose start parses and is at or after the window start, in input order. */
  function InWindow(all: seq<ScheduleInstance>, env: Environment): (inst: seq<ScheduleInstance>)
    ensures |inst| <= |all|
    ensures forall i :: i in inst <==> i in all && StartsInWindow(env, i)
    decreases |all|
  {
    if all == [] then []
    else
      var last := all[|all| - 1];
      assert all == all[..|all| - 1] + [last];
      InWindow(all[..|all| - 1], env) + (if StartsInWindow(env, last) then [last] else [])
  }

  /** The join keys of a collection of instances, as a set. */
  function InstanceKeys(inst: seq<ScheduleInstance>): (keys: set<Key>)
    ensures |keys| <= |inst|
    ensures forall i :: i in inst ==> i.JoinKey() in keys
  {
    KeySetBound(inst);
    set i | i in inst :: i.JoinKey()
  }

  /** A key set has at most as many keys as there are instances. */
  lemma {:induction false} KeySetBound(inst: seq<ScheduleInstance>)
    ensures |set i | i in inst :: i.JoinKey()| <= |inst|
    decreases |inst|
  {
    if inst != [] {
      var init := inst[..|inst| - 1];
      var last := inst[|inst| - 1];
      assert inst == init + [last];
      assert (set i | i in inst :: i.JoinKey()) == (set i | i in init :: i.JoinKey()) + {last.JoinKey()};
      KeySetBound(init);
    }
  }

  /** The key set of a concatenation is the union of the key sets: neither the
      order nor the multiplicity of instances matters. */
  lemma InstanceKeysAppend(a: seq<ScheduleInstance>, b: seq<ScheduleInstance>)
    ensures InstanceKeys(a + b) == InstanceKeys(a) + InstanceKeys(b)
  {
    assert forall i :: i in a + b <==> i in a || i in b;
  }

  // ----- role names and principals -----

  function RoleOf(names: map<string, string>, env: Environment, roleId: Field): string {
    Resolve(names, env.roleLookup, roleId)
  }

  predicate Privileged(names: map<string, string>, env: Environment, roleId: Field) {
    RoleOf(names, env, roleId) in PRIV_ROLES
  }

  /** The principal's user principal name; the raw id when the lookup fails. */
  function Upn(env: Environment, principalId: Field): (upn: string)
    ensures !Truthy(principalId) ==> upn == ""
    ensures Truthy(principalId) && env.upnLookup(principalId.value).None? ==> upn == principalId.value
  {
    if Truthy(principalId) then env.upnLookup(principalId.value).GetOr(principalId.value) else ""
  }

  // ----- permanent assignments -----

  predicate IsStanding(a: RoleAssignment, keys: set<Key>, names: map<string, string>, env: Environment) {
    Privileged(names, env, a.roleDefinitionId) && a.JoinKey() !in keys
  }

  function PermanentRow(a: RoleAssignment, names: map<string, string>, env: Environment): PermanentAssignment {
    PermanentAssignment(a.principalId, Upn(env, a.principalId), RoleOf(names, env, a.roleDefinitionId), a.id, a.createdDateTime)
  }

  /** The permanent list: one row per privileged assignment whose key no in-window instance has. */
  function Permanent(assignments: seq<RoleAssignment>, keys: set<Key>, names: map<string, string>, env: Environment)
    : (r: seq<PermanentAssignment>)
    ensures |r| <= |assignments|
    ensures forall p :: p in r ==> p.role in PRIV_ROLES
    decreases |assignments|
  {
    if assignments == [] then []
    else
      var last := assignments[|assignments| - 1];
      Permanent(assignments[..|assignments| - 1], keys, names, env)
        + (if IsStanding(last, keys, names, env) then [PermanentRow(last, names, env)] else [])
  }

  // ----- stale eligibilities -----

  predicate IsStale(e: EligibilitySchedule, keys: set<Key>, names: map<string, string>, env: Environment) {
    Privileged(names, env, e.roleDefinitionId) && e.JoinKey() !in keys
  }

  function StaleRow(e: EligibilitySchedule, names: map<string, string>, env: Environment): StaleEligibility {
    StaleEligibility(e.principalId, Upn(env, e.principalId), RoleOf(names, env, e.roleDefinitionId), e.id, e.startDateTime)
  }

  /** The stale list: one row per privileged eligibility whose key no in-window instance has. */
  function Stale(es: seq<EligibilitySchedule>, keys: set<Key>, names: map<string, string>, env: Environment)
    : (r: seq<StaleEligibility>)
    ensures |r| <= |es|
    ensures forall s :: s in r ==> s.role in PRIV_ROLES
    decreases |es|
  {
    if es == [] then []
    else
      var last := es[|es| - 1];
      Stale(es[..|es| - 1], keys, names, env)
        + (if IsStale(last, keys, names, env) then [StaleRow(last, names, env)] else [])
  }

  // ----- long activations -----

  /** end - start in seconds, when both fields are set and both parse. */
  function Duration(env: Environment, i: ScheduleInstance): (d: Option<int>)
    ensures d.Some? <==> ParseTime(env, i.startDateTime).Some? && ParseTime(env, i.endDateTime).Some?
    ensures d.Some? ==> d.value == ParseTime(env, i.endDateTime).value - ParseTime(env, i.startDateTime).value
  {
    if Truthy(i.startDateTime) && Truthy(i.endDateTime) then
      match (env.parse(i.startDateTime.value), env.parse(i.endDateTime.value))
      case (Some(s), Some(e)) => Some(e - s)
      case _ => None
    else None
  }

  predicate IsLong(i: ScheduleInstance, names: map<string, string>, env: Environment) {
    && Privileged(names, env, i.roleDefinitionId)
    && Duration(env, i).Some?
    && Duration(env, i).value > MAX_ACTIVATION_HOURS * SECONDS_PER_HOUR
  }

  function LongRow(i: ScheduleInstance, names: map<string, string>, env: Environment): LongActivation
    requires Duration(env, i).Some?
  {
    LongActivation(i.principalId, Upn(env, i.principalId), RoleOf(names, env, i.roleDefinitionId), i.id,
                   i.startDateTime.value, i.endDateTime.value, Duration(env, i).value)
  }

  /** The long-activation list over the in-window instances; any instance that
      fails a test is skipped. */
  function LongActivations(inst: seq<ScheduleInstance>, names: map<string, string>, env: Environment)
    : (r: seq<LongActivation>)
    ensures |r| <= |inst|
    ensures forall la :: la in r ==> la.role in PRIV_ROLES && la.seconds > MAX_ACTIVATION_HOURS * SECONDS_PER_HOUR
    decreases |inst|
  {
    if inst == [] then []
    else
      var last := inst[|inst| - 1];
      LongActivations(inst[..|inst| - 1], names, env)
        + (if IsLong(last, names, env) then [LongRow(last, names, env)] else [])
  }

  // ----- metrics -----

  /** The role-definition ids of a collection, in order. */
  function RoleIds<R>(records: seq<R>, roleOf: R -> Field): seq<Field> {
    seq(|records|, j requires 0 <= j < |records| => roleOf(records[j]))
  }

  /** How many of the role ids resolve to a privileged role. */
  function PrivilegedCount(roleIds: seq<Field>, names: map<string, string>, env: Environment): (n: nat)
    ensures n <= |roleIds|
    decreases |roleIds|
  {
    if roleIds == [] then 0
    else
      PrivilegedCount(roleIds[..|roleIds| - 1], names, env)
        + (if Privileged(names, env, roleIds[|roleIds| - 1]) then 1 else 0)
  }

  /** One audit run over `snap`, with `names` the cache contents after the bulk load. */
  function Audit(snap: Snapshot, names: map<string, string>, env: Environment): (r: Report)
    ensures r.metrics.permanentPrivilegedAssignments <= r.metrics.activePrivilegedAssignments
    ensures r.metrics.staleEligibilities <= r.metrics.eligiblePrivilegedUsers
    ensures r.metrics.longActivations <= r.metrics.activationsInWindow <= |snap.instances|
    ensures r.metrics.permanentPrivilegedAssignments == |r.permanent|
    ensures r.metrics.staleEligibilities == |r.stale|
    ensures r.metrics.longActivations == |r.longActivations|
  {
    var inst := InWindow(snap.instances, env);
    var keys := InstanceKeys(inst);
    var permanent := Permanent(snap.assignments, keys, names, env);
    var stale := Stale(snap.eligibilities, keys, names, env);
    var longActs := LongActivations(inst, names, env);
    PermanentWithinPrivileged(snap.assignments, keys, names, env);
    StaleWithinPrivileged(snap.eligibilities, keys, names, env);
    Report(
      Metrics(
        PrivilegedCount(RoleIds(snap.assignments, (a: RoleAssignment) => a.roleDefinitionId), names, env),
        PrivilegedCount(RoleIds(snap.eligibilities, (e: EligibilitySchedule) => e.roleDefinitionId), names, env),
        |inst|, |permanent|, |stale|, |longActs|),
      permanent, stale, longActs)
  }

  // ----- lemmas: order and membership -----

  /** The window filter distributes over concatenation: it keeps input order. */
  lemma {:induction false} InWindowAppend(a: seq<ScheduleInstance>, b: seq<ScheduleInstance>, env: Environment)
    ensures InWindow(a + b, env) == InWindow(a, env) + InWindow(b, env)
    decreases |b|
  {
    if b == [] {
      assert a + b == a;
    } else {
      var init := b[..|b| - 1];
      assert (a + b)[..|a + b| - 1] == a + init;
      InWindowAppend(a, init, env);
    }
  }

  /** The permanent list keeps input order: one block per assignment. */
  lemma {:induction false} PermanentAppend(a: seq<RoleAssignment>, b: seq<RoleAssignment>, keys: set<Key>,
                                           names: map<string, string>, env: Environment)
    ensures Permanent(a + b, keys, names, env) == Permanent(a, keys, names, env) + Permanent(b, keys, names, env)
    decreases |b|
  {
    if b == [] {
      assert a + b == a;
    } else {
      var init := b[..|b| - 1];
      assert (a + b)[..|a + b| - 1] == a + init;
      PermanentAppend(a, init, keys, names, env);
    }
  }

  /** An assignment is reported permanent iff it is privileged and its key is
      not in the key set. */
  lemma {:induction false} PermanentExact(assignments: seq<RoleAssignment>, keys: set<Key>, names: map<string, string>, env: Environment)
    ensures forall a :: a in assignments && IsStanding(a, keys, names, env) ==> PermanentRow(a, names, env) in Permanent(assignments, keys, names, env)
    ensures forall p :: p in Permanent(assignments, keys, names, env) ==>
              exists a :: a in assignments && IsStanding(a, keys, names, env) && p == PermanentRow(a, names, env)
    decreases |assignments|
  {
    if assignments != [] {
      var init := assignments[..|assignments| - 1];
      assert assignments == init + [assignments[|assignments| - 1]];
      PermanentExact(init, keys, names, env);
    }
  }

  lemma {:induction false} StaleAppend(a: seq<EligibilitySchedule>, b: seq<EligibilitySchedule>, keys: set<Key>,
                                       names: map<string, string>, env: Environment)
    ensures Stale(a + b, keys, names, env) == Stale(a, keys, names, env) + Stale(b, keys, names, env)
    decreases |b|
  {
    if b == [] {
      assert a + b == a;
    } else {
      var init := b[..|b| - 1];
      assert (a + b)[..|a + b| - 1] == a + init;
      StaleAppend(a, init, keys, names, env);
    }
  }

  /** An eligibility is reported stale iff it is privileged and its key is not
      in the key set. */
  lemma {:induction false} StaleExact(es: seq<EligibilitySchedule>, keys: set<Key>, names: map<string, string>, env: Environment)
    ensures forall e :: e in es && IsStale(e, keys, names, env) ==> StaleRow(e, names, env) in Stale(es, keys, names, env)
    ensures forall s :: s in Stale(es, keys, names, env) ==>
              exists e :: e in es && IsStale(e, keys, names, env) && s == StaleRow(e, names, env)
    decreases |es|
  {
    if es != [] {
      var init := es[..|es| - 1];
      assert es == init + [es[|es| - 1]];
      StaleExact(init, keys, names, env);
    }
  }

  lemma {:induction false} LongActivationsAppend(a: seq<ScheduleInstance>, b: seq<ScheduleInstance>,
                                                 names: map<string, string>, env: Environment)
    ensures LongActivations(a + b, names, env) == LongActivations(a, names, env) + LongActivations(b, names, env)
    decreases |b|
  {
    if b == [] {
      assert a + b == a;
    } else {
      var init := b[..|b| - 1];
      assert (a + b)[..|a + b| - 1] == a + init;
      LongActivationsAppend(a, init, names, env);
    }
  }

  /** Over the fetched instances: an instance is reported long iff it starts in
      the window, is privileged, has both timestamps parsing, and lasted more
      than MAX_ACTIVATION_HOURS. */
  lemma {:induction false} LongActivationsExact(all: seq<ScheduleInstance>, names: map<string, string>, env: Environment)
    ensures forall i :: i in all && StartsInWindow(env, i) && IsLong(i, names, env) ==>
              LongRow(i, names, env) in LongActivations(InWindow(all, env), names, env)
    ensures forall la :: la in LongActivations(InWindow(all, env), names, env) ==>
              exists i :: i in all && StartsInWindow(env, i) && IsLong(i, names, env) && la == LongRow(i, names, env)
    decreases |all|
  {
    if all != [] {
      var init := all[..|all| - 1];
      var last := all[|all| - 1];
      assert all == init + [last];
      LongActivationsExact(init, names, env);
      if StartsInWindow(env, last) {
        assert InWindow(all, env) == InWindow(init, env) + [last];
        LongActivationsAppend(InWindow(init, env), [last], names, env);
        assert LongActivations([last], names, env)
            == if IsLong(last, names, env) then [LongRow(last, names, env)] else [] by {
          assert [last][..0] == [];
        }
      } else {
        assert InWindow(all, env) == InWindow(init, env);
      }
    }
  }

  // ----- lemmas: a new in-window activation retires its key -----

  function AssignmentsWithout(assignments: seq<RoleAssignment>, k: Key): (r: seq<RoleAssignment>)
    ensures forall a :: a in r <==> a in assignments && a.JoinKey() != k
    decreases |assignments|
  {
    if assignments == [] then []
    else
      var last := assignments[|assignments| - 1];
      assert assignments == assignments[..|assignments| - 1] + [last];
      AssignmentsWithout(assignments[..|assignments| - 1], k) + (if last.JoinKey() != k then [last] else [])
  }

  function EligibilitiesWithout(es: seq<EligibilitySchedule>, k: Key): (r: seq<EligibilitySchedule>)
    ensures forall e :: e in r <==> e in es && e.JoinKey() != k
    decreases |es|
  {
    if es == [] then []
    else
      var last := es[|es| - 1];
      assert es == es[..|es| - 1] + [last];
      EligibilitiesWithout(es[..|es| - 1], k) + (if last.JoinKey() != k then [last] else [])
  }

  /** Adding key k to the key set drops exactly the assignments with key k from
      the permanent list. */
  lemma {:induction false} AddedKeyRetiresAssignments(assignments: seq<RoleAssignment>, keys: set<Key>, k: Key,
                                                      names: map<string, string>, env: Environment)
    ensures Permanent(assignments, keys + {k}, names, env) == Permanent(AssignmentsWithout(assignments, k), keys, names, env)
    decreases |assignments|
  {
    if assignments != [] {
      var prefix := assignments[..|assignments| - 1];
      var last := assignments[|assignments| - 1];
      var tail := if last.JoinKey() != k then [last] else [];
      AddedKeyRetiresAssignments(prefix, keys, k, names, env);
      assert AssignmentsWithout(assignments, k) == AssignmentsWithout(prefix, k) + tail;
      PermanentAppend(AssignmentsWithout(prefix, k), tail, keys, names, env);
      assert Permanent(tail, keys, names, env)
          == if IsStanding(last, keys + {k}, names, env) then [PermanentRow(last, names, env)] else [] by {
        if tail != [] {
          assert tail[..0] == [];
        }
      }
    }
  }

  lemma {:induction false} AddedKeyRetiresEligibilities(es: seq<EligibilitySchedule>, keys: set<Key>, k: Key,
                                                        names: map<string, string>, env: Environment)
    ensures Stale(es, keys + {k}, names, env) == Stale(EligibilitiesWithout(es, k), keys, names, env)
    decreases |es|
  {
    if es != [] {
      var prefix := es[..|es| - 1];
      var last := es[|es| - 1];
      var tail := if last.JoinKey() != k then [last] else [];
      AddedKeyRetiresEligibilities(prefix, keys, k, names, env);
      assert EligibilitiesWithout(es, k) == EligibilitiesWithout(prefix, k) + tail;
      StaleAppend(EligibilitiesWithout(prefix, k), tail, keys, names, env);
      assert Stale(tail, keys, names, env)
          == if IsStale(last, keys + {k}, names, env) then [StaleRow(last, names, env)] else [] by {
        if tail != [] {
          assert tail[..0] == [];
        }
      }
    }
  }

  /** The window filter keeps an in-window instance x where it was inserted. */
  lemma InWindowInsert(before: seq<ScheduleInstance>, x: ScheduleInstance, after: seq<ScheduleInstance>,
                       env: Environment)
    requires StartsInWindow(env, x)
    ensures InWindow(before + [x] + after, env) == InWindow(before, env) + [x] + InWindow(after, env)
  {
    assert InWindow([x], env) == [x] by {
      assert [x][..0] == [];
    }
    InWindowAppend(before + [x], after, env);
    InWindowAppend(before, [x], env);
  }

  /** Inserting x anywhere in a sequence of instances adds exactly x's key. */
  lemma InstanceKeysInsert(before: seq<ScheduleInstance>, x: ScheduleInstance, after: seq<ScheduleInstance>)
    ensures InstanceKeys(before + [x] + after) == InstanceKeys(before + after) + {x.JoinKey()}
  {
    assert InstanceKeys([x]) == {x.JoinKey()} by {
      assert forall i :: i in [x] <==> i == x;
    }
    InstanceKeysAppend(before + [x], after);
    InstanceKeysAppend(before, [x]);
    InstanceKeysAppend(before, after);
  }

  /** Inserting an in-window instance x anywhere among the fetched instances
      adds exactly x's key to the in-window key set. */
  lemma InsertedActivationKeys(before: seq<ScheduleInstance>, x: ScheduleInstance, after: seq<ScheduleInstance>,
                               env: Environment)
    requires StartsInWindow(env, x)
    ensures InstanceKeys(InWindow(before + [x] + after, env))
         == InstanceKeys(InWindow(before + after, env)) + {x.JoinKey()}
  {
    InWindowInsert(before, x, after, env);
    InWindowAppend(before, after, env);
    InstanceKeysInsert(InWindow(before, env), x, InWindow(after, env));
  }

  /** One more fetched instance x that starts in the window, wherever it
      stands among the others, removes from the permanent and stale lists
      exactly the records whose key is x's key. */
  lemma NewActivationRetiresKey(snap: Snapshot, before: seq<ScheduleInstance>, x: ScheduleInstance,
                                after: seq<ScheduleInstance>, names: map<string, string>, env: Environment)
    requires snap.instances == before + after
    requires StartsInWindow(env, x)
    ensures Audit(Snapshot(snap.assignments, snap.eligibilities, before + [x] + after), names, env).permanent
         == Audit(Snapshot(AssignmentsWithout(snap.assignments, x.JoinKey()), snap.eligibilities, snap.instances), names, env).permanent
    ensures Audit(Snapshot(snap.assignments, snap.eligibilities, before + [x] + after), names, env).stale
         == Audit(Snapshot(snap.assignments, EligibilitiesWithout(snap.eligibilities, x.JoinKey()), snap.instances), names, env).stale
  {
    InsertedActivationKeys(before, x, after, env);
    var keys := InstanceKeys(InWindow(snap.instances, env));
    AddedKeyRetiresAssignments(snap.assignments, keys, x.JoinKey(), names, env);
    AddedKeyRetiresEligibilities(snap.eligibilities, keys, x.JoinKey(), names, env);
  }

  // ----- lemmas: summary counts -----

  lemma {:induction false} PermanentWithinPrivileged(assignments: seq<RoleAssignment>, keys: set<Key>, names: map<string, string>, env: Environment)
    ensures |Permanent(assignments, keys, names, env)| <= PrivilegedCount(RoleIds(assignments, (a: RoleAssignment) => a.roleDefinitionId), names, env)
    decreases |assignments|
  {
    if assignments != [] {
      var init := assignments[..|assignments| - 1];
      assert RoleIds(assignments, (a: RoleAssignment) => a.roleDefinitionId)[..|assignments| - 1]
          == RoleIds(init, (a: RoleAssignment) => a.roleDefinitionId);
      PermanentWithinPrivileged(init, keys, names, env);
    }
  }

  lemma {:induction false} StaleWithinPrivileged(es: seq<EligibilitySchedule>, keys: set<Key>, names: map<string, string>, env: Environment)
    ensures |Stale(es, keys, names, env)| <= PrivilegedCount(RoleIds(es, (e: EligibilitySchedule) => e.roleDefinitionId), names, env)
    decreases |es|
  {
    if es != [] {
      var init := es[..|es| - 1];
      assert RoleIds(es, (e: EligibilitySchedule) => e.roleDefinitionId)[..|es| - 1]
          == RoleIds(init, (e: EligibilitySchedule) => e.roleDefinitionId);
      StaleWithinPrivileged(init, keys, names, env);
    }
  }

  /** The privileged count of a concatenation is the sum of the counts. */
  lemma {:induction false} PrivilegedCountAppend(a: seq<Field>, b: seq<Field>, names: map<string, string>, env: Environment)
    ensures PrivilegedCount(a + b, names, env) == PrivilegedCount(a, names, env) + PrivilegedCount(b, names, env)
    decreases |b|
  {
    if b == [] {
      assert a + b == a;
    } else {
      assert (a + b)[..|a + b| - 1] == a + b[..|b| - 1];
      PrivilegedCountAppend(a, b[..|b| - 1], names, env);
    }
  }

  /** With no in-window instance, the permanent list counts every privileged assignment. */
  lemma {:induction false} NoActivationsAllPermanent(assignments: seq<RoleAssignment>, names: map<string, string>, env: Environment)
    ensures |Permanent(assignments, {}, names, env)| == PrivilegedCount(RoleIds(assignments, (a: RoleAssignment) => a.roleDefinitionId), names, env)
    decreases |assignments|
  {
    if assignments != [] {
      var init := assignments[..|assignments| - 1];
      assert RoleIds(assignments, (a: RoleAssignment) => a.roleDefinitionId)[..|assignments| - 1]
          == RoleIds(init, (a: RoleAssignment) => a.roleDefinitionId);
      NoActivationsAllPermanent(init, names, env);
    }
  }

  /** Three empty collections give three empty lists and all-zero counts. */
  lemma EmptySnapshot(names: map<string, string>, env: Environment)
    ensures Audit(Snapshot([], [], []), names, env) == Report(Metrics(0, 0, 0, 0, 0, 0), [], [], [])
  {
  }

  // ----- lemmas: resolution that agrees gives the same report -----

  lemma {:induction false} PermanentCongruent(assignments: seq<RoleAssignment>, keys: set<Key>,
                                              a: map<string, string>, b: map<string, string>, env: Environment)
    requires SameResolution(a, b, env.roleLookup)
    ensures Permanent(assignments, keys, a, env) == Permanent(assignments, keys, b, env)
    decreases |assignments|
  {
    if assignments != [] {
      PermanentCongruent(assignments[..|assignments| - 1], keys, a, b, env);
      assert RoleOf(a, env, assignments[|assignments| - 1].roleDefinitionId) == RoleOf(b, env, assignments[|assignments| - 1].roleDefinitionId);
    }
  }

  lemma {:induction false} StaleCongruent(es: seq<EligibilitySchedule>, keys: set<Key>,
                                          a: map<string, string>, b: map<string, string>, env: Environment)
    requires SameResolution(a, b, env.roleLookup)
    ensures Stale(es, keys, a, env) == Stale(es, keys, b, env)
    decreases |es|
  {
    if es != [] {
      StaleCongruent(es[..|es| - 1], keys, a, b, env);
      assert RoleOf(a, env, es[|es| - 1].roleDefinitionId) == RoleOf(b, env, es[|es| - 1].roleDefinitionId);
    }
  }

  lemma {:induction false} LongActivationsCongruent(inst: seq<ScheduleInstance>,
                                                    a: map<string, string>, b: map<string, string>, env: Environment)
    requires SameResolution(a, b, env.roleLookup)
    ensures LongActivations(inst, a, env) == LongActivations(inst, b, env)
    decreases |inst|
  {
    if inst != [] {
      LongActivationsCongruent(inst[..|inst| - 1], a, b, env);
      assert RoleOf(a, env, inst[|inst| - 1].roleDefinitionId) == RoleOf(b, env, inst[|inst| - 1].roleDefinitionId);
    }
  }

  lemma {:induction false} PrivilegedCountCongruent(roleIds: seq<Field>,
                                                    a: map<string, string>, b: map<string, string>, env: Environment)
    requires SameResolution(a, b, env.roleLookup)
    ensures PrivilegedCount(roleIds, a, env) == PrivilegedCount(roleIds, b, env)
    decreases |roleIds|
  {
    if roleIds != [] {
      PrivilegedCountCongruent(roleIds[..|roleIds| - 1], a, b, env);
      assert RoleOf(a, env, roleIds[|roleIds| - 1]) == RoleOf(b, env, roleIds[|roleIds| - 1]);
    }
  }

  lemma AuditCongruent(snap: Snapshot, a: map<string, string>, b: map<string, string>, env: Environment)
    requires SameResolution(a, b, env.roleLookup)
    ensures Audit(snap, a, env) == Audit(snap, b, env)
  {
    var inst := InWindow(snap.instances, env);
    var keys := InstanceKeys(inst);
    PermanentCongruent(snap.assignments, keys, a, b, env);
    StaleCongruent(snap.eligibilities, keys, a, b, env);
    LongActivationsCongruent(inst, a, b, env);
    PrivilegedCountCongruent(RoleIds(snap.assignments, (a: RoleAssignment) => a.roleDefinitionId), a, b, env);
    PrivilegedCountCongruent(RoleIds(snap.eligibilities, (e: EligibilitySchedule) => e.roleDefinitionId), a, b, env);
  }

  /** A second run with the same inputs, over the cache a first run left behind
      (grown from the bulk-loaded cache of the first run), gives the same report. */
  lemma RerunIdentical(snap: Snapshot, defs: Option<seq<RoleDefinition>>, env: Environment,
                       first: map<string, string>, left: map<string, string>)
    requires Grown(BulkLoaded(first, defs), left, env.roleLookup)
    ensures Audit(snap, BulkLoaded(left, defs), env) == Audit(snap, BulkLoaded(first, defs), env)
  {
    GrownThroughBulkLoad(BulkLoaded(first, defs), left, defs, env.roleLookup);
    BulkLoadIdempotent(first, defs);
    GrownSameResolution(BulkLoaded(first, defs), BulkLoaded(left, defs), env.roleLookup);
    AuditCongruent(snap, BulkLoaded(first, defs), BulkLoaded(left, defs), env);
  }
}
