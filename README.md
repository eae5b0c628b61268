# PIM audit classification, modelled in Dafny

This project models the core of a Privileged Identity Management (PIM) audit
bot. The bot reads three collections from an identity directory:

- role assignments (standing grants),
- role eligibility schedules (the right to activate a role),
- role assignment schedule instances (one activation window each).

From these it derives three violation lists and a set of summary counts:

- **permanent**: privileged assignments whose `(principalId, roleDefinitionId)`
  key has no activation that started in the last `WINDOW_DAYS` (30) days;
- **stale**: privileged eligibilities whose key has no such activation;
- **long activations**: privileged in-window activations that ran longer than
  `MAX_ACTIVATION_HOURS` (8) hours.

A role is privileged when its resolved display name is one of the eight names
in `PRIV_ROLES`. Role names come from a process-wide cache keyed by the
role-definition id. A bulk listing fills the cache first. After that, each
miss is answered by a single-role fetch, whose result is cached when it
succeeds. When the fetch fails, the raw id stands in for the name.

Files:

- `records.dfy` (module `Records`): the directory records, the join key,
  `PRIV_ROLES` and the policy constants. A record field is an `Option<string>`,
  because the source reads every field with a lookup that may find nothing.
  `Truthy` is the source's emptiness test on such a field.
- `role_names.dfy` (module `RoleNames`): the cache as a class
  `RoleNameCache`, with a `map` field that `LoadAll` and `RoleName` update in
  place. `Resolve` is the pure specification of one resolution. `Grown` is the
  relation "this cache only added entries the fetch gives". The single-role
  fetch is modelled as giving one fixed answer per id for the whole process.
  Under that model, `Grown` makes role resolution a fixed function during a run.
  `ResolveAll` is the cache after resolving a sequence of ids in turn.
- `classification.dfy` (module `Classification`): the classification as
  functions (`InWindow`, `InstanceKeys`, `Permanent`, `Stale`,
  `LongActivations`, `PrivilegedCount`, `Audit`) and the lemmas about them.
- `audit_run.dfy` (module `AuditRun`): the loops of the main routine as
  methods. Each loop calls `RoleName` on the shared cache and appends to its
  list. Each is proved to compute the corresponding function, using the role
  names of the cache right after the bulk load. Each also states the cache it
  leaves: every id whose fetch succeeds is cached, and no other key is added.

Timestamps are abstracted. The clock reading `now`, the ISO-8601 parser (to
integer seconds), the single-role fetch and the user-principal-name lookup are
all fields of `Classification.Environment`. With integer seconds, "more than
8 hours" becomes `end - start > 8 * 3600`. The window start is `now - 30 * 86400`,
and the window bound is inclusive.

Details of the code that the model keeps:

- The bulk load runs once per run, after the window filter (src/pim_audit.py:194).
- The bulk listing maps a definition with no `displayName` to `""`. The
  single-role fetch falls back to the id instead.
- The metric labelled as a 90-day stale count uses the same 30-day window as
  every other rule. `STALE_ELIGIBILITY_DAYS` is only a label.
- The key set for the stale rule is computed a second time from the same
  in-window instances. `RunAudit` does the same, and the two sets are equal.

## Model

| member | source | states |
|---|---|---|
| `RoleNames.RoleNameCache.constructor` | src/pim_audit.py:147 | The cache starts empty. |
| `RoleNames.Resolve` | src/pim_audit.py:157-169 | An empty or absent id resolves to `""`. A missed id whose fetch fails resolves to the raw id. A set id resolves to `""` only when the cache or the fetched displayName holds `""`. |
| `RoleNames.DefinitionTable` | src/pim_audit.py:152 | The bulk table exists iff every listed definition has an id. Its keys are exactly the listed ids. |
| `RoleNames.LastDefinitionWins` | src/pim_audit.py:152 | For an id listed several times, the table holds the displayName (or `""`) of its last listing. |
| `RoleNames.RoleNameCache.LoadAll` | src/pim_audit.py:149-155 | A failed listing, or a definition without an id, leaves the cache unchanged. Otherwise the table's entries overwrite the cache, and the cache's keys become the old keys plus the listed ids. |
| `RoleNames.BulkLoadIdempotent` | src/pim_audit.py:149-155 | Loading the same listing twice gives the same cache as loading it once. |
| `RoleNames.BulkLoaded` | src/pim_audit.py:149-155 | The bulk load keeps every key of the cache. Each new key is an id of the listing. A failed listing, or a definition without an id, leaves the cache as it was. An entry whose id is not listed keeps its name. |
| `RoleNames.RoleNameCache.RoleName` | src/pim_audit.py:157-169 | An empty or absent id gives `""`, cache unchanged. A cached id gives the cached name, cache unchanged. A miss with a successful fetch gives the fetched displayName (or the id when that field is absent) and adds exactly that entry. A miss with a failed fetch gives the id, cache unchanged. The result is `Resolve` of the old cache, and the new cache is `Grown` from the old. |
| `RoleNames.ResolveStable` | src/pim_audit.py:157-169 | A cache grown by resolutions resolves every id exactly as the cache it grew from. With a fetch that gives one fixed answer per id, repeated resolution always gives the same answer. |
| `RoleNames.GrownTransitive` | src/pim_audit.py:157-169 | Growth by resolutions composes across any number of calls. |
| `RoleNames.GrownThroughBulkLoad` | src/pim_audit.py:149-169 | Loading the same listing over a grown cache gives a cache grown from the first load's result. |
| `RoleNames.ResolveAllCaches` | src/pim_audit.py:157-169 | After a sequence of `role_name` calls, the cache keeps every entry it had. It holds every set id whose fetch succeeded. Every key it gained is one of the ids resolved. |
| `RoleNames.ResolveAllAppend` | src/pim_audit.py:157-169 | Resolving `a` and then `b` leaves the cache as resolving `a + b` in one go. |
| `Classification.ParseTime` | src/pim_audit.py:186-189 | An absent or empty timestamp gives no time. A set one gives whatever the parser gives. |
| `Classification.StartsInWindow` | src/pim_audit.py:186-191 | An instance is in the window only when its start is set and parses. A start exactly at `now - WINDOW_DAYS` is in the window (the bound is inclusive). A start one second earlier is not. |
| `Classification.InWindow` | src/pim_audit.py:183-191 | An instance is kept iff its start is set, parses, and is at or after `now - WINDOW_DAYS` (inclusive). Missing or unparseable starts are dropped. The result is no longer than the input. |
| `Classification.InWindowAppend` | src/pim_audit.py:191 | The window filter distributes over concatenation, so it keeps input order. |
| `Classification.InstanceKeys` | src/pim_audit.py:204 | The key set holds the key of every in-window instance and has no more keys than there are instances. |
| `Classification.InstanceKeysAppend` | src/pim_audit.py:204 | The key set of a concatenation is the union of the key sets, so neither order nor repetition matters. |
| `Classification.Upn` | src/pim_audit.py:196-202 | An empty or absent principal id gives `""`. A failed lookup falls back to the raw principal id. |
| `Classification.Permanent` | src/pim_audit.py:204-218 | At most one record per assignment. Every record carries a role name in `PRIV_ROLES`. |
| `Classification.PermanentExact` | src/pim_audit.py:204-218 | Every assignment whose role is privileged and whose key is not in the in-window key set has its record in the list. Every record in the list comes from such an assignment. |
| `Classification.PermanentAppend` | src/pim_audit.py:206-218 | The list over `a + b` is the list over `a` followed by the list over `b`. So the list has one record per qualifying assignment, in input order. |
| `Classification.Stale` | src/pim_audit.py:220-233 | At most one record per eligibility. Every record carries a role name in `PRIV_ROLES`. |
| `Classification.StaleExact` | src/pim_audit.py:220-233 | An eligibility is in the stale list iff its role is privileged and its key is not in the in-window key set, in both directions as for `PermanentExact`. |
| `Classification.StaleAppend` | src/pim_audit.py:221-233 | The stale list distributes over concatenation: one record per qualifying eligibility, in input order. |
| `Classification.Duration` | src/pim_audit.py:239-244 | There is a duration iff both timestamps are set and parse. It is end minus start, in seconds. |
| `Classification.LongActivations` | src/pim_audit.py:235-254 | At most one record per instance. Every record has a privileged role name and a duration above `MAX_ACTIVATION_HOURS * 3600` seconds. |
| `Classification.LongActivationsAppend` | src/pim_audit.py:235-254 | The long-activation list distributes over concatenation, so it keeps input order. |
| `Classification.LongActivationsExact` | src/pim_audit.py:183-254 | A fetched instance is reported iff it starts in the window, its role is privileged, both its start and end are set and parse, and end - start exceeds 8 hours. Every other instance is skipped. |
| `Classification.AddedKeyRetiresAssignments` | src/pim_audit.py:204-211 | Adding key K to the key set gives the same permanent list as removing every assignment with key K. Nothing else changes. |
| `Classification.AddedKeyRetiresEligibilities` | src/pim_audit.py:220-226 | Adding key K to the key set gives the same stale list as removing every eligibility with key K. |
| `Classification.InWindowInsert` | src/pim_audit.py:191 | An in-window instance inserted anywhere among the fetched instances is kept at that place by the window filter. |
| `Classification.InstanceKeysInsert` | src/pim_audit.py:204 | Inserting an instance anywhere in a sequence adds exactly its key to the key set. |
| `Classification.InsertedActivationKeys` | src/pim_audit.py:191-204 | Inserting an in-window instance anywhere among the fetched instances adds exactly its key to the in-window key set. |
| `Classification.NewActivationRetiresKey` | src/pim_audit.py:191-233 | One more fetched instance that starts in the window, inserted at any position, removes from the permanent and stale lists exactly the records of assignments and eligibilities with its key. |
| `Classification.PrivilegedCount` | src/pim_audit.py:259-260 | The number of privileged role ids is at most the number of ids. |
| `Classification.PrivilegedCountAppend` | src/pim_audit.py:259-260 | The count over `a + b` is the count over `a` plus the count over `b`. |
| `Classification.PermanentWithinPrivileged` | src/pim_audit.py:259-262 | `permanent_privileged_assignments <= active_privileged_assignments`. |
| `Classification.StaleWithinPrivileged` | src/pim_audit.py:260-263 | `stale_eligibilities_90d <= eligible_privileged_users`. |
| `Classification.NoActivationsAllPermanent` | src/pim_audit.py:204-259 | With no in-window instance, every privileged assignment is reported permanent: the two counts are equal. |
| `Classification.Audit` | src/pim_audit.py:183-265 | The metrics of one run: the three list counts equal the list lengths. Permanent is at most active privileged assignments, stale is at most eligible privileged users, and long activations are at most the in-window activations, which are at most the fetched instances. |
| `Classification.EmptySnapshot` | src/pim_audit.py:256-265 | Three empty collections give three empty lists and all-zero counts. |
| `Classification.PermanentCongruent` | src/pim_audit.py:208-218 | Two caches that resolve every id alike give the same permanent list. |
| `Classification.StaleCongruent` | src/pim_audit.py:223-233 | Two caches that resolve every id alike give the same stale list. |
| `Classification.LongActivationsCongruent` | src/pim_audit.py:237-252 | Two caches that resolve every id alike give the same long-activation list. |
| `Classification.PrivilegedCountCongruent` | src/pim_audit.py:259-260 | Two caches that resolve every id alike give the same counts. |
| `Classification.AuditCongruent` | src/pim_audit.py:183-265 | Two caches that resolve every id alike give the same report. |
| `Classification.RerunIdentical` | src/pim_audit.py:194-265 | A second run on the same inputs, over the cache the first run left, gives the same report as the first run. |
| `AuditRun.ResolveFrom` | src/pim_audit.py:157-169 | A `role_name` call on a cache grown from `base` answers as `base` does, and the cache stays grown from `base`. |
| `AuditRun.ResolveNext` | src/pim_audit.py:157-169 | The j-th `role_name` call of a loop moves the cache from the fold over the first j ids to the fold over the first j + 1. It answers as the cache after the bulk load does. |
| `AuditRun.CollectPermanent` | src/pim_audit.py:206-218 | The permanent loop computes `Permanent` with the role names of the cache as the loop starts, although each call may grow the cache. The cache afterwards is `ResolveAll` over the assignments' role ids: it holds every id whose fetch succeeded, and it gained no other key. |
| `AuditRun.CollectStale` | src/pim_audit.py:221-233 | The stale loop computes `Stale` with the role names of the cache as the loop starts. The cache afterwards is `ResolveAll` over the eligibilities' role ids, with the same two clauses. |
| `AuditRun.ActivationRow` | src/pim_audit.py:238-254 | One instance gives a row iff its role is privileged, both timestamps are set and parse, and they are more than 8 hours apart. The row is `LongRow`. |
| `AuditRun.CollectLongActivations` | src/pim_audit.py:235-254 | The long-activation loop computes `LongActivations`, skipping instances with missing or unparseable timestamps. The cache afterwards is `ResolveAll` over the instances' role ids, with the same two clauses. |
| `AuditRun.CountPrivileged` | src/pim_audit.py:259-260 | Each metrics sum computes `PrivilegedCount` with the role names of the cache as the sum starts. The cache afterwards is `ResolveAll` over the summed ids, with the same two clauses. |
| `AuditRun.RunAudit` | src/pim_audit.py:183-265 | One run's report is `Audit` of the inputs, using the cache after the bulk load. The cache afterwards is `ResolveAll`, from the loaded cache, over every role id the run resolves, in order (`RunRoleIds`). It holds each of those ids whose fetch succeeded, and no other new key. |
| `AuditRun.RunTwice` | src/pim_audit.py:172-265 | Two runs over the same inputs that share one cache produce identical reports. |

## Left out

- Credential loading and token acquisition (src/pim_audit.py:17-53): these are process configuration and a foreign authentication library.
- Paginated fetching with throttling backoff (src/pim_audit.py:56-78): this is network I/O. Each fetched collection is an input sequence. The bulk role-definition listing is `Option<seq<RoleDefinition>>`, where `None` stands for a listing that raised.
- Ticketing self-check and ticket creation (src/pim_audit.py:81-132, 279-292): these are network calls to an external service.
- Snapshot JSON and CSV export (src/pim_audit.py:267-276): file I/O through libraries. `Report` holds what would be written.
- The metrics `timestamp` and the sorted role list (src/pim_audit.py:257-258): these depend on the wall clock and on library string sorting.
- ISO-8601 parsing (src/pim_audit.py:186-189, 242-243) is an opaque parameter `parse: string -> Option<int>`, giving whole seconds. Sub-second precision is not modelled.
- A timestamp without a UTC offset parses to a naive datetime. Comparing it with the aware window start raises a `TypeError` that aborts the run. The model assumes `parse` returns a value only for offset-bearing timestamps, so this crash is not modelled.
- Classification.LongActivations: keeps the duration as whole seconds, not as hours rounded to two decimals, because float rounding is not modelled. The "> 8 hours" test is exact on integer seconds.
- Classification.Upn: the user-principal-name request (src/pim_audit.py:196-202) is a fixed function parameter `upnLookup`. Its network behaviour is not modelled.
- The single-role fetch is a fixed function `RoleLookup`: the model assumes it gives the same answer for an id for the whole process. `role_name` (src/pim_audit.py:157-169) caches only successes. So in the source, a transient failure followed by a success can resolve one id two ways in one run, once as the raw id and later as its displayName. The model does not capture that.
- A `displayName` present with a JSON `null` value, or a record field holding a non-string value, is not modelled. Every field is an absent-or-string `Option<string>`.
