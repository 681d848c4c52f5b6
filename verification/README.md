# sandcastle-admin policy engine, in Dafny

`sandcastle-admin` keeps the egress policy of workspaces in a database, compiles it into two
enforcement configurations (an Envoy snapshot for proxied hosts, Cilium network policies for DNS
names) and runs a loop that keeps both up to date. This project models those parts and proves that
the indirect way in which the code gets there agrees with the simple meaning of the policy.

| file | what it holds |
|---|---|
| `Text.dfy` | suffixes, string order, sorting and its uniqueness |
| `Names.dfy` | `ValidName`: a regular expression semantics and the label grammar it denotes |
| `Policy.dfy` | `Effective`, `HostIPs` with its in-place wildcard merge |
| `Xds.dfy`, `Enforcement.dfy` | `Build`, an evaluator for what Envoy does with the result, and the theorems joining them |
| `Cilium.dfy`, `Apply.dfy` | `Render` with selector semantics; `Apply` against a cluster whose calls fail |
| `Store.dfy`, `StoreInvariant.dfy`, `Replay.dfy` | the transactions as atomic steps, what every run keeps, and the audit log as a complete record |
| `Schema.dfy`, `Database.dfy` | the schema's constraints on whole tables; the store's methods as statements that write, may violate a constraint or break off at any point, and are rolled back as a whole |
| `Loading.dfy`, `LoadOrder.dfy` | `PolicyInput`, what time and expiry do to it, and its independence of row order |
| `Effects.dfy` | when each transaction succeeds and what it does to every workspace's zone and effective rules |
| `Authority.dfy`, `Access.dfy` | parsing of authorities; request lifecycle, conservation of grants, from denial to access |
| `Denials.dfy`, `Throttle.dfy` | the capped denials table and the bounded throttle |
| `Reconciler.dfy` | the wake-up loop as interleaved steps |
| `Pipeline.dfy` | `apply`: load, compile, push, render, reconcile |

`dafny verify dfyconfig.toml` checks the whole project.

Conventions. Go map iteration is an arbitrary choice (`:|`) from the keys not yet visited. The
truncated SHA-256 is a function parameter; where names must not clash, collision-freedom on the
preimages in play is a hypothesis. In `Store` a transaction is one atomic step at one clock reading, which `Database` justifies.
Clock readings, new identifiers and the outcomes of remote calls and SQL statements are parameters
or arbitrary choices. Induction is always written out: wherever Dafny would induct on its own the
lemma carries `{:induction false}`.

What came out beyond confirmation:

- The wildcard merge depends on validation: coverage is not transitive for a host such as
  `**.a.io` (`Policy.AdmitsCounterexample`), and with such a key the merged sets differ with the
  iteration order (`Policy.MergeOrderMatters`). `Effective` drops invalid rules first, and then they
  do not (`Policy.MergeWildcards`).
- A tunnel to port 80 and a plain request to port 443 are refused whatever the rules say, yet the
  403 offers a request link. Approving it opens the port for the other method only
  (`Enforcement.HostAccessIsPolicy`, second clause; `Access.DenialToAccess`).
- A second Apply writes nothing exactly when no two desired objects of one name differ; `Render`
  always meets that (`Apply.Reconcile`, `Apply.RenderedPoliciesAgree`).
- RecordDenial can drop the very row it records: exactly when the workspace is at the cap and no
  row of it comes after the new one in the order last_seen descending, host (`Denials.NewRowMayGo`;
  `Denials.NewRowGoes` is such a run). The promise that a workspace keeps its newest 200 rows still
  holds, since a dropped row, the new one included, is never newer than a kept one
  (`Denials.EvictionIsFair`).

## Model

| member | source | states |
|---|---|---|
| Names.ValidNameIsPattern | admin/internal/policy/policy.go:39-43 | the regular expression, over all ways of splitting the text, with the length bound accepts exactly the label grammar: optional `*.`, at least two labels of 1-63 letters, digits and inner hyphens, an alphabetic last label of 2-63 |
| Names.ValidNameShape | admin/internal/policy/policy.go:39-43 | a valid name holds no colon, comma, bar or inner star, ends in a letter (so is no address literal), and a wildcard stands over a valid name of its own |
| Policy.ComputeEffective | admin/internal/policy/policy.go:64-77 | the loop yields zone rules then grants of one kind, valid ones only |
| Policy.Invert | admin/internal/policy/policy.go:86-98 | before merging, an address is under a key iff a pod with it has an effective rule with that key |
| Policy.AdmitsTransitive | admin/internal/policy/policy.go:99-108 | coverage between valid keys is transitive, which the merge of already enlarged sets relies on |
| Policy.AdmitsCounterexample | admin/internal/policy/policy.go:99-108 | without validation it is not: `**.a.io` covers `*.a.io` covers `x.a.io` |
| Policy.MergeOrderMatters | admin/internal/policy/policy.go:99-111 | and then two complete merges that visit the wildcards in different orders leave different addresses under `x.a.io` |
| Policy.MergeOne | admin/internal/policy/policy.go:104-110 | merging one wildcard, in any key order, keeps every set between its original and its final value and delivers that wildcard's addresses |
| Policy.MergeWildcards | admin/internal/policy/policy.go:99-111 | in any iteration order the final addresses of a key are the union of the original ones of all keys that cover it; no key appears or vanishes |
| Policy.ComputeHostIPs | admin/internal/policy/policy.go:79-120 | keys are exactly those of effective rules; each lists, ascending and once, the addresses of exactly the pods with a rule covering the key |
| Policy.HostIPsUnique | admin/internal/policy/policy.go:79-120 | the result does not depend on iteration order |
| Policy.HostIPsValid | admin/internal/policy/policy.go:79-98 | only valid keys, non-empty lists, no empty address |
| Xds.Build | admin/internal/xds/build.go:56-110 | refuses a URL with `%`, else emits the one configuration determined by the map, in key order |
| Enforcement.LooserAdmitsTighter | admin/internal/policy/policy.go:79-84 | of two domains fitting one authority the looser one's key covers the tighter one's |
| Enforcement.PickIsTightest | admin/internal/xds/build.go:77-110 | the virtual host Envoy picks belongs to the tightest fitting key, or is the catch-all when none fits |
| Enforcement.Stage1IsPolicy | admin/internal/xds/build.go:71-110 | for every input, source address, method and authority text the built configuration lets the request through iff some pod with that address has an effective rule serving it |
| Enforcement.HostAccessIsPolicy | admin/internal/policy/policy.go:79-120 | for an exact host on 443 by tunnel or 80 plainly: allowed iff an effective rule of that port covers it; with the other method never |
| Enforcement.PreimageInjective | admin/internal/xds/build.go:154-157 | the hashed text determines key and comma-free address list |
| Enforcement.ResourceNamesDistinct | admin/internal/xds/build.go:71-104 | listeners, clusters and virtual hosts have distinct names, given a collision-free hash |
| Enforcement.TunnelChain | admin/internal/xds/build.go:78-98 | each tunnel route's cluster exists and leads to the listener built for the same key |
| Enforcement.RoutesResolve | admin/internal/xds/build.go:71-104 | whatever stage 1 lets through has an existing target: plain requests the dynamic forward proxy, tunnels their own stage 2 listener, which dials 443 through an existing cluster |
| Enforcement.DomainsDisjoint | admin/internal/xds/build.go:77-110 | no domain, the catch-all included, is listed by two virtual hosts |
| Enforcement.TunnelSound | admin/internal/xds/build.go:216-240 | a handshake that passes both stages names a server covered by an effective 443 rule of that address, whatever authority the tunnel was opened for |
| Enforcement.TunnelComplete | admin/internal/xds/build.go:216-240 | with SNI equal to the authority's host both stages pass iff a 443 rule covers it |
| Enforcement.ListenerSurvivesIffUnchanged | admin/internal/xds/build.go:1-7 | across two builds a stage 2 listener or cluster name survives iff its key keeps exactly its addresses; the proxy listener never changes |
| Cilium.ComputeDnsRules | admin/internal/cilium/cilium.go:90-103 | the loop yields the valid DNS rules in order, wildcards as patterns |
| Cilium.SplitAssignments | admin/internal/cilium/cilium.go:36-44 | in any order, groups the explicit members by zone and lists everybody outside the default zone |
| Cilium.RenderZone | admin/internal/cilium/cilium.go:47-67 | one zone's policy, or none when it has no rules or no members |
| Cilium.Render | admin/internal/cilium/cilium.go:32-76 | the output is the emitted zone and grant policies, strictly ascending by name |
| Cilium.RenderUnique | admin/internal/cilium/cilium.go:35-76 | the output does not depend on iteration order |
| Cilium.RenderNamesDistinct | admin/internal/cilium/cilium.go:67-74 | no two policies share a name |
| Cilium.ZoneSelectsItsWorkspaces | admin/internal/cilium/cilium.go:52-66 | a zone's policy selects exactly the labelled pods whose zone it is |
| Cilium.RenderedPoliciesAreSafe | admin/internal/cilium/cilium.go:32-34 | no empty rule list, which would allow every name, no selector without values, and stars in patterns only |
| Cilium.RenderIsPolicy | admin/internal/cilium/cilium.go:35-103 | the names a labelled pod may resolve are exactly the images of its effective DNS rules; an unlabelled pod gets none |
| Cilium.RuleResolvesIffEffective | admin/internal/cilium/cilium.go:90-103 | on rules: a valid DNS rule is among them iff it is effective for the workspace, since no two rules have one image |
| Apply.UpsertOne | admin/internal/cilium/cilium.go:138-158 | one object is created, updated, left or blamed; the error is that of a call that failed, or names an object of another owner; objects of others stay as they are |
| Apply.Prune | admin/internal/cilium/cilium.go:163-170 | every managed object not wanted is gone or reported; wanted ones are untouched |
| Apply.Reconcile | admin/internal/cilium/cilium.go:131-171 | under arbitrary call failures: unmanaged objects never change, no error means the managed objects are the wanted ones, each wanted object is in place or blamed, each stale one is gone or reported, an error-free pass writes nothing iff the cluster was settled, and the errors are exactly the failed calls, in order, plus objects of other owners under desired names; with neither there is none |
| Apply.RenderedPoliciesAgree | admin/internal/cilium/cilium.go:35-76 | rendered policies never contradict each other, so a second pass after success is silent |
| Store.LogOnlyGrows | admin/internal/store/store.go:192-195 | the log is only appended to, and every change appends |
| Store.NewRowsAreSigned | admin/internal/store/store.go:192-195 | every audit row carries the actor and time of the transaction that wrote it |
| StoreInvariant.StepKeeps | admin/internal/store/zones.go:67-245 | every transaction, whatever its arguments, keeps: valid rules owned by exactly one of zone and workspace, grants expiring and zone rules not, well-formed unique zone names, unique zone rules, at most one default zone, assignments to existing non-default zones, valid requests with at most one pending per destination |
| StoreInvariant.RunKeeps | admin/internal/store/requests.go:27-84 | so it holds in every state reachable from the empty database |
| StoreInvariant.SeededRunIsReady | admin/internal/store/store.go:95-113 | after Seed there is exactly one default zone, in every run |
| Replay.LogRebuildsState | admin/internal/store/store.go:188-195 | in every run, folding the audit log alone rebuilds zones, default flag, zone rules, assignments, request statuses and the multiset of outstanding grants |
| Replay.StepExplains | admin/internal/store/zones.go:67-213 | each transaction's one audit row accounts for the whole change it made |
| Replay.ExpireGrantsView | admin/internal/store/zones.go:224-245 | expiry removes from the view exactly the expired grants, leaving zone rules alone |
| Schema.InvMeets | admin/internal/store/migrations/001_init.sql:4-47 | tables that satisfy the invariant satisfy every CHECK, UNIQUE and REFERENCES clause |
| Schema.ZoneInserted | admin/internal/store/migrations/001_init.sql:4-10 | an inserted zone leaves tables that violate the schema exactly when its name is malformed (invalid) or its id or name is taken (conflict) |
| Schema.RowInserted | admin/internal/store/migrations/001_init.sql:12-25 | an inserted rule row of proper kind, port and owner violates the schema exactly when its zone is missing or already has that rule |
| Schema.RequestWritten | admin/internal/store/migrations/001_init.sql:35-47 | a written request violates the schema exactly when port or justification length is out of range or its id is taken |
| Schema.DefaultMoved | admin/internal/store/migrations/001_init.sql:10 | clearing all flags, setting one and dropping the explicit rows never violates the schema, and together moves the flag |
| Database.Database.Transact | admin/internal/store/store.go:188-195 | whichever statement, audit insert or commit breaks off, a call ends as its atomic step, or with an error and tables and log exactly as before; every error means the latter, and if nothing breaks off it is exactly the step |
| Database.FailuresLeaveNoTrace | admin/internal/store/store.go:188-195 | after any run of calls under arbitrary failures the database is where the calls that did not break off would have taken it on their own |
| Database.FaultyRunKeeps | admin/internal/store/store.go:1-2 | so under arbitrary failures, in every run from the empty database, the invariant holds and the log alone rebuilds the tables |
| Database.Database.CopyRules | admin/internal/store/zones.go:86-89 | the inserting SELECT copies exactly the rows selected before the first insert, or the schema raises |
| Database.Database.DeleteZoneRow | admin/internal/store/zones.go:117-119 | deletes the zone and, by cascade, exactly its rules |
| Database.Database.DeleteRuleRow | admin/internal/store/zones.go:158-160 | the scan deletes and returns the one row with that id, or none |
| Database.Database.DeleteExpired | admin/internal/store/zones.go:227-234 | one scan deletes and returns exactly the grants that are due |
| Database.Database.SeedDefault | admin/internal/store/store.go:95-113 | unless it breaks off, carries out the Seed step: no constraint can refuse the seed |
| Database.Database.AddZone | admin/internal/store/zones.go:67-75 | inserts, then lets name and uniqueness constraints raise; replies and, if it succeeds, changes the tables as the CreateZone step |
| Database.Database.CopyZone | admin/internal/store/zones.go:77-93 | inserts zone and copies; no copy can violate a constraint; the CloneZone step |
| Database.Database.SetZoneName | admin/internal/store/zones.go:95-102 | updates, then lets constraints raise; no row updated means not found; the RenameZone step |
| Database.Database.RemoveZone | admin/internal/store/zones.go:104-122 | the guards leave no foreign key to violate; the DeleteZone step, rules cascading |
| Database.Database.MakeDefault | admin/internal/store/zones.go:124-138 | clears all flags before it knows whether the zone exists; the SetDefaultZone step if it does |
| Database.Database.AddRule | admin/internal/store/zones.go:140-151 | a missing zone and a duplicate rule surface as violated constraints; the AddZoneRule step |
| Database.Database.RemoveRule | admin/internal/store/zones.go:153-167 | deletes by scan and audits what it deleted; the DeleteRule step |
| Database.Database.AssignZone | admin/internal/store/zones.go:169-192 | deletes or upserts by the default flag; no foreign key is violated; the Assign step |
| Database.Database.AddGrant | admin/internal/store/zones.go:194-213 | a valid grant never violates a constraint; the Grant step |
| Database.Database.ExpireDue | admin/internal/store/zones.go:224-245 | one audit row per deleted grant; the ExpireGrants step |
| Database.Database.File | admin/internal/store/requests.go:25-44 | whichever pending row the query finds is the only one; the FileRequest step, constraint errors included |
| Database.Database.Settle | admin/internal/store/requests.go:60-84 | updates the status before the grant is validated; the Decide step |
| Database.Database.Load | admin/internal/store/store.go:115-170 | if none of the three queries fails, the loops build exactly the policy of live rows, zones and assignments |
| Loading.EffectiveRows | admin/internal/store/store.go:138-154 | a workspace's effective rules are exactly the live rows of its zone and its own grants |
| Loading.ExpiryIsInvisible | admin/internal/store/store.go:115-117 | deleting grants expired by t changes no load at t or later |
| LoadOrder.OrderedUnique | admin/internal/store/store.go:138-139 | a list ordered by kind, value and port is determined by its elements with multiplicity, ties included |
| LoadOrder.LoadIgnoresRowOrder | admin/internal/store/store.go:138-154 | the same rows stored in any order load the same policy, down to the order of each list, so an unchanged policy is never rewritten |
| Loading.ZoneAlwaysExists | admin/internal/policy/policy.go:56-62 | in a seeded database every workspace's zone exists |
| Loading.SetDefaultMovesTheRest | admin/internal/store/zones.go:124-138 | a new default moves exactly the workspaces without an explicit row |
| Effects.CreateZoneEffect | admin/internal/store/zones.go:67-75 | succeeds iff the name matches the schema's expression and id and name are new; adds an empty zone and changes nobody's zone or rules |
| Effects.CloneZoneEffect | admin/internal/store/zones.go:77-93 | succeeds iff also the source exists; the clone has exactly its source's rules and changes nobody's |
| Effects.RenameZoneEffect | admin/internal/store/zones.go:95-102 | succeeds iff the zone exists, the name is well-formed and no other zone has it; changes the name only |
| Effects.DeleteZoneEffect | admin/internal/store/zones.go:104-122 | succeeds iff the zone exists, is not the default and has no assigned workspace; then zone and rules are gone and nobody's zone or rules change |
| Effects.SetDefaultZoneEffect | admin/internal/store/zones.go:124-138 | succeeds iff the zone exists; moves exactly the workspaces without an explicit row |
| Effects.AssignEffect | admin/internal/store/zones.go:169-192 | succeeds iff the zone exists; that workspace is then in that zone and every other where it was |
| Effects.AddZoneRuleSucceeds | admin/internal/store/zones.go:140-151 | succeeds iff kind, port and label grammar fit, the zone exists and does not have the rule; which error otherwise |
| Effects.AddZoneRuleEffect | admin/internal/store/zones.go:140-151 | the rule becomes effective for exactly the workspaces in that zone, at every time |
| Effects.GrantSucceeds | admin/internal/store/zones.go:198-201 | succeeds iff kind, port and label grammar fit and the time is positive |
| Effects.GrantEffect | admin/internal/store/zones.go:194-213 | the rule becomes effective for exactly that workspace, in exactly the loads before now plus TTL |
| Effects.DeleteRuleEffect | admin/internal/store/zones.go:153-167 | succeeds iff a row has the id; afterwards a rule is effective iff some other row gives it |
| Effects.ExpireGrantsEffect | admin/internal/store/zones.go:224-245 | removes exactly the workspace rows whose expiry has come and replies with their number |
| Effects.CountedIsEffective | admin/internal/store/store.go:138-154 | a rule is carried by a row that counts for a workspace at a time iff it is effective for it in a load at that time |
| Effects.SeedEffect | admin/internal/store/store.go:95-113 | in a database without zones: everybody is in the new zone and gains exactly example.com on 443 and 80 |
| Effects.SeedOnce | admin/internal/store/store.go:98-101 | with zones it does nothing |
| Effects.FilingSucceeds | admin/internal/store/requests.go:25-44 | filing succeeds iff the host is in the label grammar, the port is 80 or 443, and the request is waiting already or the justification has 1 to 2000 characters and the id is new |
| Effects.FilingEffect | admin/internal/store/requests.go:25-44 | the id in the reply is that of a waiting request for that destination, an earlier one or a new one with requester and justification; nobody's rules change |
| Effects.DecisionEffect | admin/internal/store/requests.go:70-72 | a decision records who, when, which and, for an approval only, the TTL in the one waiting request, and leaves the rest of it and all others alone |
| Effects.ApprovalEffect | admin/internal/store/requests.go:60-84 | approving makes that host and port effective for exactly the request's workspace, in exactly the loads before decision time plus TTL |
| Effects.NoEffect | admin/internal/store/requests.go:79-81 | denying a request and noting a failure change nobody's zone or rules |
| Effects.NewRulesAreSigned | admin/internal/store/zones.go:77-213 | every new rule row names the actor as its creator |
| Authority.ClassifierAndFormAgree | admin/internal/xds/server.go:81-98 | for every authority text, what the access-log classifier records is what the request form reads |
| Authority.CanonicalAuthority | admin/internal/web/web.go:143-152 | name, name:80 and name:443 are read as that host and port by both |
| Authority.AnyCaseAnyPort | admin/internal/xds/server.go:81-98 | a 403 for a valid name in any case, with any decimal port or none, is recorded as the name in lower case and that port or 80, and the form reads it so |
| Authority.OnlyDenialsAreRecorded | admin/internal/xds/server.go:81-98 | only a 403 from a known address for a name in the label grammar is recorded |
| Access.DecisionSucceeds | admin/internal/store/requests.go:60-84 | a decision succeeds iff the request is pending and an approval's time is positive; validation never refuses |
| Access.DecidedAtMostOnce | admin/internal/store/requests.go:60-84 | in every run the log holds one decision for a decided request and none for a pending one |
| Access.DecisionIsFinal | admin/internal/store/requests.go:70-77 | a decided request never changes again |
| Access.RequestsAreDocumented | admin/internal/store/requests.go:41-83 | in every run the log names who filed each request for what, and who decided it, when, for how long and whether on their own request |
| Access.GrantsAreDocumented | admin/internal/store/zones.go:194-213 | in every run each stored grant has a log row with its workspace, rule and creator, whose time plus TTL is its expiry |
| Access.GrantsAreConserved | admin/internal/store/zones.go:153-245 | in every run, grants made by hand or approval equal the outstanding ones plus those revoked or expired, with multiplicity |
| Access.FileThenApprove | admin/internal/store/requests.go:25-84 | filing then approving succeeds for every valid host on 80 or 443 and adds exactly one grant row: same workspace, host, port, expiring at decision time plus TTL |
| Access.GrantAddsAccess | admin/internal/store/zones.go:198-213 | a live grant permits exactly the additional requests its rule serves from that workspace's addresses |
| Access.DenialToAccess | admin/internal/web/web.go:143-152 | a refused name, name:80 or name:443, once filed and approved, changes a build from the tables as approval left them in exactly one way: until decision time plus TTL, and no longer, that workspace's addresses reach that host and port |
| Access.RunSpares | admin/internal/store/zones.go:153-245 | through every later run a grant row is stored iff no transaction deleted it by its id and no expiry found it due |
| Access.AccessLasts | admin/internal/store/requests.go:60-84 | whatever transactions follow the approval, unless one deletes that grant, every build before decision time plus TTL lets the workspace's pods reach the approved host and port |
| Denials.Denials.RecordDenial | admin/internal/store/requests.go:86-106 | throttled upsert, then the cap on the workspace's rows in the query's order |
| Denials.RepeatIsCounted | admin/internal/store/requests.go:93-98 | a stored key's denial more than a second after its last raises the count by one and moves last to now; an earlier one changes nothing |
| Denials.Hindmost | admin/internal/store/requests.go:102-103 | a row ahead of no other in the order last_seen DESC, host |
| Denials.RunBounds | admin/internal/store/requests.go:86-106 | in every run each workspace has at most 200 rows and each row's count is at most one more than the seconds it spans |
| Denials.EvictionIsFair | admin/internal/store/requests.go:86-106 | only the recording workspace loses a row, and no row, the one being recorded included, is newer than a survivor |
| Denials.NewRowMayGo | admin/internal/store/requests.go:86-106 | the capping may drop the row just recorded iff the workspace was at its cap and no row of it comes after the new one in the query's order |
| Denials.NewRowGoes | admin/internal/store/requests.go:86-106 | a run from the empty table, all its hosts valid names: 200 ports of one host, then a later host in the same instant, which is not kept |
| Denials.NewestStays | admin/internal/store/requests.go:86-106 | at most one row goes per call, and the new row stays below the cap and whenever some row comes after it |
| Throttle.Throttle.Allow | admin/cmd/sandcastle-admin/main.go:211-233 | the decision and the pruned or reset map |
| Throttle.Throttle.Prune | admin/cmd/sandcastle-admin/main.go:222-227 | deleting while ranging in any order leaves exactly the entries of the last minute |
| Throttle.RunBounded | admin/cmd/sandcastle-admin/main.go:222-231 | the map never holds more than 10000 keys |
| Throttle.PruningIsInvisible | admin/cmd/sandcastle-admin/main.go:211-233 | with a clock that never goes back, every decision equals that of an unbounded map emptied at the same resets |
| Throttle.TwoAllowsNeedReset | admin/cmd/sandcastle-admin/main.go:211-233 | one key passes twice within a second only with a reset in between |
| Throttle.RefusedMeansRecent | admin/cmd/sandcastle-admin/main.go:211-217 | a call is refused only if the same key was allowed less than a second before |
| Throttle.RememberedForAMinute | admin/cmd/sandcastle-admin/main.go:222-227 | without a reset, a key allowed within the last minute is still remembered |
| Throttle.ResetMeansFlood | admin/cmd/sandcastle-admin/main.go:228-230 | a reset means 10001 distinct keys were allowed within the minute before |
| Reconciler.ActKeeps | admin/cmd/sandcastle-admin/main.go:150-199 | every step of loop, handlers, pods, clock and failures keeps the loop's invariant |
| Reconciler.NoLostWakeUp | admin/cmd/sandcastle-admin/main.go:107-113 | in every interleaving a stale Envoy snapshot implies a queued or owed wake-up, a read or push of the present state still to come, or a failed reconcile to be retried |
| Reconciler.QuietMeansUpToDate | admin/cmd/sandcastle-admin/main.go:180-188 | idle with nothing queued, owed or failed means Envoy and Cilium hold the present tables and pods |
| Reconciler.BurstIsCoalesced | admin/cmd/sandcastle-admin/main.go:180-186 | however many wake-ups arrive before the loop drains the channel, none is left over when the one pass begins |
| Reconciler.EveryScheduleSettles | admin/cmd/sandcastle-admin/main.go:172-199 | from every reachable state every schedule of failure-free steps of the loop and the notifiers, ticks only to retry a failure, is no longer than a bound known beforehand, and where none is left to take both enforcement points are up to date |
| Reconciler.Settles | admin/cmd/sandcastle-admin/main.go:172-199 | and there is such a schedule that runs to its end |
| Reconciler.Refreshes | admin/cmd/sandcastle-admin/main.go:187-188 | and to one whose Envoy and Cilium were built from the tables, pods and time of this moment |
| Reconciler.PolicyIsEnforced | admin/cmd/sandcastle-admin/main.go:235-255 | so every revocation and expiry gets enforced: that Envoy allows exactly the requests, and that Cilium exactly the names, that the policy of this moment permits |
| Reconciler.PermittedEarlier | admin/internal/store/store.go:115-117 | time only takes permissions away, and each one lost was carried by a grant, to the workspace at that address, for a rule serving that request, which is stored and has expired |
| Reconciler.ExpiredRowIsStored | admin/cmd/sandcastle-admin/main.go:189-198 | in every reachable state an expired grant that Envoy was built from is still stored, or a wake-up, a rebuild or a retry is to come |
| Reconciler.ExpiryTickNotifies | admin/cmd/sandcastle-admin/main.go:189-198 | an expiry tick of the idle loop deletes exactly the expired grants and, if there is any, goes on to notify |
| Reconciler.NoStrandedGrant | admin/cmd/sandcastle-admin/main.go:189-198 | in every reachable state, unless a wake-up, a rebuild or a retry is to come, Envoy allows everything permitted now, and whatever it allows beyond that was given by a grant to that address's workspace which is still stored as expired |
| Reconciler.CiliumIsCurrent | admin/cmd/sandcastle-admin/main.go:235-255 | in every reachable state Cilium holds the present tables and pods, or a wake-up, an update or a retry is to come |
| Reconciler.NoStrandedDns | admin/cmd/sandcastle-admin/main.go:189-198 | the same for names: then every DNS rule effective now is resolvable, and one resolvable beyond that was given to the workspace by a grant of that rule which is still stored as expired |
| Pipeline.ApplyOnce | admin/cmd/sandcastle-admin/main.go:235-255 | with load, push and every cluster call free to fail: a failed load or build leaves Envoy and cluster alone, a failed push leaves the cluster alone, each is reported only if a query or the push did fail, Envoy only ever gets a snapshot equivalent to the stored policy of that moment, and a pass without failing calls and foreign objects in the way leaves exactly the policies equivalent to its DNS part |

## Left out

- Identifiers: malformed uuids (ErrInvalid before any statement) and collisions of generated rule ids are not modelled; zone and request id collisions are.
- Postgres isolation: each transaction, and the three queries of PolicyInput, are one atomic step; a commit that succeeds while reporting an error is not modelled.
- Collation: `ORDER BY host` and `ORDER BY value` follow the database's collation; Denials.Ahead and Loading.RuleBefore order by code points. What is proved needs only a strict total order.
- Sub-microsecond TTLs, which Postgres rounds, and float rounding of `ttl.Seconds()`.
- Authority.ToLower: lowers ASCII letters only; Unicode case folding of authorities is not captured. TrimSpace likewise knows the Latin-1 white space only.
- Envoy resources are plain records: access logs, local replies, DNS cache settings, tunnel duration, protojson decoding and validation are dropped; RBAC compares addresses as texts, which is exact for canonical IPv4.
- Envoy's own host normalisation (case folding of the authority) and prefix wildcards, which the builder never emits.
- Cilium's matching of resolved names against patterns; the refinement is stated on rule sets.
- Resource versions and concurrent writers in Apply: the cluster changes only through Apply's own calls.
- Push: go-control-plane's consistency check; a push succeeds, or fails with or without having replaced the snapshot.
- Denials: a RecordDenial whose statements break off, which is rolled back like any other transaction.
- Reconciler: the order between ticks and real time bounds; ticks are steps that may happen whenever the loop is idle.
- Login, sessions, CSRF, HTML pages, ttlFor and ruleFrom.
- Listing queries (Zones, Grants, Requests, Denials, Audit): read-only projections.
- watch.Pods: the pod list is an arbitrary sequence that may change at any time.
