# Project Zero, modelled in Dafny

This project models the state machines at the centre of the Project Zero operating system and proves
what they promise. `dafny verify dfyconfig.toml` checks all of it. Imperative code of the system is
imperative here: classes over arrays, with the loops of the original and their invariants; protocols
between machines or processors are transition systems over their atomic steps. `Common` holds what all
parts share.

| part of the system | files | main results |
|---|---|---|
| kernel capability tables | CapTypes, CapTree, CapLedger, CapSteps, CapEdits, CapTables, CapRuns | every run keeps a forest of intrusive child chains with attenuated rights, exact counts and never-reused ids; close and move preserve ancestry; revoke frees exactly the descendants |
| session authority handoff | Handoff, HandoffRuns | never two authorities, each proof accepted at most once |
| lease engine and accounting | Capacity, Coupling, Accounting, LeaseBooks, LeaseEngine, LeaseRuns | capacity is conserved and equals the active leases over every run; quotas and coupling constraints |
| graph validators | Digraph, TaskDag, PlanDag, IntentDeps, ResourceGraph | both topological sorts and both searches are exact |
| time frame | SeqLock | no torn reads under any interleaving |
| workload daemon | Workload, WorkloadEngine | over every run: dependency order, bounded launches, something always ready or running, and running exactly when past admission |
| identities and persistence | Bits, Ids, RegistryFormat, Registry, Integrity | no id twice over crashes, save and load round trip, change detection |

## What the proofs found

Where the code does not meet a promise, a lemma or method gives an input that shows it, and a contract
states exactly when it holds.

- A process exit ends with an assertion that every node of the process has id zero
  (kernel/src/cap/ops.rs:732). Revocation leaves the id in the freed node, so the assertion can fail:
  it holds exactly when no free slot of the process carried an old id (`CapTables.CapabilityTables.Exit`,
  `CapRuns.ExitAssertionCanFail`).
- The checks for a revoked parent, a stale object and a full reference count never refuse a live
  capability, the worklist guards of revocation never drop a node, and a revocation never reclaims the object.
- Two freshly constructed session daemons are both authoritative; safety of all runs is the same as a sole
  authoritative start. From a fleet at epoch 1 only one handoff can ever succeed. A source may only be told
  that its proof was aborted when the destination cannot accept it, because it has moved past the proof, lags
  behind its epoch, or the proof names nobody; told otherwise, some run has two authorities.
- A lease request on an unknown resource keeps the quota charge, and a first quota for an entity that holds
  leases starts at zero; agreement of quotas and leases is lost exactly there. Coupling limits equal to the
  largest 64-bit number accept anything, and amounts are read correctly exactly below 2^63.
- Intent dependencies of an earlier workspace stay in a reused slot and can refuse edges of the new one; they
  are harmless exactly when they join nodes its own edges already connect.
- A task mask that names a position not yet filled lets an extension break the dependency order.
- A workload stays admitted exactly when it is submitted while the node is full, and no exit starts it then.
- A terminal latch set beside a publish in progress is overwritten by it (`SeqLock.LatchIsOverwritten`); it lasts
  exactly when no publish is still to store its sequence. The one caller in the repository
  latches only between publishes (init/src/time_adapter.rs:83-119).
- A failed raise of the id floor to or beyond the next ceiling, or an empty batch, lets a restart issue an id
  twice; a failed raise below it does no harm.
- Loading a registry does not look at its checksum: every change of up to four neighbouring data bytes is
  loaded although the stored checksum exposes it (`Registry.CorruptionIsLoaded`). Workspaces in a
  transitional state come back as Active, and an owner comes back exactly if it was 0.

## How the system is represented

- A table position (process slot, handle slot) is one number, process * 32 + handle; a link is such a
  number or NIL. The kernel's table lock makes each capability operation one step.
- `pins` of an object stands for its mappings, in-flight operations and waiters.
- Capacity vectors in the tables hold zero beyond their dimension count, as the code's own constructors make
  them; the checked operations are also stated for any others.
  A refused request may raise a dimension count; amounts are what is compared.
- Integers are unbounded; 16-, 32- and 64-bit limits, wrap-around and saturation appear where the code
  has them. Words of the checksum, the hash and the registry are natural numbers with arithmetic
  exclusive or.
- Clocks, nonces, network delivery, storage outcomes and the other workloads' share of the running-task
  counter are parameters. A commit that reports an error may or may not have reached the medium.
- In a handoff, proofs are authentic and may be delivered at any time and any number of times, a node names
  itself, and recovery answers are truthful: committed means the proof was accepted, aborted means it was not
  and its destination cannot accept it.
- Steps and edges of a plan are the used prefixes of the caller's arrays.

## Model

| member | source | states |
|---|---|---|
| `CapTree.RootKeepsForest` | kernel/src/cap/ops.rs:43-87 | a new root keeps the tables a forest: every chain finite, duplicate-free, and listing exactly the live children |
| `CapTree.DeriveKeepsForest` | kernel/src/cap/ops.rs:93-173 | a derived child at the front of its parent's chain keeps the forest, with attenuated rights, the parent's object and one more level of depth |
| `CapTree.CloseKeepsForest` | kernel/src/cap/ops.rs:523-624 | splicing the children of a closed capability into its parent's chain (or making them roots) keeps the forest, although only direct children get a new depth |
| `CapTree.MoveKeepsForest` | kernel/src/cap/ops.rs:185-277 | a move that takes over the source's place in its parent's chain and re-points its children keeps the forest |
| `CapTree.RevokeKeepsForest` | kernel/src/cap/ops.rs:368-486 | freeing all proper descendants of a capability keeps the forest |
| `CapTree.CloseKeepsAncestors` | kernel/src/cap/ops.rs:555-613 | after a close, `a` is an ancestor of `b` exactly when it was before, for all survivors, also when a root was closed |
| `CapTree.MoveRenamesAncestors` | kernel/src/cap/ops.rs:239-276 | after a move the ancestor relation is the old one with the source slot renamed to the destination, in both directions |
| `CapTree.AncestorAttenuation` | kernel/src/cap/ops.rs:118-165 | in any forest a capability's rights are a subset of each ancestor's, it names the same object, object generation and endpoint, and lies strictly deeper |
| `CapTree.AttenuationAlongPath` | kernel/src/cap/ops.rs:118-165 | the same along a path of any length, whose length is bounded by the difference of the stored depths |
| `CapTree.SweptIsDescendants` | kernel/src/cap/ops.rs:378-425 | a set closed under children that starts from the target's children, and holds nothing else, is exactly the set of its live proper descendants |
| `CapTree.SweepFits` | kernel/src/cap/ops.rs:378-400 | the 512-entry worklist always has room, so its guards never drop a node |
| `CapTree.SweepEnds` | kernel/src/cap/ops.rs:400-486 | when the worklist is used up it holds each live proper descendant once |
| `CapLedger.OccupyKeepsRefs` | kernel/src/cap/ops.rs:82-84 | one more entry raises its object's reference count by one, which never reaches the 16-bit limit |
| `CapLedger.FreeKeepsRefs` | kernel/src/cap/ops.rs:616-621 | freeing an entry lowers its object's reference count by one and no other |
| `CapLedger.MoveKeepsRefs` | kernel/src/cap/ops.rs:263-274 | moving an entry to a free slot changes no object's reference count |
| `CapSteps.RootKeepsSound` | kernel/src/cap/ops.rs:43-87 | forest, table counts, reference counts and distinct ids below the generator all survive a root installation |
| `CapSteps.DeriveKeepsSound` | kernel/src/cap/ops.rs:93-173 | the same for a derivation |
| `CapSteps.CloseKeepsSound` | kernel/src/cap/ops.rs:523-624 | the same for a close |
| `CapSteps.MoveKeepsSound` | kernel/src/cap/ops.rs:185-277 | the same for a move |
| `CapSteps.RevokeKeepsSound` | kernel/src/cap/ops.rs:368-486 | a revocation keeps forest and ids, given table and reference counts that the loop of `RevokeTree` is proved to restore |
| `CapSteps.RevokeFreesExactly` | kernel/src/cap/ops.rs:378-485 | a revocation frees exactly the live proper descendants; the target and all other live capabilities keep their entry and parent link |
| `CapSteps.CloseKeepsLineage` | kernel/src/cap/ops.rs:555-613 | a close changes no ancestor fact among the capabilities that survive it |
| `CapSteps.EmptyProcess` | kernel/src/cap/ops.rs:728-734 | a process without occupied entries has count zero and no child link, as the teardown assertions demand |
| `CapTables.CapabilityTables.AddChild` | kernel/src/cap/node.rs:68-88 | pushes a node onto the front of its parent's chain and touches nothing else |
| `CapTables.CapabilityTables.RemoveChild` | kernel/src/cap/node.rs:93-130 | cuts a node out of its parent's chain, whatever its position |
| `CapTables.CapabilityTables.ReplaceChild` | kernel/src/cap/node.rs:135-178 | puts another node in its place in the chain |
| `CapTables.CapabilityTables.AllocateSlot` | kernel/src/cap/ops.rs:24-38 | the lowest free handle slot of a process, or an error exactly when it has none |
| `CapTables.CapabilityTables.InstallRoot` | kernel/src/cap/ops.rs:43-87 | a root capability on an existing object, refused exactly when ids are exhausted |
| `CapTables.CapabilityTables.InstallDerived` | kernel/src/cap/ops.rs:93-173 | a child is installed exactly when the parent is live, may duplicate, is above depth 8, covers the rights asked for and ids remain; otherwise nothing changes |
| `CapTables.CapabilityTables.Derive` | kernel/src/cap/ops.rs:280-317 | derivation by handle, with the exact conditions for success; a refusal changes nothing |
| `CapTables.CapabilityTables.Duplicate` | kernel/src/cap/ops.rs:320-361 | derivation with the parent's own rights from a handle whose generation is current, with the exact conditions for success |
| `CapTables.CapabilityTables.Delegate` | kernel/src/cap/transfer.rs:73-121 | a child in another process exactly when the source may transfer and be derived from and there is room; a refusal changes nothing |
| `CapTables.CapabilityTables.Transfer` | kernel/src/cap/transfer.rs:24-61 | a move to another process exactly when the source is live and transferable, there is room and ids remain; a refused move leaves the sender's capability untouched |
| `CapTables.CapabilityTables.CommitMove` | kernel/src/cap/ops.rs:185-277 | the commit half of a move cannot fail and keeps the tables sound |
| `CapTables.CapabilityTables.Close` | kernel/src/cap/ops.rs:523-624 | closes a live capability into the spliced forest and returns its object and endpoint; an unoccupied slot is refused unchanged |
| `CapTables.CapabilityTables.RevokeTree` | kernel/src/cap/ops.rs:368-486 | the worklist loop terminates, revokes exactly the live proper descendants, returns their number (0 for a free slot) and keeps all tables sound |
| `CapTables.CapabilityTables.Revoke` | kernel/src/cap/ops.rs:491-514 | the same, allowed exactly with the revoke right on a live capability |
| `CapTables.CapabilityTables.LookupById` | kernel/src/cap/node.rs:45-63 | finds the one live capability with an id, or shows there is none |
| `CapTables.CapabilityTables.CloseAndReclaim` | kernel/src/cap/ops.rs:629-675 | closes a live capability, all other entries, ids and ancestor facts stay; a free slot is refused unchanged |
| `CapTables.CapabilityTables.Exit` | kernel/src/cap/ops.rs:682-735 | an exit leaves the process with count 0, no occupied entry and no child link, and other processes' entries as they were; the teardown assertion on ids holds exactly when no free slot of the process carried an old id before |
| `CapRuns.Run` | kernel/src/cap/ops.rs:24-735 | every sequence of requests keeps the tables sound, and no retired id ever becomes live again |
| `CapRuns.ExitAssertionCanFail` | kernel/src/cap/ops.rs:732-732 | delegate, revoke, exit: a run on which the teardown assertion on ids fails |
| `Handoff.SessionDaemon.ExecuteSourceFence` | shelld/src/main.rs:110-139 | fences exactly an authoritative node and issues the proof of its epoch and next fence sequence; otherwise nothing changes |
| `Handoff.SessionDaemon.ReceiveFencingProof` | shelld/src/main.rs:142-189 | accepts exactly a proof that passes all eight checks, and then takes over its epoch, sequence and authority; a rejected proof changes nothing |
| `Handoff.SessionDaemon.ReconcileRecovery` | shelld/src/main.rs:192-210 | the recovery outcome for every combination of answers |
| `Handoff.SessionDaemon.CheckMutationAuthority` | shelld/src/main.rs:86-94 | mutation is allowed exactly at an authoritative node with no claimed epoch or the current one |
| `Handoff.SessionDaemon.Dispatch` | shelld/src/main.rs:213-391 | sessions change only at an authoritative node, by the request asked for on the first session of that id; telemetry is recorded anywhere while there is room; dispatch never changes the authority state |
| `HandoffRuns.StepIsSafe` | shelld/src/main.rs:103-210 | every step, deliveries of any issued proof at any time included, keeps exactly one authority token: at a node or inside a usable proof |
| `HandoffRuns.NeverTwoAuthorities` | shelld/src/main.rs:103-210 | over any run from at most one authoritative node, no two nodes are ever authoritative |
| `HandoffRuns.SafetyIsASoleStart` | shelld/src/main.rs:64-84 | from a world with nothing pending, all runs are safe exactly when at most one node starts authoritative |
| `HandoffRuns.FreshDaemonsAreTwoAuthorities` | shelld/src/main.rs:64-84 | two freshly constructed daemons do not meet that condition |
| `HandoffRuns.AcceptedAtMostOnce` | shelld/src/main.rs:142-189 | no proof is accepted twice in a run, however often it is delivered and whatever nonces are issued again |
| `HandoffRuns.OvertakenForever` | shelld/src/main.rs:142-189 | once the destination has moved past a proof, no later delivery in any run is accepted |
| `HandoffRuns.AbortIsSafeExactly` | shelld/src/main.rs:192-210 | of a proof that was not accepted, the answer aborted keeps every run from then on at one authority if and only if the destination cannot accept it: it has moved past the proof, lags behind its epoch, or the proof names nobody |
| `HandoffRuns.AbortedForever` | shelld/src/main.rs:142-210 | a proof answered aborted is never accepted afterwards in any run, however often it is delivered |
| `HandoffRuns.OnlyOneHandoffSucceeds` | shelld/src/main.rs:142-210 | in a fleet whose nodes all start at epoch 1, at most one proof is ever accepted, because a source never learns the epoch it handed over |
| `Capacity.CheckedAdd` | libzero/src/resource.rs:79-97 | for any two vectors, the sum up to the larger count, or an unsupported shape exactly beyond eight dimensions, or an overflow error exactly when a sum overflows |
| `Capacity.CheckedSub` | libzero/src/resource.rs:99-117 | for any two vectors, the difference up to the larger count, or an unsupported shape exactly beyond eight dimensions, or an error exactly when one underflows |
| `Capacity.LessOrEqual` | libzero/src/resource.rs:119-131 | decides the order up to the larger count; beyond eight the code would index out of bounds |
| `Coupling.RowDecisionIsExact` | libzero/src/lease.rs:82-98 | for non-negative coefficients and amounts below 2^63, a row is decided correctly exactly when its limit is below the largest 64-bit number or the true sum is in range |
| `Coupling.FeasibilityIsExact` | libzero/src/lease.rs:82-98 | hence for limits below that number the saturating check decides the exact integer inequality for the whole matrix |
| `Coupling.LargestLimitAcceptsAnything` | libzero/src/lease.rs:82-98 | a row with the largest limit accepts every amount, and an amount is given whose true sum is beyond it |
| `Coupling.HugeAmountSlipsThrough` | libzero/src/lease.rs:88-92 | an amount of 2^63 or more is read as negative and passes a limit its true sum exceeds |
| `Coupling.AmountsAreReadRightExactly` | libzero/src/lease.rs:88-92 | a vector is decided correctly by every non-negative row with a limit in range exactly when each of its amounts is below 2^63 |
| `Coupling.IsFeasible` | libzero/src/lease.rs:82-98 | the loop computes the saturating decision |
| `Coupling.SatisfiesIsDownwardClosed` | libzero/src/lease.rs:82-98 | shrinking an allocation keeps the exact constraints satisfied |
| `Accounting.TransfersConserve` | libzero/src/accounting.rs:98-178 | each movement between the four parts of a domain keeps their sum equal to the physical capacity |
| `Accounting.AccountingManager.AssertConservation` | libzero/src/accounting.rs:66-80 | the recomputed check passes exactly when the four parts add up in every counted dimension |
| `Accounting.AccountingManager.Register` | libzero/src/accounting.rs:219-228 | a new domain starts fully available, refused when the table is full |
| `Accounting.AccountingManager.Admit` | libzero/src/accounting.rs:83-123 | admits exactly what fits the available part and the coupling constraints, and otherwise changes nothing |
| `Accounting.AccountingManager.Release` | libzero/src/accounting.rs:126-130 | moves an allocated amount back to available, refused and unchanged exactly when it is more than is allocated |
| `Accounting.AccountingManager.Quarantine` | libzero/src/accounting.rs:135-139 | moves an allocated amount to unavailable and leaves available alone |
| `Accounting.AccountingManager.Confirm` | libzero/src/accounting.rs:167-171 | moves an unavailable amount back to available |
| `Accounting.AccountingManager.Reserve` | libzero/src/accounting.rs:174-178 | moves an available amount to reserved |
| `Accounting.AccountingManager.LoseProvider` | libzero/src/accounting.rs:144-164 | makes the whole domain unavailable; the conservation check at its end cannot fail |
| `Accounting.AccountingManager.ChargeQuota` | libzero/src/accounting.rs:259-272 | charges the entity's quota exactly when the amount fits under its ceiling; an entity without a quota is not limited |
| `Accounting.AccountingManager.RefundQuota` | libzero/src/accounting.rs:274-282 | gives the amount back, refused exactly when more than is in use |
| `Accounting.AccountingManager.SetQuota` | libzero/src/accounting.rs:239-257 | updates the entity's ceiling, or opens a quota with nothing in use; refused exactly when the table is full of other entities |
| `LeaseBooks.GrantKeepsBalance` | libzero/src/lease_engine.rs:26-90 | a granted lease and its admitted amount keep `alloc` equal to the sum over active leases, the parts conserved and the lease count exact |
| `LeaseBooks.EndKeepsBalance` | libzero/src/lease_engine.rs:92-177 | ending an active lease, returned or quarantined, keeps that balance |
| `LeaseBooks.ProviderLossKeepsBalance` | libzero/src/lease_engine.rs:179-199 | losing a provider keeps that balance for its domain and all others |
| `LeaseBooks.ActiveIsAllocated` | libzero/src/lease_engine.rs:92-124 | an active lease never holds more than is allocated on its resource, so giving it back cannot fail |
| `LeaseBooks.AdmitThenRelease` | libzero/src/accounting.rs:98-130 | admitting and releasing the same amount restores every amount |
| `LeaseBooks.ChargeThenRefund` | libzero/src/accounting.rs:259-282 | charging and refunding the same amount restores every quota amount |
| `LeaseBooks.AdmissionKeepsCoupling` | libzero/src/accounting.rs:98-123 | admission under a monotone matrix keeps the exact constraint, not just the saturated one |
| `LeaseBooks.ReturnKeepsQuotas` | libzero/src/lease_engine.rs:92-124 | taking a lease out and refunding its holder keeps every quota's use equal to the leases held |
| `LeaseEngine.Engine.Request` | libzero/src/lease_engine.rs:26-90 | grants, charging the quota, exactly when coverage, deadline, quota, availability, coupling and a free slot allow; a refusal on a registered resource changes no capacity and no quota amount |
| `LeaseEngine.Engine.Return` | libzero/src/lease_engine.rs:92-124 | returns exactly an active lease with the current generation and refunds its quota; the path where giving capacity back fails is unreachable |
| `LeaseEngine.Engine.Renew` | libzero/src/lease_engine.rs:126-153 | renews exactly an active lease of that generation and moves the generation on |
| `LeaseEngine.Engine.Reattest` | libzero/src/lease_engine.rs:234-258 | re-attests for no longer than the lease had left |
| `LeaseEngine.Engine.LoseTimeAuthority` | libzero/src/lease_engine.rs:157-175 | every active lease ends with its capacity quarantined, and nothing becomes available |
| `LeaseEngine.Engine.ClosePeer` | libzero/src/lease_engine.rs:201-218 | the active leases of one channel end quarantined, others stay |
| `LeaseEngine.Engine.LoseProvider` | libzero/src/lease_engine.rs:179-199 | the domain becomes unavailable and its active leases end |
| `LeaseEngine.Engine.ConfirmDriverRelease` | libzero/src/lease_engine.rs:222-230 | unavailable capacity of a resource becomes available again |
| `LeaseRuns.Serve` | libzero/src/lease_engine.rs:26-258 | every request keeps the books balanced; quotas that agreed with the leases still agree exactly when the request is quota-safe; tame requests keep every allocation within the exact coupling constraints |
| `LeaseRuns.Run` | libzero/src/lease_engine.rs:26-258 | at every point of every run from the empty engine, with a coupling matrix or without, the books balance; for tame requests under a sane matrix the constraints hold; quotas agree until the first request that is not quota-safe and are broken exactly by it |
| `LeaseRuns.UnknownResourceLeaksQuota` | libzero/src/lease_engine.rs:49-58 | a run that sets a quota and asks for an unknown resource ends with a charged quota and no lease |
| `LeaseRuns.ChargeAgreesExactly` | libzero/src/lease_engine.rs:49-58 | a charge without a lease keeps the agreement exactly when the entity has no quota or asked for nothing |
| `LeaseRuns.SetQuotaAgreesExactly` | libzero/src/accounting.rs:239-257 | setting a quota keeps the agreement exactly when the entity had one or holds nothing |
| `LeaseRuns.LateQuotaDisagrees` | libzero/src/accounting.rs:239-257 | a run in which a first quota for an entity that holds a lease breaks the agreement |
| `TaskDag.FromTasks` | libzero/src/workload.rs:248-264 | each task's degree is the number of its dependencies among the given tasks |
| `TaskDag.VerifyAcyclic` | libzero/src/workload.rs:267-309 | accepts exactly one to sixteen tasks without a dependency cycle; the queue never overflows and no degree underflows |
| `TaskDag.DryQueueDecides` | libzero/src/workload.rs:287-309 | when the queue runs dry it lists every task exactly when there is no cycle |
| `PlanDag.Validate` | libzero/src/orchestration.rs:297-378 | accepts exactly plans within the limits, with distinct ids, permitted capabilities, known endpoints and no cycle, duplicate edges allowed |
| `PlanDag.CheckSteps` | libzero/src/orchestration.rs:308-320 | accepts exactly distinct ids that all meet the capability rule |
| `PlanDag.DryQueueDecides` | libzero/src/orchestration.rs:348-376 | the emptied queue lists every step exactly when all parents are known and there is no cycle |
| `Digraph.SortDecidesAcyclicity` | libzero/src/workload.rs:267-309 | a maximal dependency order over a finite graph covers it exactly when the graph has no cycle |
| `IntentDeps.IntentTable.CheckReachability` | workspaced/src/main.rs:1197-1209 | the recursive search terminates on the recorded graph and is true exactly when a path exists |
| `IntentDeps.IntentTable.AddDep` | workspaced/src/main.rs:1138-1194 | refuses exactly edges that would close a cycle through the table, then a full table; the new edge joins the workspace's graph and the table stays acyclic even when an old entry is overwritten |
| `IntentDeps.IntentTable.Run` | workspaced/src/main.rs:1138-1209 | over any additions and slot reuses the workspace's intent graph is acyclic |
| `IntentDeps.IntentTable.Reuse` | workspaced/src/main.rs:410-422 | a reused slot starts with no edges of its own while old entries stay in the table |
| `IntentDeps.StaleEntriesRefuse` | workspaced/src/main.rs:1201-1202 | a run after which an old entry refuses an edge that closes no cycle in the new workspace's own, empty graph |
| `IntentDeps.OldEntriesAreHarmlessExactly` | workspaced/src/main.rs:1138-1209 | the whole table decides every edge as the own entries would exactly when each entry joins nodes the own entries already connect |
| `ResourceGraph.Topology.Insert` | libzero/src/graph.rs:53-68 | takes the lowest free position with no outgoing links, or fails exactly when there is none |
| `ResourceGraph.Topology.AddEdge` | libzero/src/graph.rs:70-81 | adds a link within four per node, or reports which limit refused |
| `ResourceGraph.Topology.CountReachable` | libzero/src/graph.rs:103-134 | returns exactly the number of active nodes reachable from an active start, 0 otherwise, on any cyclic graph, without overflowing the 64-entry stack |
| `ResourceGraph.SearchEnds` | libzero/src/graph.rs:116-132 | when the stack is empty the nodes done are exactly the reachable ones |
| `SeqLock.StepIsSound` | libzero/src/time.rs:61-145 | every atomic step of the writer, a reader or a latch at any time keeps the invariant; a latch no publish will store over is final |
| `SeqLock.ReadsAreGenuine` | libzero/src/time.rs:61-101 | in any interleaving a successful read returns the fields of one completed publish or the initial frame, with twice the number of publishes up to it, and none older than the read's start |
| `SeqLock.ReadsNeverGoBack` | libzero/src/time.rs:61-101 | a read that begins after another returned sees no older frame, and equal sequences mean equal fields |
| `SeqLock.NoReadAfterLatch` | libzero/src/time.rs:65-67 | after such a latch no read returns an observation |
| `SeqLock.LatchSurvivesExactly` | libzero/src/time.rs:104-145 | a latch outlasts the publish under way exactly when no publish will still store its sequence |
| `SeqLock.LatchIsOverwritten` | libzero/src/time.rs:104-145 | a run from boot in which a latch beside a publish is overwritten by it |
| `SeqLock.FreshIsYoung` | libzero/src/time.rs:169-191 | an observation is fresh exactly when it is less than 51 ms old and the product does not overflow |
| `Workload.NoDeadlock` | workloadd/src/main.rs:446-476 | if every blocked task waits for something unfinished and nothing is ready or running, all tasks are completed |
| `Workload.ExtensionCheckIsExact` | workloadd/src/main.rs:331-336 | the mask test of an extension accepts exactly masks that name existing tasks |
| `Workload.ExtensionAddsNoCycle` | workloadd/src/main.rs:331-357 | with masks that name only the workload's tasks, an extension cannot close a cycle |
| `Workload.ExtensionKeepsOrderExactly` | workloadd/src/main.rs:338-362 | an extension keeps the dependency order exactly when no started task's mask already names the new position |
| `Workload.SubmitIsSound` | workloadd/src/main.rs:181-215 | a submitted graph starts sound: launch counts zero, no cycle, something ready |
| `Workload.CompleteIsSound` | workloadd/src/main.rs:446-481 | completing a task and releasing its dependents keeps soundness, and finishes exactly when all tasks are completed |
| `Workload.CompleteKeepsOrder` | workloadd/src/main.rs:446-472 | and keeps the dependency order |
| `Workload.RetryIsSound` | workloadd/src/main.rs:488-497 | a retry keeps soundness and order |
| `Workload.CancelIsSound` | workloadd/src/main.rs:531-559 | a cancellation keeps order and soundness and leaves a finished workload as it was |
| `Workload.ScheduleKeepsOrder` | workloadd/src/main.rs:407-420 | launching ready tasks keeps the order |
| `WorkloadEngine.Engine.Schedule` | workloadd/src/main.rs:407-443 | launches ready tasks in index order until none is left or the node is full |
| `WorkloadEngine.Engine.Submit` | workloadd/src/main.rs:151-220 | admits exactly one to sixteen tasks without a cycle; tasks without dependencies become ready and are scheduled; the workload stays admitted exactly when the node is full |
| `WorkloadEngine.Engine.Release` | workloadd/src/main.rs:456-476 | in place, exactly the blocked tasks whose dependencies are all completed become ready; reports whether all are completed |
| `WorkloadEngine.Engine.Cancel` | workloadd/src/main.rs:531-559 | exactly the ready and running tasks are cancelled; the workload is given up unless it had finished |
| `WorkloadEngine.Engine.NotifyExit` | workloadd/src/main.rs:371-403 | finds exactly a running task of an active workload; success releases dependents or finishes the workload, failure retries within the limits or cancels |
| `WorkloadEngine.Engine.Complete` | workloadd/src/main.rs:446-486 | the success path |
| `WorkloadEngine.Engine.Retry` | workloadd/src/main.rs:488-515 | the retry path |
| `WorkloadEngine.Engine.GiveUp` | workloadd/src/main.rs:496-526 | the failure path: the task fails and the workload is cancelled |
| `WorkloadEngine.Engine.Extend` | workloadd/src/main.rs:291-366 | accepted exactly in an active, non-recovering workload with room, a mask of existing tasks and no cycle; a refusal changes nothing that is visible |
| `WorkloadEngine.Run` | workloadd/src/main.rs:151-559 | over any requests with own masks, with the shared counter within its limit: nothing starts before its dependencies complete, each task is launched at most four times since its graph was submitted (once if irreversible), a finished workload has only completed tasks, an active one has a task ready or running, and one running exactly when it is past admission |
| `WorkloadEngine.StalledWorkload` | workloadd/src/main.rs:371-420 | a workload submitted while eight tasks run starts nothing, and no exit ever starts it |
| `Workload.ScheduleRuns` | workloadd/src/main.rs:407-443 | with room on the node, scheduling leaves a task running whenever one was ready or running |
| `WorkloadEngine.ForeignMaskBreaksOrder` | workloadd/src/main.rs:186-200 | a mask that names a task not yet there breaks the order after an extension |
| `Ids.Allocator.Recover` | libzero/src/identity.rs:23-42 | starts exactly at the committed ceiling and commits the next one; keeps every issued id at or below the ceiling |
| `Ids.Allocator.Allocate` | libzero/src/identity.rs:45-61 | issues the next number, covered by the committed ceiling exactly when the counter lay below ceiling plus batch; safe for a batch of at least one |
| `Ids.Allocator.AdvanceFloor` | libzero/src/identity.rs:80-92 | raises the counter; when it fails the allocator is still safe exactly if the floor lies within the old ceiling or below the one to be committed next |
| `Ids.Allocator.Crash` | libzero/src/identity.rs:23-42 | losing memory at any point keeps all issued ids at or below the durable ceiling |
| `Ids.Run` | libzero/src/identity.rs:23-92 | from any initial ceiling, with a batch of at least one and until a raise of the floor to or beyond the next ceiling fails, no id is issued twice over any crashes, lost commits and recoveries |
| `Ids.OverrunDuplicates` | libzero/src/identity.rs:80-92 | from every safe allocator such a failed raise lets a restart issue the next id twice |
| `Ids.FailedFloorDuplicates` | libzero/src/identity.rs:80-92 | for example with a batch of 64 and a floor of 1000 |
| `Ids.EmptyBatchDuplicates` | libzero/src/identity.rs:45-61 | so does an empty batch |
| `RegistryFormat.HeaderRoundTrip` | libzero/src/workspace.rs:664-699 | a header comes back exactly when it carries the right magic, version and record size |
| `RegistryFormat.RecordRoundTrip` | libzero/src/workspace.rs:703-744 | a record comes back with the bytes behind its name cleared |
| `RegistryFormat.CanonicalExactly` | libzero/src/workspace.rs:703-744 | that is the record itself exactly when those bytes were zero |
| `RegistryFormat.StateSurvivesExactly` | workspaced/src/main.rs:1705-1711 | of the states in use, exactly Active, Suspended and Archived survive a restart; the others come back as Active |
| `Registry.Daemon.SaveObjects` | workspaced/src/main.rs:1775-1786 | the used records are written one after the other, in table order |
| `Registry.Daemon.Save` | workspaced/src/main.rs:1773-1830 | afterwards the storage holds all tables, the number of records and the checksum of the data |
| `Registry.Daemon.Load` | workspaced/src/main.rs:1665-1770 | loads what a good header announces, re-judges each edge against the loaded objects, and raises the id counter over every loaded sequence, even if committing the new ceiling fails |
| `Registry.LiveObjectsReturn` | workspaced/src/main.rs:1741-1754 | an object is live after the restart exactly when it was live before |
| `Registry.SaveThenLoad` | workspaced/src/main.rs:1665-1830 | into a new daemon this restores the used objects in order, every workspace in use with id, generation and member count, and every edge, live exactly when its object is |
| `Registry.Restart` | workspaced/src/main.rs:1665-1830 | save, restart, load, allocate: the tables are restored but for the owners, which come back exactly if they were 0, and the next id is larger than every sequence number in the tables |
| `Registry.CorruptionIsLoaded` | workspaced/src/main.rs:1665-1674 | a saved registry with up to four neighbouring data bytes changed still has a header that loads, although its checksum differs from that of the data |
| `Registry.OneByteIsLoaded` | workspaced/src/main.rs:1665-1674 | in particular with any one data byte changed |
| `Integrity.CalculateCrc32` | libzero/src/persistence.rs:79-89 | the bit loop computes the checksum |
| `Integrity.RoundIsInjective` | libzero/src/persistence.rs:83-86 | one bit of the division is injective on 32-bit states |
| `Integrity.RoundIsOnto` | libzero/src/persistence.rs:83-86 | and onto, with the preimage given: a bijection |
| `Integrity.CrcIsDivision` | libzero/src/persistence.rs:79-89 | the state after any string is one long division of the number its bytes spell |
| `Integrity.CrcIsInjective` | libzero/src/persistence.rs:79-89 | equal bytes keep different states different |
| `Integrity.BurstIsDetected` | libzero/src/persistence.rs:79-89 | any change inside a window of four consecutive bytes changes the checksum |
| `Integrity.CrcSeesOneByte` | libzero/src/persistence.rs:79-89 | in particular any change of one byte |
| `Integrity.TimesIsInjective` | libzero/src/migration.rs:356-356 | the wrapping multiplication is injective on 64-bit states |
| `Integrity.TimesIsOnto` | libzero/src/migration.rs:356-356 | and onto, with the preimage given: a bijection |
| `Integrity.ComputeHash` | libzero/src/migration.rs:352-359 | the loop computes the hash |
| `Integrity.HashSeesOneByte` | libzero/src/migration.rs:352-359 | any change of one byte changes the hash |
| `Integrity.VerifyIntegrity` | libzero/src/migration.rs:361-364 | accepts exactly a payload whose hash and masked signature both match |
| `Integrity.OneByteIsNoticed` | libzero/src/migration.rs:361-364 | a changed byte of an intact checkpoint is rejected exactly when it lies within the payload size |

## Left out

- Channel endpoint counts, waiter wake-ups, shared-memory unmapping: derivation does not raise the endpoint counts that revoke and close lower, so no conservation law holds for them.
- The shared running-task counter as an exact count: cancellation lowers it for ready tasks too, so it is only a bound that scheduling respects.
- The quarantine ledger: it is never cleared and its overflow is ignored.
- Message unpacking and response building in the daemons; requests are datatypes here, and messages too short to unpack, which the daemons refuse, do not occur.
- Weak memory ordering: the time frame is modelled with sequentially consistent loads and stores, although the code uses relaxed and acquire/release orderings.
- Overflow of session epochs and fence sequences beyond 64 bits.
- Raw-memory session snapshots, derived ids, hardware time stamps, system calls, boot code, page mapping, framebuffer.
- Agent bindings, resident context, orchestration approvals and execution records of the workspace daemon; they are not part of the saved registry.
- Intent nodes: dependencies may name any node id, as in the code, so node records add nothing to the graph.
- WorkloadEngine.Run: launches are counted from the submission of the graph; submitting again while old processes still run starts a new count.
- Capability operations name the error of a refusal only through the order of checks in `CheckDerive` and `CheckDelegate`; the contracts state when a request succeeds and that a refusal changes nothing.
- Progress across workloads: ready tasks that found the node full wait for a later event of their own workload, so nothing is stated about when they run.
