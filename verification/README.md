# A verified model of Whizard's allocators, sharding, admission and merging

Whizard is a Kubernetes operator that runs a multi-tenant metrics platform. Most of it builds
API objects. This project models the parts that are algorithms and state machines, and proves
what they keep over every run.

**The tenant allocator and the life of an ingester.** Tenants are placed into indexed ingesters
with a capacity, evicted when their service, storage or exclusive label no longer matches, and
finalized on deletion. An emptied ingester is stamped with a deletion time and recycled later; its
status remembers past tenants, and the routing table and the data clean-up are derived from it.
The state (`Cluster.State`) is the tenant objects, the ingesters by namespace and name, the
Services and a clock. The steps (`Allocation.Action`) are tenant reconciles, ingester reconciles,
relabelling, creation and deletion of tenants, changes to finalizers, hand edits of ingesters and
Services, and time. `Allocation` gives each reconcile as a relation on states; `Controllers` holds
the reconcilers themselves as classes with loops, early returns and writes to an API object, each
proved to take exactly such a step. `OperatorRuns` puts the parts of a tenant reconcile together:
the ingester's, then the compactor's write of its finalizer. `Compaction` and
`CompactorController` do the same as `Allocation` and `Controllers` for the second allocator over
the same tenants, `Stores` for the set-diff reconciler of Store objects.

**The ruler.** Rule groups are hashed to shards, each shard's files are packed into size-bounded
ConfigMaps, and the objects whose names decode as the ruler's own are deleted or written.

**The gateway and the agent proxy.** A map of admitted tenants follows a watched file, one key at
a time; a path prefix put on by the proxy is taken off by the gateway.

**Flags.** User flags are merged into default arguments and sorted.

One file is one module:

| files | about |
|---|---|
| `Text` | strings: split, join, decimal numbers, the order of `sort.Strings`, lists |
| `Cluster`, `Allocation` | objects, groups and names; the steps of the allocator |
| `AllocationSafety`, `Placement`, `Convergence`, `Recycling` | what all runs of the allocator keep |
| `OperatorRuns`, `AllocationWitnesses` | runs of whole reconciles; runs that reach the states the laws exclude |
| `IngesterStatus`, `Cleanup`, `Routing` | what is derived from the ingesters |
| `Controllers` | the tenant and ingester reconcilers, step by step |
| `Compaction`, `CompactionSafety`, `CompactionRuns`, `CompactorConvergence`, `CompactorController` | the second allocator |
| `CompactionWitnesses`, `KeepRegex`, `Stores` | runs that reach what its laws exclude; the relabelling expression; stores |
| `Sum64`, `RulerShards`, `Packing`, `RulerNames`, `RulerResources` | the ruler |
| `Admission`, `Codecs`, `Flags` | gateway, path and label codecs, command lines |

`dafny verify dfyconfig.toml` checks the whole project.

## What turned out false

Some laws one would expect do not hold of the code. Each is stated with the exact condition under
which it does hold, and where the condition is one on states, with a run that reaches a failing
state or an input that fails.

* A deleted tenant whose ingester finalizer is gone but which lingers because of another
  finalizer is placed again by the next reconcile, and its id then stays listed after the object
  is gone (`OperatorRuns.WholeReconcileKeepsIff`, `AllocationSafety.RevivedTenantLeaks`; reached
  by `AllocationWitnesses.RevivalReached`). The same happens with compactors
  (`CompactionSafety.ReconcileKeepsHeldIff`, `CompactionWitnesses.RevivalReached`). It cannot
  happen while users delete only tenants without foreign finalizers
  (`OperatorRuns.OperatorRunsKeepInv`, `CompactionRuns.OperatorRunsKeepHeld`).
* A deletion while the tenant's service label names no existing Service never finalizes
  (`AllocationSafety.DeletionLeavesNoListing`, `AllocationWitnesses.NeverFinalizedReached`).
* Automatic ingester names of different groups are the same exactly when namespace, index and
  "service-storage" are (`Cluster.AutoKeysMeetIff`). That happens when the storages differ in
  namespace only, when a dash moves between service and storage, and between the local disk and
  a storage named "local" (`Convergence.CollidingGroups`).
* A reconcile takes another tenant off a list exactly when it writes over that tenant's ingester:
  an index placement whose name another group has, or an exclusive placement whose namespace and
  tenant name are those of an ingester (`Convergence.ReconcileDisplacesIff`; reached by
  `AllocationWitnesses.DisplacementReached` and `ExclusiveDisplacementReached`). With two groups
  that collide, one tenant in each is enough for the two to displace each other for ever
  (`AllocationWitnesses.CollidingNeverSettle`, `FightReached`).
* Making a tenant exclusive can leave it on two compactors of its group
  (`Compaction.ReconcileKeepsUniqueIff`, `CompactionWitnesses.SecondHolderReached`), and a
  deletion before the reference to a generated compactor is repaired leaves it listed
  (`Compaction.DeletionLeavesListedIff`, `CompactionWitnesses.LeakReached`).
* A shared tenant may join an exclusive compactor that has room, and then neither settles: each
  reconcile of the exclusive tenant throws it out (`CompactorConvergence.NeverSettles`, reached by
  `NeverSettlesReached`). With an exclusive and a shared tenant in one group all interleavings settle
  exactly when the limit is one at most (`CompactorConvergence.PairSettlesIff`). In general every
  tenant settles or is stuck, as below, where no shared tenant is in, or can join, an exclusive
  compactor (`CompactorConvergence.ReconciliationTerminates`), and the one reconcile that takes
  another tenant off a compactor is an exclusive placement over it
  (`CompactorConvergence.ReconcileDisplacesIff`).
* A shared tenant whose storage label has no dot, with no compactor to join, makes every compactor
  reconcile panic (`Compaction.Stuck`, `CompactorController.CompactorApi.Compactor`).
* A service label that is not of two parts makes an ingester reconcile panic, one without a dot a
  tenant reconcile (`Controllers.ReconcileIngesterObject`, `Controllers.ReconcileTenantObject`).
* A store pass on behalf of a Service deletes the stores of exactly the groups that only the
  Service of the pass before resolved to, and makes those that only it does
  (`Stores.PassesOfTwoServices`, `Stores.SecondPassUndoes`, `Stores.DefaultsUndoEachOther`).
* A store pass is done exactly when no expected group blocks it: a storage label without a dot
  panics, also where the Store exists already, as does a service label without a dot where it does
  not; a Storage object that is gone is an error. If the group has a live Store, orphans stay and
  nothing is made (`Stores.StoreReconciler.Reconcile`, `Stores.DotlessStorageBlocks`,
  `Stores.AbsentStorageBlocks`).
* A ConfigMap of a shard without files is written again by every run, because its empty data reads
  back as nil: a second run emits nothing exactly when every shard has a file
  (`RulerResources.RuleConfigMaps`, `RulerResources.SecondRunIsQuietIff`; fails without rules, or
  with one group and two shards or more, `RulerResources.FewGroupsNeverQuiet`).
* A first admission list that names the tenant "/-/" makes the next delivery panic
  (`Admission.PoisonedIff`).
* The comment on packing says first-fit; the code looks at the last bucket only, which is
  next-fit, and that is what is modelled.

## Model

| member | source | states |
|---|---|---|
| AllocationSafety.DetachKeeps | pkg/controllers/resources/tenant/ingestor.go:224-280 | removing a tenant from the ingester its status names leaves it listed nowhere and keeps the invariant |
| AllocationSafety.ReconcileKeepsIff | pkg/controllers/resources/tenant/ingestor.go:24-173 | a tenant reconcile keeps "every entry belongs to one tenant that points back, lists have no duplicates, namespaces fit" if and only if it does not meet an unplaced, deleted tenant that has lost the ingester finalizer |
| AllocationSafety.RevivedTenantLeaks | pkg/controllers/resources/tenant/ingestor.go:32-83 | in the failing case the id stays on a list although no Tenant object has it once the foreign finalizers go |
| AllocationSafety.OtherActionKeeps | pkg/controllers/ingestor_controller.go:62-147 | status writes, recycling, creation, relabelling, deletion, finalizer and Service edits and time keep the invariant |
| AllocationSafety.RunsKeepInv | pkg/controllers/resources/tenant/ingestor.go:24-280 | the invariant in every state of every run of all steps in any order, as long as no reconcile revives a lingering tenant |
| AllocationSafety.RunsWithoutLingering | pkg/controllers/resources/tenant/ingestor.go:26-70 | the invariant in every run whose deleted tenants keep the ingester finalizer until they are finalized and gone |
| OperatorRuns.WholeReconcileKeepsIff | pkg/controllers/resources/tenant/tenant.go:23-37 | a whole reconcile, the compactor's finalizer included, keeps the invariant if and only if it does not revive a lingering tenant |
| OperatorRuns.WholeReconcileKeepsHeld | pkg/controllers/resources/tenant/compactor.go:21-38 | whole reconciles keep: both of the operator's finalizers or none, and under deletion both and no others |
| OperatorRuns.OperatorRunsKeepInv | pkg/controllers/resources/tenant/tenant.go:23-37 | the invariant in every state of every run of whole reconciles and user actions, conditioned on the users' actions only: they do not write the operator's finalizers, delete no tenant with a foreign one, and add none under deletion |
| OperatorRuns.OneReconcileDeletes | pkg/controllers/resources/tenant/tenant.go:23-37 | there one whole reconcile takes a deleted tenant off the API and off every list |
| OperatorRuns.OperatorRunUnfolds | pkg/controllers/resources/tenant/tenant.go:23-37 | every state of such a run is reached by a run of the single parts that revives nobody, so what those keep holds there |
| AllocationWitnesses.RevivalReached | pkg/controllers/resources/tenant/ingestor.go:24-83 | a run of the operator with one foreign finalizer reaches a tenant about to be revived |
| AllocationSafety.ReconcileTouches | pkg/controllers/resources/tenant/ingestor.go:24-173 | a reconcile changes no other tenant, no Service, no label and no deletion mark |
| AllocationSafety.DeletionLeavesNoListing | pkg/controllers/resources/tenant/ingestor.go:32-70 | finalizing leaves the tenant on no list if and only if its Service is found or it was on none; the object goes if and only if that finalizer was the last |
| AllocationWitnesses.NeverFinalizedReached | pkg/controllers/resources/base.go:47-75 | a run to a deleted, still listed tenant whose Service label names nothing: no reconcile changes anything |
| AllocationSafety.HandRemovalKeepsIff | pkg/controllers/resources/tenant/ingestor.go:26-70 | taking the ingester finalizer away by hand keeps the invariant if and only if no ingester lists the tenant |
| Placement.SomeIndexOpen | pkg/controllers/resources/tenant/ingestor.go:149-162 | pigeonhole: among indices 0..n over n listed ingesters one is missing or has room |
| Placement.LeastOpenExists | pkg/controllers/resources/tenant/ingestor.go:149-162 | so the loop bound always yields a least open index |
| Placement.LeastOpenUnique | pkg/controllers/resources/tenant/ingestor.go:149-162 | the choice is unique and every smaller index exists and is full, so a new ingester appears only behind full ones |
| Placement.RunsStayWithinLimits | pkg/controllers/resources/tenant/ingestor.go:146-169 | over every run in which no Service lowers its limit no ingester lists more than max(1, limit), collisions and revivals included |
| Cluster.AutoNameInjective | pkg/controllers/resources/tenant/ingestor.go:282-297 | indices of one group give different names |
| Cluster.AutoKeysMeetIff | pkg/controllers/resources/tenant/ingestor.go:282-297 | two automatic names are equal if and only if index, namespace and base are |
| Cluster.NamedAutoIff | pkg/controllers/resources/tenant/ingestor.go:292-295 | whether a name is automatic for a group can be read off it |
| Cluster.AutoKeyIs | pkg/controllers/resources/tenant/ingestor.go:282-297 | the automatic key of a group, written out from its labels |
| Cluster.ResolveStorageIs | pkg/controllers/resources/base.go:79-93 | an explicit storage label is kept, "default" or none gives the Service's storage or the local disk; resolving twice is resolving once |
| Allocation.StaysIff | pkg/controllers/resources/tenant/ingestor.go:175-222 | no reset exactly when the recorded ingester exists, lists the id, has the tenant's service and resolved storage, and is its own exclusive one if and only if the tenant is exclusive |
| Convergence.RunsKeepShape | pkg/controllers/resources/tenant/ingestor.go:98-110 | in collision-free runs an exclusive ingester lists at most its own tenant and every other ingester has an automatic name of the group in its labels |
| Convergence.OwnReconcileLowers | pkg/controllers/resources/tenant/ingestor.go:26-173 | a tenant's rank is zero exactly when its reconcile changes nothing, and otherwise the reconcile lowers it |
| Convergence.OtherReconcileKeepsRank | pkg/controllers/resources/tenant/ingestor.go:26-173 | another tenant's reconcile never raises it |
| Convergence.QuietActionKeepsRank | pkg/controllers/ingestor_controller.go:90-132 | nor does recycling, a status write or time |
| Convergence.ReconciliationTerminates | pkg/controllers/resources/tenant/ingestor.go:26-173 | over any interleaving, productive reconciles of a tenant so far plus its remaining rank never exceed its first rank, at most 3 |
| Convergence.SettledIsWellPlaced | pkg/controllers/resources/tenant/ingestor.go:175-222 | a live tenant of rank zero is in exactly one ingester, of its service, resolved storage and exclusiveness |
| OperatorRuns.OwnWholeLowers | pkg/controllers/resources/tenant/tenant.go:23-37 | likewise for whole reconciles: rank zero is the fixpoint, and every other one lowers the rank |
| OperatorRuns.OperatorTerminates | pkg/controllers/resources/tenant/tenant.go:23-37 | over any interleaving of whole reconciles, ingester reconciles and recycling, productive reconciles plus remaining rank never exceed the first rank, at most 4 |
| Convergence.NoCollisionIff | pkg/controllers/resources/tenant/ingestor.go:282-297 | the condition on names used here, checkable over finitely many groups and names, is exactly that no automatic names meet each other, tenants or hand-made ingesters |
| Convergence.CollidingGroups | pkg/controllers/resources/tenant/ingestor.go:282-297 | three families of groups with the same automatic names |
| Convergence.ReconcileDisplacesIff | pkg/controllers/resources/tenant/ingestor.go:98-172 | a reconcile takes another tenant off a list if and only if it writes over that ingester, by index or exclusively |
| AllocationWitnesses.DisplacementReached | pkg/controllers/resources/tenant/ingestor.go:150-169 | a run in which a placement displaces a tenant, for any two storages whose groups collide |
| AllocationWitnesses.StorageNamespacesDisplace | pkg/controllers/resources/tenant/ingestor.go:282-297 | such as two storages of one name in different namespaces |
| AllocationWitnesses.CollidingNeverSettle | pkg/controllers/resources/tenant/ingestor.go:149-172 | two tenants of colliding groups go round in four productive reconciles |
| AllocationWitnesses.FightReached | pkg/controllers/resources/tenant/ingestor.go:149-172 | a run gets there for any two colliding groups |
| AllocationWitnesses.ExclusiveDisplacementReached | pkg/controllers/resources/tenant/ingestor.go:98-110 | a run in which an exclusive placement does |
| Recycling.CondemnedIsJustified | pkg/controllers/resources/tenant/ingestor.go:245-276 | in every run a stamped ingester has been empty since the very step that stamped it, with that step's time and retention |
| Recycling.RecycledOnlyAfterRetention | pkg/controllers/ingestor_controller.go:117-132 | over every run a deleted ingester lists nobody, and has listed nobody since a step more than retention less one second ago |
| Recycling.RequeueIsExact | pkg/controllers/ingestor_controller.go:121-128 | a later reconcile deletes the ingester if and only if at least the requeue delay has passed |
| Recycling.LeftEmptyIsRecycledIff | pkg/controllers/ingestor_controller.go:117-132 | over every run: once step i took the last tenant off and the ingester stays empty, its reconcile with its Service there and its status settled deletes it if and only if the whole second of the deadline has come, and before asks for exactly the rest |
| Recycling.StampedIsRecycledIff | pkg/controllers/ingestor_controller.go:117-132 | the same for one state, from the annotations, the empty list and the status as they are |
| Recycling.OneReconcileSettles | pkg/controllers/ingestor_controller.go:90-115 | an empty ingester whose status is not settled gets a settled one by one reconcile |
| Recycling.DetachStamps | pkg/controllers/resources/tenant/ingestor.go:241-276 | losing the last tenant stamps with now plus retention in whole seconds, losing another leaves the annotations |
| Recycling.RetentionIs | pkg/controllers/resources/tenant/ingestor.go:251-269 | a positive local retention counts exactly for local or unknown storage, otherwise the Service's |
| Recycling.JoiningCallsOff | pkg/controllers/resources/tenant/ingestor.go:324-335 | joining appends the id and calls a waiting deletion off, and only then changes annotations |
| Recycling.PanicsIff | pkg/controllers/ingestor_controller.go:76-84 | the reconcile panics if and only if the service label is not empty and not two dotless parts |
| IngesterStatus.MergeIs | pkg/controllers/ingestor_controller.go:90-111 | old names stay in order as a prefix, new ones follow in spec order, obsolete means not in spec |
| IngesterStatus.MergeKeepsUnique | pkg/controllers/ingestor_controller.go:90-111 | names stay unique for a duplicate-free spec |
| IngesterStatus.MergeIdempotent | pkg/controllers/ingestor_controller.go:112-115 | a second merge changes nothing |
| IngesterStatus.StatusSettlesInOneWrite | pkg/controllers/ingestor_controller.go:112-132 | the reconcile after a status write gets past the status check |
| IngesterStatus.StepStatus | pkg/controllers/resources/tenant/ingestor.go:41-65 | exactly which step adds a name to or drops it from a status |
| IngesterStatus.StatusIsHistory | pkg/controllers/ingestor_controller.go:90-115 | in every run the status names are those some reconcile saw in spec, minus those deleted since |
| IngesterStatus.FinalizeDrops | pkg/controllers/resources/tenant/ingestor.go:41-65 | finalizing drops the tenant from the status of exactly the ingesters in the namespace of its two-part service label that carry this very label; all other entries and statuses stay |
| IngesterStatus.DeletionIsForgotten | pkg/controllers/resources/tenant/ingestor.go:41-65 | over every run the ingester that listed a finalized tenant under its label no longer names it |
| IngesterStatus.ForgetsIs | pkg/controllers/resources/tenant/ingestor.go:41-65 | which step forgets a name in which ingester, from the labels |
| Cleanup.WordsOfJoined | pkg/controllers/resources/ingester/statefulset.go:236 | the script splits the joined argument back into the list, for plain names |
| Cleanup.ListedSurvives | pkg/controllers/resources/ingester/statefulset.go:238-247 | the directory of every listed name is kept |
| Cleanup.RemovedIff | pkg/controllers/resources/ingester/statefulset.go:242-245 | a directory is removed if and only if its name is no substring of the list |
| Cleanup.KeepListIsKnown | pkg/controllers/resources/ingester/statefulset.go:265-283 | whenever the StatefulSet is generated in any run, the keep list is exactly the known tenants and the default one |
| Cleanup.CleanupSparesKnownTenants | pkg/controllers/resources/ingester/statefulset.go:228-289 | so no known tenant's data is removed |
| Cleanup.GenerateInitContainer | pkg/controllers/resources/ingester/statefulset.go:252-289 | a clean-up container exists exactly when not disabled, with a TSDB volume and not for soft tenants, and carries the keep list |
| Cleanup.KeepListIsStable | pkg/controllers/resources/ingester/statefulset.go:265-283 | the keep list does not depend on the order of the status |
| Routing.HashringsConfig | pkg/controllers/resources/router/configmap.go:30-79 | the loop builds exactly one kind of ring per ingester with tenants, with its own number of replicas, else the Service's, else two, and last the soft ring, whose endpoints are exactly the replicas of empty soft-tenant ingesters |
| Routing.Address | pkg/controllers/resources/ingester/ingester.go:69-83 | one address per replica, in order |
| Routing.ReplicasAre | pkg/controllers/resources/ingester/ingester.go:69-77 | whose number of replicas counts |
| Routing.TemplateMatters | pkg/controllers/resources/ingester/ingester.go:69-77 | changing the Service's replicas changes no ring of an ingester that sets its own |
| Routing.AddressIs | pkg/controllers/resources/ingester/ingester.go:69-83 | the address and ports of a replica, written out |
| Routing.SoftEndpointIff | pkg/controllers/resources/router/configmap.go:50-61 | an endpoint is soft if and only if it is a replica of an empty ingester with the soft-tenant label "true" |
| Routing.EndpointsDistinct | pkg/controllers/resources/ingester/ingester.go:69-83 | replica endpoints are distinct |
| Routing.PlacedTenantIsRouted | pkg/controllers/resources/router/configmap.go:44-79 | in every allocator state first-match lookup sends a placed tenant to the ring of its recorded ingester, with one endpoint for each replica the ingester sets, else the Service's number, else two |
| Routing.UnplacedTenantIsSoft | pkg/controllers/resources/router/configmap.go:50-79 | and every other tenant to the soft ring |
| Controllers.TenantReconciler.Ingester | pkg/controllers/resources/tenant/ingestor.go:24-173 | the reconciler, branch by branch on the API, takes exactly a tenant step of the allocator |
| Controllers.TenantReconciler.NeedResetIngester | pkg/controllers/resources/tenant/ingestor.go:175-222 | when a reset is due |
| Controllers.TenantReconciler.RemoveTenantFromIngesterByName | pkg/controllers/resources/tenant/ingestor.go:224-280 | the write that takes a tenant off a list and stamps an emptied ingester |
| Controllers.TenantReconciler.RetentionPeriod | pkg/controllers/resources/tenant/ingestor.go:251-269 | the retention through all its fallbacks |
| Controllers.TenantReconciler.CleanStatuses | pkg/controllers/resources/tenant/ingestor.go:41-65 | the sweep drops the deleted name, and no other entry, from the statuses of the ingesters in the service's namespace with the service's label and from no other |
| Controllers.TenantReconciler.FinalizeTenant | pkg/controllers/resources/tenant/ingestor.go:33-69 | the deletion branch as a whole; which statuses it cleans, from the tenant's own label |
| Controllers.TenantReconciler.PlaceByIndex | pkg/controllers/resources/tenant/ingestor.go:125-172 | the index loop places at the least open index |
| Controllers.TenantReconciler.PlaceAmongShared | pkg/controllers/resources/tenant/ingestor.go:112-172 | a listed tenant gets its reference, an unlisted one is placed |
| Controllers.TenantReconciler.PlaceInExclusive | pkg/controllers/resources/tenant/ingestor.go:98-110 | the exclusive placement |
| Controllers.ReconcileTenantObject | pkg/controllers/tenant_controller.go:58-90 | the controller around it takes a tenant step or none, and panics if and only if the service label is not empty and has no dot |
| Controllers.WriteCompactorFinalizer | pkg/controllers/resources/tenant/compactor.go:21-38 | the compactor part's write of its finalizer |
| Controllers.ReconcileWholeTenant | pkg/controllers/resources/tenant/tenant.go:23-37 | the two parts take exactly a whole reconcile |
| Controllers.DesiredStatus | pkg/controllers/ingestor_controller.go:93-111 | the two loops compute the status merge |
| Controllers.ReconcileIngesterObject | pkg/controllers/ingestor_controller.go:62-147 | the ingester reconcile takes exactly an ingester step of the allocator, or panics on a service label that is not of two parts |
| Controllers.Api.CreateOrUpdate | pkg/util/k8s.go:123-145 | a write replaces the spec and merges labels and annotations, the new values winning |
| Controllers.ContainsString | pkg/controllers/resources/tenant/ingestor.go:337-344 | membership |
| Controllers.RemoveString | pkg/controllers/resources/tenant/ingestor.go:346-354 | all occurrences go, order stays |
| Compaction.RunsKeepUnique | pkg/controllers/resources/tenant/compactor.go:19-139 | over every run with each tenant's exclusiveness fixed, any relabelling of service and storage included, no two compactors of a group list one tenant |
| Compaction.ExclusivePlacementUniqueIff | pkg/controllers/resources/tenant/compactor.go:71-83 | an exclusive placement keeps that if and only if no other compactor of the group lists the tenant |
| Compaction.ReconcileKeepsUniqueIff | pkg/controllers/resources/tenant/compactor.go:19-139 | any reconcile keeps "one compactor of a group per tenant" if and only if it is not an exclusive placement with another holder in the group |
| Compaction.DeletionLeavesListedIff | pkg/controllers/resources/tenant/compactor.go:27-37 | a deleted tenant stays listed if and only if a compactor its status does not name lists it |
| CompactionSafety.ReconcileKeepsHeldIff | pkg/controllers/resources/tenant/compactor.go:21-139 | a reconcile keeps every entry held by its tenant's finalizer if and only if it neither revives a lingering tenant nor finalizes one that an unrecorded compactor lists |
| CompactionSafety.LingeringIsListedIff | pkg/controllers/resources/tenant/compactor.go:27-139 | a finalized tenant that lingers gets listed again if and only if it is unrecorded, its storage is not local, and it is exclusive, finds room, or a compactor can be named for it |
| CompactionSafety.RunsKeepHeld | pkg/controllers/resources/tenant/compactor.go:21-139 | in all runs that avoid these two no entry outlives its tenant; the next rows replace the condition by one on user actions |
| CompactionRuns.OperatorRunsKeepHeld | pkg/controllers/resources/tenant/tenant.go:23-37 | over runs of whole reconciles no entry outlives its tenant, if users do not write the operator's finalizers, delete only tenants without foreign ones and with every entry recorded in the status, and add no foreign one under deletion |
| CompactionRuns.OneReconcileDeletes | pkg/controllers/resources/tenant/compactor.go:27-37 | there one whole reconcile takes a deleted tenant off the API and off every compactor |
| CompactionSafety.RunsKeepNonEmpty | pkg/controllers/resources/tenant/compactor.go:231-256 | in every run no compactor is empty |
| CompactionWitnesses.RevivalReached | pkg/controllers/resources/tenant/compactor.go:27-50 | a run reaches a tenant about to be revived |
| CompactionWitnesses.LeakReached | pkg/controllers/resources/tenant/compactor.go:123-138 | a run deletes a tenant during the detour of the empty name and leaves it listed |
| CompactionWitnesses.SecondHolderReached | pkg/controllers/resources/tenant/compactor.go:71-83 | a run puts a tenant on two compactors of its group |
| Compaction.DetourRepairs | pkg/controllers/resources/tenant/compactor.go:123-138 | the empty name recorded for a generated compactor is cleared and then repaired, with no second compactor |
| CompactorConvergence.OwnReconcileLowers | pkg/controllers/resources/tenant/compactor.go:19-139 | where shared tenants stay apart from exclusive compactors, a productive reconcile lowers the client's rank, and an unproductive one found it settled or stuck |
| CompactorConvergence.ReconciliationTerminates | pkg/controllers/resources/tenant/compactor.go:19-139 | there, with exclusive and shared tenants, at most five productive reconciles per client under every interleaving, so the detour is repaired whatever happens in between |
| CompactorConvergence.SettledIsRecorded | pkg/controllers/resources/tenant/compactor.go:98-138 | a settled client is recorded with the one compactor of its group that lists it; an exclusive one has it alone, a shared one is in a shared compactor |
| CompactorConvergence.NeverSettles | pkg/controllers/resources/tenant/compactor.go:71-121 | a shared tenant in an exclusive compactor goes round in three productive reconciles |
| CompactorConvergence.NeverSettlesReached | pkg/controllers/resources/tenant/compactor.go:112-121 | a run gets there |
| CompactorConvergence.PairSettlesIff | pkg/controllers/resources/tenant/compactor.go:71-121 | with an exclusive and a shared tenant in one group, productive reconciles of the shared one are bounded over all interleavings if and only if the limit is one at most |
| CompactorConvergence.ReconcileDisplacesIff | pkg/controllers/resources/tenant/compactor.go:71-83 | a reconcile takes another tenant off a compactor if and only if it is an exclusive placement over that compactor |
| Compaction.RunsStayWithinLimits | pkg/controllers/resources/tenant/compactor.go:112-121 | no compactor lists more than max(1, limit) in runs that lower no limit |
| Compaction.RoomIsUsed | pkg/controllers/resources/tenant/compactor.go:98-138 | a shared tenant nobody of its group lists joins a compactor with fewer than the limit if and only if there is one; a new one is made, or the reconcile panics, only when all are full |
| Compaction.StaysIff | pkg/controllers/resources/tenant/compactor.go:141-187 | no reset exactly when the recorded compactor exists, lists the tenant, has its service and storage, and is its own exclusive one if and only if the tenant is exclusive |
| CompactorController.CompactorApi.Compactor | pkg/controllers/resources/tenant/compactor.go:19-139 | the reconciler takes exactly a step of that model, and panics if and only if the tenant is stuck |
| CompactorController.CompactorApi.RemoveTenantFromCompactorByName | pkg/controllers/resources/tenant/compactor.go:231-256 | removal, with deletion of an emptied compactor |
| CompactorController.CompactorApi.NeedResetCompactor | pkg/controllers/resources/tenant/compactor.go:141-187 | when a reset is due |
| CompactorController.CompactorApi.PlaceAmongShared | pkg/controllers/resources/tenant/compactor.go:85-138 | a listed holder, else one with fewer than the limit if there is any, else a generated one, else, without a dot in the storage label, a panic |
| KeepRegex.KeepExpression | pkg/util/relabel_config.go:14-27 | the loop builds the alternation of anchored names |
| KeepRegex.KeepsExactlyListed | pkg/controllers/resources/compactor/statefulset.go:178-188 | under a position-by-position matcher of anchors, bars and plain characters, the expression of a non-empty list of plain names matches exactly its names |
| KeepRegex.EmptyListKeepsUnlabelled | pkg/util/relabel_config.go:14-27 | an empty list keeps only blocks without a tenant |
| KeepRegex.BlockKeptOnce | pkg/controllers/resources/compactor/statefulset.go:160-188 | in every run with exclusiveness fixed, no tenant's block is kept by two compactors of a group |
| Stores.FixpointIffExact | pkg/controllers/resources/tenant/store.go:20-150 | a pass changes nothing if and only if the live stores were in bijection with the expected groups |
| Stores.PassesOfTwoServices | pkg/controllers/resources/base.go:79-93 | passes of two Services agree if and only if they resolve the tenants to the same groups |
| Stores.SecondPassUndoes | pkg/controllers/resources/tenant/store.go:103-147 | what the second deletes and makes: exactly the groups that only one of the two resolves to |
| Stores.DefaultsUndoEachOther | pkg/controllers/resources/base.go:79-93 | two passes with different default storages in which the second deletes the Store of the first |
| Stores.DotlessStorageBlocks | pkg/controllers/resources/base.go:291-296 | a live Store and tenant whose storage label has no dot block every pass before its deletions |
| Stores.AbsentStorageBlocks | pkg/controllers/resources/base.go:291-296 | so do a live Store and tenant whose Storage object is gone |
| Stores.PairKeyInjective | pkg/controllers/resources/tenant/store.go:44 | the joined key determines service and storage |
| Stores.PartsMakePass | pkg/controllers/resources/tenant/store.go:44-147 | duplicates dropped, orphans deleted and missing created make one exact pass with survivors kept |
| Stores.StoreReconciler.ExpectedStores | pkg/controllers/resources/tenant/store.go:152-190 | the keys of live, labelled, non-local tenants |
| Stores.ExpectedIff | pkg/controllers/resources/tenant/store.go:152-190 | a group is expected if and only if a live tenant has its service and, resolved, its storage, which is not local |
| Stores.DeletingAddsNone | pkg/controllers/resources/tenant/store.go:161-164 | a tenant under deletion adds no group |
| Stores.StoreReconciler.DropDuplicates | pkg/controllers/resources/tenant/store.go:27-52 | one live store per key survives the listing |
| Stores.StoreReconciler.CreateMissing | pkg/controllers/resources/tenant/store.go:111-147 | one new store per missing group; done if and only if each can be named and its Storage read, else a panic or an error at one that cannot |
| Stores.StoreReconciler.Settle | pkg/controllers/resources/tenant/store.go:59-101 | the pairs on both sides are settled, unless the storage of one panics or is absent |
| Stores.StoreReconciler.Reconcile | pkg/controllers/resources/tenant/store.go:20-150 | the whole pass; done if and only if no expected group blocks it by its labels or an absent Storage; what is left undone, early and late |
| Sum64.OrAddsApart | pkg/controllers/resources/ruler/configmap.go:162 | or of disjoint bit ranges adds |
| Sum64.LowHalf | pkg/controllers/resources/ruler/configmap.go:159-163 | the 128-bit number modulo 2^64 is that of the last eight bytes |
| Sum64.Sum | pkg/controllers/resources/ruler/configmap.go:156-165 | the loop of shifts and ors computes the digest modulo 2^64 |
| RulerShards.ShardMultiplicity | pkg/controllers/resources/ruler/configmap.go:61-67 | a group is in shard sn as often as in the file if the big-endian last eight bytes of its digest are sn modulo the shards, and not at all otherwise |
| RulerShards.ShareShardIff | pkg/controllers/resources/ruler/configmap.go:64-66 | two groups share a shard if and only if their numbers are congruent modulo the shards |
| RulerShards.EveryShardIsReached | pkg/controllers/resources/ruler/configmap.go:64-66 | every shard is the shard of some digest |
| RulerShards.ShardKeepsOrder | pkg/controllers/resources/ruler/configmap.go:62-67 | a shard's groups stand at strictly increasing positions of the file |
| RulerShards.OneShardTakesAll | pkg/controllers/resources/ruler/configmap.go:56-90 | with one shard the general path gives the whole file |
| RulerShards.SplitGroups | pkg/controllers/resources/ruler/configmap.go:61-67 | the loop splits a file's groups into the shards, each by its digest |
| RulerShards.ShardRules | pkg/controllers/resources/ruler/configmap.go:51-90 | every shard gets exactly its rendered files, whatever the map order; fails if and only if a part cannot be rendered; shortcut included |
| Packing.NextFitKeepsOrder | pkg/controllers/resources/ruler/configmap.go:265-272 | the buckets concatenated are the sorted file names |
| Packing.NextFitWithinLimit | pkg/controllers/resources/ruler/configmap.go:243-272 | every bucket is within the limit |
| Packing.NextFitNonEmpty | pkg/controllers/resources/ruler/configmap.go:252-272 | a bucket is empty only when there are no files |
| Packing.NeighboursOverflow | pkg/controllers/resources/ruler/configmap.go:266-270 | two neighbouring buckets together exceed the limit |
| Packing.HalfFull | pkg/controllers/resources/ruler/configmap.go:241-283 | k >= 2 buckets hold more than (k-1)/2 limits |
| Packing.AtMostTwiceOptimal | pkg/controllers/resources/ruler/configmap.go:241-283 | at most twice the buckets of any packing of the same files |
| Packing.NextFitIsPacking | pkg/controllers/resources/ruler/configmap.go:241-283 | the result is itself such a packing |
| Packing.SortedKeysUnique | pkg/controllers/resources/ruler/configmap.go:257-263 | the result does not depend on the order of the map |
| Packing.PackFiles | pkg/controllers/resources/ruler/configmap.go:241-272 | an error if and only if some file alone is too large, else the next-fit buckets |
| Packing.BucketSize | pkg/controllers/resources/ruler/configmap.go:285-292 | the sum of the lengths |
| Text.SequenceNumberIffPrinted | pkg/controllers/resources/ruler/ruler.go:24 | the expression accepts exactly the canonical decimals |
| RulerNames.ConfigMapNameUnique | pkg/controllers/resources/ruler/configmap.go:277 | a ConfigMap name determines ruler, shard and number |
| RulerNames.StatefulSetNameUnique | pkg/controllers/resources/ruler/statefulset.go:58-92 | a StatefulSet name determines ruler and shard |
| RulerNames.ServiceNameUnique | pkg/controllers/resources/ruler/service.go:16-51 | a Service name determines ruler and shard |
| RulerNames.NamesAre | pkg/controllers/resources/ruler/ruler.go:51-53 | the names of the objects, written out |
| RulerNames.ClaimedConfigMaps | pkg/controllers/resources/ruler/configmap.go:120-132 | a name is claimed if and only if the ruler generates it |
| RulerNames.ClaimedStatefulSets | pkg/controllers/resources/ruler/statefulset.go:68-89 | likewise for StatefulSets |
| RulerNames.ClaimedServices | pkg/controllers/resources/ruler/service.go:26-48 | likewise for Services, with overlapping prefix and suffix |
| RulerNames.ClaimsOnlyOwn | pkg/controllers/resources/ruler/configmap.go:116-132 | an object generated for b is claimed by a if and only if a is b |
| RulerResources.ConfigMapOps | pkg/controllers/resources/ruler/configmap.go:111-150 | the emitted operations collect; none is emitted if and only if the claimed objects are the targets already and no target is empty |
| RulerResources.SecondRunIsQuietIff | pkg/controllers/resources/ruler/configmap.go:142-149 | after collection another run is quiet if and only if no target is empty |
| RulerResources.EmptyBucketIff | pkg/controllers/resources/ruler/configmap.go:252-279 | a bucket of a shard is empty if and only if no rule file has a group in the shard |
| RulerResources.FewGroupsNeverQuiet | pkg/controllers/resources/ruler/configmap.go:56-82 | without rules, or with one group and more shards, some shard has no file |
| RulerResources.NothingToCollect | pkg/controllers/resources/ruler/configmap.go:134-149 | when that is |
| RulerResources.ShardObjectOps | pkg/controllers/resources/ruler/statefulset.go:58-92 | after writing all targets and deleting what the earlier listing shows as stale, the claimed objects are exactly the shards', each as specified, and all others are as before |
| RulerResources.ShardObjectsExact | pkg/controllers/resources/ruler/service.go:16-51 | afterwards the ruler's objects are those of shards 0..n-1, other rulers' are as before |
| RulerResources.RuleConfigMaps | pkg/controllers/resources/ruler/configmap.go:37-153 | sharding, packing, naming, recording and collecting together; when it fails; nothing is emitted if and only if all is collected already and every shard has a file |
| RulerResources.RulesAreConserved | pkg/controllers/resources/ruler/configmap.go:51-109 | every group is in one shard, its file's part in exactly one ConfigMap, recorded for that shard and among the targets |
| Admission.Handler.SetAdmissionControl | pkg/monitoring-gateway/handler.go:164-192 | a delivery ends in agreement with the new list through maps that admit both lists' common tenants and none outside their union; panics exactly on a poisoned map |
| Admission.Handler.Diff | pkg/monitoring-gateway/handler.go:428-443 | the elements of one list that are not in the other, in order |
| Admission.ConfigWatcher.Refresh | pkg/monitoring-gateway/config_watcher.go:192-224 | what does not load or has the last hash is not sent |
| Admission.SendsIff | pkg/monitoring-gateway/config_watcher.go:192-224 | a content is sent if and only if it is readable, not empty, parses and has another hash than the last one sent |
| Admission.LoadsIff | pkg/monitoring-gateway/config_watcher.go:251-267 | what loads, an empty list of tenants included |
| Admission.MetricValueIsExact | pkg/monitoring-gateway/config_watcher.go:285-292 | the 48-bit value is below 2^53 |
| Admission.SameHashIff | pkg/monitoring-gateway/config_watcher.go:285-292 | equal values if and only if equal first six bytes |
| Admission.TakeTurn | pkg/monitoring-gateway/config_watcher.go:192-224 | watcher and handler together take a turn of the history, or panic |
| Admission.AdmitsLastValid | pkg/monitoring-gateway/handler.go:164-192 | over any file contents, after each turn the map agrees with the last content that loads |
| Admission.RequestPassesIff | pkg/monitoring-gateway/handler.go:164-192 | a tenant's request passes if and only if the last valid content lists it |
| Admission.PoisonedIff | pkg/monitoring-gateway/handler.go:166-175 | the next new content panics if and only if the first that loaded names "/-/" |
| Codecs.IndexByteNth | pkg/monitoring-gateway/handler.go:414-426 | the n-th occurrence, or -1 if and only if there are fewer |
| Codecs.ForwardedIs | pkg/monitoring-agent-proxy/server.go:82-97 | the proxy's path, written out |
| Codecs.Travel | pkg/monitoring-agent-proxy/server.go:82-97 | through proxy and gateway the path comes back if and only if the tenant has no slash |
| Codecs.StripUndoesPrefixIff | pkg/monitoring-gateway/requestinfo.go:23-37 | stripping undoes prefixing, for all paths, if and only if the tenant has no slash |
| Codecs.NoTenantKeptIff | pkg/monitoring-gateway/requestinfo.go:26-29 | without a tenant the path survives if and only if it has one slash |
| Codecs.GatewaySeesTenantIff | pkg/monitoring-gateway/requestinfo.go:32-34 | the first segment is the proxy's tenant if and only if that has no slash |
| Codecs.ParsesIff | pkg/util/utils.go:92-108 | exactly which labels parse, and to what |
| Codecs.LabelRoundTripIff | pkg/util/utils.go:80-108 | a service's label parses back to it if and only if neither part has a dot, and never to another service |
| Flags.ArgNameOf | pkg/util/utils.go:74-78 | "name" and "name=value" have that name |
| Flags.NameBegins | pkg/util/utils.go:74-78 | every argument is of one of these forms |
| Flags.Container.Contains | pkg/util/utils.go:26-34 | membership |
| Flags.Container.ReplaceInSlice | pkg/util/utils.go:57-72 | the first argument of the name is replaced, and only that; reports whether there was one |
| Flags.Container.MergeFlags | pkg/controllers/resources/compactor/statefulset.go:243-264 | the loop and sort compute the merge |
| Flags.MergeByName | pkg/controllers/resources/ingester/statefulset.go:187-205 | name by name, repeatable flags are appended, otherwise the last flag takes the first default's place |
| Flags.MergedByName | pkg/controllers/resources/ingester/statefulset.go:187-207 | after sorting: head in place, rest sorted, contents by name |
| Flags.LastWins | pkg/controllers/resources/compactor/statefulset.go:243-264 | with distinct defaults a last-wins map; repeatable multiplicity kept; unsupported names keep only the defaults |
| Flags.LastFlagWins | pkg/controllers/resources/compactor/statefulset.go:243-264 | the last flag of a replaceable name is the only argument of that name, wherever it stands |
| Flags.FirstArgStays | pkg/controllers/resources/compactor/statefulset.go:263 | the subcommand stays first when user flags start with two dashes |
| Flags.OrderIsIrrelevant | pkg/controllers/resources/ingester/statefulset.go:187-207 | flag lists that differ only in order across names or in overridden values give the same command line |
| Flags.IdempotentIff | pkg/controllers/resources/compactor/statefulset.go:243-264 | merging again changes nothing if and only if no flag is repeatable |

## Assumptions

* One reconcile body is one atomic step in which API calls succeed; reads are fresh; reading an
  absent object gives "not found".
* Tenants have distinct ids (`Spec.Tenant`, defaulted to the name), and an id once stored is not
  edited. For compactors and status clean-up the name and the id are the same, as the controller's
  defaulting makes them.
* The ingester's finalizer is not edited by hand, and in runs of whole reconciles neither is the
  compactor's; `AllocationSafety.HandRemovalKeepsIff` says when removing the former does no harm.
* Labels of Services, storages and tenants are strings; Services are named by a label of two
  parts, as `util.ServiceNamespacedName` reads it.
* Service labels of stores and tenants contain no "|" where a member says `Barless`.
* Names passed through the shell script or a regular expression are plain (no separators, blanks
  or pattern characters) where a member says `IsPlain`.
* MD5, YAML, JSON, rule validation and the reading of durations are function parameters or
  numbers. The admission history assumes that no two of its contents share the 48-bit hash and
  none has hash zero.

## Left out

- AllocationSafety.RunsKeepInv: runs with a reconcile of a lingering, already finalized tenant are excluded; ReconcileKeepsIff and RevivedTenantLeaks say what such a reconcile does, and OperatorRuns.OperatorRunsKeepInv replaces the condition by one on the users' actions.
- Compaction.RunsKeepUnique: exclusiveness is fixed per tenant name; ExclusivePlacementUniqueIff says when changing it breaks the law.
- OperatorRuns.OperatorRunsKeepInv: the ruler's part, which lies between the two parts, is assumed to succeed; a user action between the parts of one reconcile is not modelled.
- CompactorConvergence.ReconciliationTerminates: exclusive tenants must not be named like compactors generated for shared ones; ReconcileDisplacesIff says what such a name leads to.
- Stores.StoreReconciler.Reconcile: a generated Store name is new among the live names and those of the listing, as the API server picks it; the values of the hash annotations are not part of the model, only whether a storage can be hashed.
- Cleanup.Words: globbing and word splitting of names that are not plain, and `ls` itself, are not modelled.
- Stale caches, conflicts, retries and crashes between the two writes of a placement.
- The branches for an empty service label inside the tenant reconcilers: the controller returns before them.
- Template filling of ingester specs, except that templates list no tenants; annotations other than state and deletion time; the decimal text of the deletion time.
- Shards of zero (the shard slice is then empty) and more shards than a slice can have.
- Aliasing between a slice and its appended copy: lists are values held in a field.
- Byte offsets inside multi-byte characters: paths are sequences of characters.
- Construction of Pods, Deployments, Services, volumes and Envoy configuration; tenant rulers, secrets, query and front-end components.
- PromQL matcher injection, TLS, authentication, proxying and remote write.
- HTTP routing of the gateway, apart from the first path segment being the tenant.
