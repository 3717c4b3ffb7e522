# Curity operator: models and proofs

The operator reconciles four custom resources (clusters, nodes, databases and the managed configuration that
clusters mount) against a Kubernetes API server. Its hard parts are protocols: several reconcilers share Secrets,
Jobs, conditions and owner references, read them from caches of different ages, and may stop between any two
writes. This project models those protocols and proves what they promise.

`dafny verify dfyconfig.toml` checks everything.

| part | files |
|---|---|
| cluster.xml protocol | `ClusterConfig` (decision tree, step machine, imperative reconciler), `JobFailure`, `NodeGate`, `ConfigHash`, `ConfigProtocol` (all runs), `ConfigOutcomes` (one reconcile, case by case), `ConfigConvergence`, `ConfigWitnesses` |
| ownership and deletion | `OwnerRefs`, `Ownership` (events, invariant), `Finalizers` (what deletion waits for), `ControllerRefs` (what can dangle), `OrphanCleanup` |
| database Job | `DatabaseJob` (reconciler), `DatabaseProtocol` (all runs), `DatabaseOutcomes` (one reconcile, case by case) |
| keystore publication | `ConvertKeystore` (specification and properties), `DataFraming` (data hash), `KeystoreReconciler` (loops and writes) |
| pod watches and verdicts | `PodStates`, `CurrentReplicaSet`, `PackageStatus`, `PodMessages`, `PodSignature`, `PodVerdicts` (what the texts are about), `PodWatches`, `PodWitnesses`, `PackageRecovery` |
| managed configuration | `ManagedConfig` (scope, discovery, watches, hash), `ConfigMounts` (logging validation, mount paths) |
| roll-ups | `RollUps` |
| shared | `Framing`, `Text`, `Ordering`, `Sorting`, `Sequences`, `Runs`, `Wrappers` |

Digests are collision-free by construction: a digest is its own pre-image, and what is proved is that the hashed
bytes determine the hashed fields. In the protocol files a *run* is any list of events from an initial state; an
event that is not enabled changes nothing, so every theorem about runs is a theorem about every interleaving.

## What was found

Some promises hold only under a condition. The code is modelled as it is. Where the text says *exactly*, the condition
is proved necessary and sufficient; elsewhere for-all lemmas show the failing side.

- ClusterConfigReady=True has real data beside it exactly when that data is not the text `placeholder` printed by a
  genclust run (`ConfigProtocol.ReadyMeansReal`). Such a run is published as ready
  (`ConfigWitnesses.PlaceholderOutputIsPublished`), and if every run prints it the protocol never comes to rest
  (`ConfigConvergence.PlaceholderLogsNeverRest`).
- The node reconciler reads the config Secret twice, once for the gate and once for the stamp. A Deployment is stamped
  with xml of its own spec exactly when the second reading is populated and annotated with that spec's hash
  (`ConfigProtocol.NoMixedVersions`); a regeneration in between makes it stamp the placeholder
  (`ConfigWitnesses.SecondReadingCanBePlaceholder`). The comment in the code says the flip-before-reset order prevents
  this.
- No fault sets the cluster.xml protocol back, except giving up the log of an undrifted, completed Job
  (`ConfigConvergence.FaultsDoNotSetBack`, `ConfigConvergence.OnlyALostLogSetsBack`).
- The UID of a cluster that is gone never shows in a node's controller reference again exactly when no node shows it, no
  owner-reference patch in flight that will be accepted carries it, and the node reconciler's cluster cache no longer
  shows it (`ControllerRefs.ControllerNeverDangles`). A removal without children meets the first two, and the third once the
  cache has caught up (`ControllerRefs.ChildlessRemovalIsSafe`); until then every removal leaves a window
  (`ControllerRefs.RemovalOpensAWindow`). With a current cache there remain the clusters deleted before they carry their
  finalizer and the nodes that point at a cluster after the snapshot its deletion pass has listed, or before it with an
  old list (`ControllerRefs.UnprotectedClusterDangles`, `ControllerRefs.RacedReleaseDangles`).
- Once the completion of a hash is persisted and that hash is computed, `idsvr -I` never runs again while it stays so,
  exactly when no live Job of another hash is in the way and no reconcile in flight works for another hash or is about to
  write a status that forgets (`DatabaseProtocol.RunOnce`). Each failing kind of state is reached by editing the image
  away and back (`DatabaseProtocol.FailingStatesAreReachable`).
- An edit of the published keystores goes unhealed exactly when the separator between two values, NUL key NUL, can be read
  at a second place in or around them (`DataFraming.DigestCollidesIff`, `ConvertKeystore.EditsAreHealedIff`); NUL-free
  data has no such place.
- The config hash is a spec's own exactly when image and pull secret hold no NUL and there are no packages; the other spec
  then has a NUL in its image or pull secret (`ConfigHash.ConfigDigestSharedIff`). Between NUL-free specs it never
  collides (`ConfigHash.ConfigDigestInjective`).
- The package Secret hash is shared by another state of the Secrets exactly when, of two referenced names in a row, one
  Secret has the second name for its resource version and the other Secret is missing
  (`PackageRecovery.HashCollidesIff`).
- An update that the package pod watch drops changes PackagesReady exactly when the pod counts, no counting pod before it
  fails, and its own share changes and is not outdone by an equal failure after it; a share changes only when fetch
  containers vanish or move. It changes the wording of the Degraded message exactly when the pod is the one blamed and
  its detail changes (`PodWatches.DroppedPackageUpdate`). Updates of the deletion stamp, the owners or the hash, and all
  updates without the managed-by label, are dropped whatever the verdict does (`PodWitnesses`).
- A termination summary is a single line except for a log of nothing but stack frames (`PodMessages.SummaryIsOneLine`).
- Orphan cleanup deletes by kind and name, so with an old list it removes a successor that somebody else owns
  (`OrphanCleanup.OldListDeletesSuccessor`).

## Assumptions

- One admin node at a time, named by the node list. Only the cluster reconciler writes the config Secret and the
  genclust Job, and it reads its own writes of Secret, Job and condition; the spec and the node list it begins with may
  be of any age, and so may everything the node reconciler reads. The spec and the condition of a cluster are read
  together by the node reconciler because they are one object.
- The database reconciler reads its own status writes and the present Job, and package recovery reads the present
  Secrets; what they decide on may still be overtaken before they write.
- What a reconcile reads between two of its writes it reads at once. A crash may happen before every write.
- The log of a Job is attached to that Job; the label lookup by Job name is not part of this model. Hash
  annotations on Jobs are not empty.
- The name of a node's Service and children is an arbitrary function of cluster and node; nothing depends on its
  digest suffix. The packages hash is an opaque string that is empty or hexadecimal.
- The API server gives every write a fresh resource version, rejects a patch that would leave two controller
  references, and rejects stale versions where the code asks for that. The node reconciler's cluster cache lags by any
  amount and moves forward only; child lists are snapshots of any age.
- PKCS#12 encoding is a parameter: whether a pair converts is fixed, which bytes come out is not.
- Secret names and resource versions hold no NUL, and the referenced Secret names are distinct, as the code sees to.
- Container names are DNS labels, image references hold nothing that quoting escapes, names are unique within their
  list, and at most one member of a container state is set, as the Kubernetes API demands.

## Model

| member | source | states |
|---|---|---|
| `ConfigHash.ConfigDigestInjective` | internal/controller/identityservercluster_reconciler.go:602-622 | two sets of inputs share a config hash exactly when they are equal: NUL framing, optional packages and optional port can be parsed back |
| `ConfigHash.NulBreaksConfigDigest` | internal/controller/identityservercluster_reconciler.go:602-622 | every spec with a NUL in image or pull secret, or with packages, shares its hash with the spec that reads this NUL as the end of another field |
| `ConfigHash.ConfigDigestSharedIff` | internal/controller/identityservercluster_reconciler.go:602-622 | exactly those share it, when image and pull secret are free text and the admin is a name |
| `ClusterConfig.EnsureClusterConfig` | internal/controller/identityservercluster_reconciler.go:838-1223 | the reconciler as written ends in the state, condition and error of the step machine, and persists exactly the machine's trail of states, in its order |
| `ClusterConfig.EnsureJob` | internal/controller/identityservercluster_reconciler.go:1010-1221 | drift, completion, failure, running and creation each end as the machine's Job step does, write for write |
| `ClusterConfig.RotateEncryptionKey` | internal/controller/identityservercluster_reconciler.go:870-898 | on a key rotation the condition is persisted False first, then the Secret is reset, then the Job goes |
| `ClusterConfig.ResetForFullRegen` | internal/controller/identityservercluster_reconciler.go:952-989 | on a regeneration the same order holds and the reconcile goes on at the Job steps |
| `ClusterConfig.SettleEnds` | internal/controller/identityservercluster_reconciler.go:838-1223 | every phase of the machine ends its reconcile after a bounded number of writes |
| `ConfigProtocol.StepKeepsInv` | internal/controller/identityservercluster_reconciler.go:838-1223 | every edit, Job outcome, single API write, crash and node reconcile keeps the protocol invariant |
| `ConfigProtocol.SecretIsAlwaysExplained` | internal/controller/identityservercluster_reconciler.go:921-949 | provenance: at every point of every run, real xml annotated with inputs, admin and key derives from a genclust run by in-place renames, the annotations name exactly those inputs, and the run had that encryption key or none |
| `ConfigProtocol.DerivationMeaning` | internal/controller/identityservercluster_reconciler.go:921-949 | a derivation starts at a Job run with the same image, pull secret, packages, port and key; each rename rewrote one host tag and nothing around it, and the tag of the annotated admin occurs |
| `ConfigProtocol.PopulateStaysSound` | internal/controller/identityservercluster_reconciler.go:1017-1103 | the output of a Job with the present config hash, under the present key or none, populates the Secret with annotations that are true of it |
| `ConfigProtocol.ReadyMeansReal` | internal/controller/identityservercluster_reconciler.go:870-1113 | write ordering, exactly: in every persisted state of every run ClusterConfigReady=True has a Secret whose data is real, except exactly when it is the placeholder printed by a genclust run with the annotated inputs |
| `ConfigProtocol.NoMixedVersions` | internal/controller/identityservernode_reconciler.go:372-433 | with an admin, however old the reads: every rollout of every run read an open gate and deploys what it read, and it is stamped with real xml generated for the very spec that supplied its image, pull secret and packages, exactly when the Secret read for the stamp is populated and annotated with that spec's hash; one reading for gate and stamp suffices |
| `ConfigProtocol.GateIsExact` | internal/controller/identityservernode_reconciler.go:372-433 | a node reconcile adds a rollout if and only if no admin was read, or ready was read and the Secret read is populated, carries the hash of the spec and admin read, and has no key hash or one the readable credentials do not contradict; the Deployment carries that spec and stamps exactly the non-empty data of the second reading |
| `ConfigProtocol.StampMeaning` | internal/controller/identityservernode_reconciler.go:543-559 | such a stamp goes back to a genclust run with the same image, pull secret, packages and port, under the Secret's key or none |
| `ConfigWitnesses.FirstGeneration` | internal/controller/identityservercluster_reconciler.go:994-1113 | the undisturbed first generation ends ready, with the Job's log and hashes in the Secret and the Job gone |
| `ConfigWitnesses.PlaceholderOutputIsPublished` | internal/controller/identityservercluster_reconciler.go:564-567 | from every initial state with an admin, a run that prints the placeholder ends with ready persisted beside it |
| `ConfigWitnesses.SecondReadingCanBePlaceholder` | internal/controller/identityservernode_reconciler.go:543-559 | from every such state a run exists in which the second Secret reading stamps the placeholder |
| `ConfigConvergence.RoundProgress` | internal/controller/identityservercluster_reconciler.go:838-1223 | away from rest every round brings rest strictly nearer; at rest it stays |
| `ConfigConvergence.Converges` | internal/controller/identityservercluster_reconciler.go:838-1223 | from any Secret and any Job, with inputs fixed and real logs, as many rounds as the distance (three at most) reach the steady branch or an undrifted failed Job |
| `ConfigConvergence.FaultsDoNotSetBack` | internal/controller/identityservercluster_reconciler.go:838-1223 | a reconcile cut after any number of writes, with any answers but a lost log, leaves the distance from rest no greater |
| `ConfigConvergence.OnlyALostLogSetsBack` | internal/controller/identityservercluster_reconciler.go:1046-1065 | a write, wherever in a reconcile it stands, leaves the distance greater than the reconcile found it exactly when it gives up the log of an undrifted, completed Job |
| `ConfigConvergence.ConvergesDespiteFaults` | internal/controller/identityservercluster_reconciler.go:838-1223 | whatever cut, refused or repeated reconciles come in between, as many undisturbed rounds as the distance bring rest |
| `ConfigConvergence.RestIsQuiet` | internal/controller/identityservercluster_reconciler.go:900-906 | at rest no reconcile persists any state again but the condition, and a failed undrifted Job is never deleted |
| `ConfigConvergence.FreshIffSteadyForever` | internal/controller/identityservernode_reconciler.go:1221-1275 | two decision procedures agree: on a shared snapshot the node reconciler calls the config fresh exactly when the cluster reconciler, however often it runs, attempts no write of Secret or Job and reports ready |
| `ConfigConvergence.PlaceholderLogsNeverRest` | internal/controller/identityservercluster_reconciler.go:1046-1113 | if every run prints the placeholder, no number of rounds reaches rest |
| `ConfigOutcomes.WaitsForAdmin` | internal/controller/identityservercluster_reconciler.go:843-852 | one undisturbed reconcile, by what it finds: without an admin nothing but the condition changes |
| `ConfigOutcomes.KeyRotationResets` | internal/controller/identityservercluster_reconciler.go:870-898 | real data under another known key: placeholder with the former admin and the present key and hash, no Job, not ready |
| `ConfigOutcomes.KeyRotationFlipsFirst` | internal/controller/identityservercluster_reconciler.go:870-898 | and what is persisted on the way, in order: the condition flipped, then the Secret reset, then the Job gone, nothing else |
| `ConfigOutcomes.CurrentDataStays` | internal/controller/identityservercluster_reconciler.go:900-906 | real data with the present hash stays as it is, ready |
| `ConfigOutcomes.MissingHashIsAdded` | internal/controller/identityservercluster_reconciler.go:908-919 | real data without a hash, of the present admin: only the hash is added, ready |
| `ConfigOutcomes.MovedAdminIsRenamed` | internal/controller/identityservercluster_reconciler.go:921-949 | real data of which only the admin has changed: its first host tag is rewritten where it stands, hash and admin are annotated, ready |
| `ConfigOutcomes.OtherDataIsRegenerated` | internal/controller/identityservercluster_reconciler.go:952-989 | any other real data: placeholder, and a Job of the present inputs and key unless its pod is refused |
| `ConfigOutcomes.RegenerationFlipsFirst` | internal/controller/identityservercluster_reconciler.go:952-989 | in the same order, with the new Job last |
| `ConfigOutcomes.MissingJobIsCreated` | internal/controller/identityservercluster_reconciler.go:994-1008 | no real data and no Job: one is created with image, pull secret, packages, port, admin and key as they are, unless its pod is refused |
| `ConfigOutcomes.DriftedJobGoes` | internal/controller/identityservercluster_reconciler.go:1013-1043 | no real data beside a Job whose non-empty config hash or non-empty key hash differs from the present one: the Job goes whatever its state, the Secret stays, not ready |
| `ConfigOutcomes.UnfinishedJobStays` | internal/controller/identityservercluster_reconciler.go:1105-1180 | any other running or failed Job stays, and the condition says which |
| `ConfigOutcomes.CompletedJobIsPublished` | internal/controller/identityservercluster_reconciler.go:1046-1113 | of any other completed Job the log is published as it is under the present admin, hash and key, ready |
| `ConfigOutcomes.UnpublishableJob` | internal/controller/identityservercluster_reconciler.go:1046-1080 | an empty log gives up the Job, an unreadable one does so after the grace |
| `ConfigOutcomes.EveryEditChangesTheHash` | internal/controller/identityservercluster_reconciler.go:602-622 | the config hash changes with every edit of image, pull secret, packages, admin or port, and only then |
| `JobFailure.CauseIsNeverLost` | internal/controller/identityservercluster_reconciler.go:1682-1695 | over any row of reconciles of a failed Job the message carries the last cause a pod has shown, however many pods are collected since |
| `JobFailure.WarningsAreBounded` | internal/controller/identityservercluster_reconciler.go:1120-1143 | at a fixed generation the Warning fires once for the first report and then for new causes only |
| `JobFailure.WarningsAreExact` | internal/controller/identityservercluster_reconciler.go:1120-1143 | after any other condition it fires exactly for the first report and then for every new cause |
| `OwnerRefs.EnsureClusterOwnerRef` | internal/controller/identityservernode_reconciler.go:1324-1353 | the loop leaves exactly the specified references and answers whether they changed |
| `OwnerRefs.OwnedIsCanonical` | internal/controller/identityservernode_reconciler.go:1319-1353 | one reference to a cluster remains, the canonical one; all others keep their order |
| `OwnerRefs.OwnedUnchangedIff` | internal/controller/identityservernode_reconciler.go:1345-1353 | no patch exactly when the references were already in that shape |
| `OwnerRefs.OwnedIdempotent` | internal/controller/identityservernode_reconciler.go:1324-1353 | a second pass changes nothing |
| `Ownership.StepKeepsInv` | internal/controller/identityservercluster_reconciler.go:82-108 | every cluster, node, finalizer, cache and patch event keeps the ownership invariant: UIDs are never reused, a pass on an unmoved node holds it as it is, a cleared cluster that was not raced has no child |
| `ControllerRefs.ControllerNeverDangles` | internal/controller/identityservernode_reconciler.go:193-234 | no cascade deletion, exactly: in every reachable state, for every UID that is gone, no continuation ever shows it in a node's controller reference, if and only if no node shows it, no acceptable patch in flight carries it, and the cluster cache neither shows it nor has yet to come by it |
| `ControllerRefs.ReleaseMeansNoChildren` | internal/controller/identityservercluster_reconciler.go:263-277 | a cluster leaves on its release only when no node is its child by spec or by controller UID, unless one became its child after the listed snapshot |
| `Finalizers.FinalizerHolds` | internal/controller/identityservercluster_reconciler.go:77-108 | in every run an event that removes a cluster that carries its finalizer is the release by a deletion pass over that very cluster, and the list of that pass, however old, showed no node that is its child by spec or by controller UID |
| `Finalizers.ChildlessDeletionEnds` | internal/controller/identityservercluster_reconciler.go:82-108 | a deletion pass over a list without children lets the cluster go, and touches no node |
| `Finalizers.DeletionWaits` | internal/controller/identityservercluster_reconciler.go:110-120 | a live cluster gets its finalizer and is then only marked by its deletion; without one it goes at once |
| `ControllerRefs.ChildlessRemovalIsSafe` | internal/controller/identityservercluster_reconciler.go:82-108 | in every reachable state a release or deletion that removes a childless cluster, raced or not, leaves no reference and no acceptable patch, and once the cluster cache has caught up the UID never dangles |
| `ControllerRefs.RemovalOpensAWindow` | internal/controller/identityservernode_reconciler.go:193-234 | until it has caught up every removal can be followed by a node with a dead controller |
| `ControllerRefs.UnprotectedClusterDangles` | internal/controller/identityservercluster_reconciler.go:110-120 | in every reachable state with a cluster that lacks the finalizer and an adoptable node naming it, a continuation removes it and leaves a UID that can dangle although the cache has caught up |
| `ControllerRefs.RacedReleaseDangles` | internal/controller/identityservercluster_reconciler.go:82-108 | in every reachable state with a cluster cleared for release and an adoptable node naming it, so does a release |
| `ControllerRefs.RacedStateIsReachable` | internal/controller/identityservercluster_reconciler.go:82-108 | such a state is reached for any names, by pointing after the list and by a list that lags |
| `ControllerRefs.UnprotectedStateIsReachable` | internal/controller/identityservercluster_reconciler.go:110-120 | and so is one with an unprotected cluster |
| `OrphanCleanup.CleanupOrphanChildren` | internal/controller/identityservernode_reconciler.go:1715-1800 | over five kinds in turn only listed orphans go, and after a clean pass a live child is gone exactly when the list showed an orphan under its kind and name; on a current list everything foreign, unlabelled or correctly named stays |
| `OrphanCleanup.CleanKind` | internal/controller/identityservernode_reconciler.go:1727-1753 | the loop over one kind removes only its listed orphans, all of them unless a delete fails |
| `OrphanCleanup.MoveLeavesNoOrphan` | internal/controller/identityservernode_reconciler.go:187-193 | whatever moves, failed passes and old reads came before: once all reconciles work for one cluster, one clean pass over lists taken since then leaves no labelled child of the node under another name, for good |
| `OrphanCleanup.OthersAreSpared` | internal/controller/identityservernode_reconciler.go:1702-1714 | children that are never this node's survive every run of moves and reconciles unchanged, however old the lists |
| `OrphanCleanup.CurrentIsSpared` | internal/controller/identityservernode_reconciler.go:1727-1730 | a child under the current name survives any number of full or partial passes unchanged |
| `OrphanCleanup.OldListDeletesSuccessor` | internal/controller/identityservernode_reconciler.go:1727-1741 | in every state with an orphan: if somebody else takes over its kind and name, a clean pass over the list from before deletes the successor |
| `DatabaseJob.Database.Reconcile` | internal/controller/identityserverdatabase_reconciler.go:109-184 | the reconciler as written follows the decision function in status, Job and creations, and keeps the persisted status when its write conflicts; `DatabaseOutcomes` says what that function answers, case by case |
| `DatabaseJob.Database.CreateJob` | internal/controller/identityserverdatabase_reconciler.go:254-289 | admitted, denied and inconclusive dry runs each leave the stated Job, status and creation |
| `DatabaseJob.Database.ApplyJobStatus` | internal/controller/identityserverdatabase_reconciler.go:320-351 | the outcome of the Job is reflected, and only a running Job asks for the pod's cause |
| `DatabaseProtocol.StepKeepsInv` | internal/controller/identityserverdatabase_reconciler.go:109-184 | every event, lost write and crash keeps truthful memory and the recovery budget |
| `DatabaseProtocol.MemoryIsTruthful` | internal/controller/identityserverdatabase_reconciler.go:320-336 | in every run a persisted completion of a hash means that any existing Job of that hash is complete |
| `DatabaseProtocol.RunOnce` | internal/controller/identityserverdatabase_reconciler.go:109-184 | run-once, exactly: in every reachable state with the completion of h persisted and h computed, no continuation under h ever creates a Job, if and only if no live Job of another hash is in the way and no reconcile in flight works for another hash or is about to forget |
| `DatabaseProtocol.DoneIsForGood` | internal/controller/identityserverdatabase_reconciler.go:116-125 | the good half, with the Job kept or collected, status writes lost, Secrets edited and crashes anywhere |
| `DatabaseProtocol.OtherwiseRunsAgain` | internal/controller/identityserverdatabase_reconciler.go:135-154 | the other half: from each failing kind of state a short continuation under h creates another Job |
| `DatabaseProtocol.FailingStatesAreReachable` | internal/controller/identityserverdatabase_reconciler.go:109-154 | from every initial state and for every other hash each failing kind is reached with the completion persisted |
| `DatabaseProtocol.PersistedCompletionIsDone` | internal/controller/identityserverdatabase_reconciler.go:320-336 | that state is reached as soon as one reconcile observes the completed Job and its write lands |
| `DatabaseProtocol.RecoveriesAreBounded` | internal/controller/identityserverdatabase_reconciler.go:156-171 | in every run failed Jobs are recreated for a changed Secret at most as often as the Secrets' content hash changed |
| `DatabaseOutcomes.BudgetIsUsedUp` | internal/controller/identityserverdatabase_reconciler.go:156-171 | and that bound is met: from every initial state and for every n a run with n edits of the Secrets recovers n times |
| `DatabaseOutcomes.FailedJobIsRecovered` | internal/controller/identityserverdatabase_reconciler.go:156-171 | from every idle state with a live failed Job of the computed hash and another connection hash, one undisturbed reconcile deletes the Job, forgets its outcome and counts one recovery, and the next creates a Job of the same hash with the present connection hash |
| `DatabaseOutcomes.FailedJobStays` | internal/controller/identityserverdatabase_reconciler.go:156-184 | with the present connection hash the failed Job stays, no recovery is counted, and its failure is reported |
| `DatabaseOutcomes.RememberedIsLeftAlone` | internal/controller/identityserverdatabase_reconciler.go:121-126 | without a Job and with the hash remembered as completed nothing changes |
| `DatabaseOutcomes.MissingJobIsCreated` | internal/controller/identityserverdatabase_reconciler.go:127 | without a Job and without that memory a Job of the present hashes is created, unless admission denies its pod; then the cause is shown |
| `DatabaseOutcomes.LingeringJobIsAwaited` | internal/controller/identityserverdatabase_reconciler.go:132-139 | a Job that is being deleted is waited for, and only Progressing changes |
| `DatabaseOutcomes.OutdatedJobGoes` | internal/controller/identityserverdatabase_reconciler.go:141-154 | a live Job of another hash goes whatever became of it, and its outcome is forgotten |
| `DatabaseOutcomes.RunningJobIsReported` | internal/controller/identityserverdatabase_reconciler.go:174-184 | a running Job stays and is reported, with its pod's cause if there is one |
| `DatabaseOutcomes.CompletionIsReported` | internal/controller/identityserverdatabase_reconciler.go:320-336 | a completed Job stays, its hash is remembered and all conditions tell of it |
| `DatabaseOutcomes.UnresolvedIsReported` | internal/controller/identityserverdatabase_reconciler.go:68-107 | a reconcile that cannot resolve its references sets Ready to False and touches nothing else |
| `KeystoreReconciler.EnsureConvertedKeystores` | internal/controller/convert_keystore.go:107-280 | the reconciler as written publishes, keeps or clears what the specification says for some sort of the list, sets that condition, and writes at most once and only when the specification writes |
| `KeystoreReconciler.ReadSources` | internal/controller/convert_keystore.go:132-163 | the first missing or incomplete source stops the reconcile with its reason; otherwise all reads are returned |
| `KeystoreReconciler.ConvertAll` | internal/controller/convert_keystore.go:191-221 | the conversion loop fills its maps and failure list as specified, read by read |
| `KeystoreReconciler.HashConvertKeystoreData` | internal/controller/convert_keystore.go:85-101 | the loop hashes the sorted keys with their values, independent of map order |
| `KeystoreReconciler.HashInputs` | internal/controller/convert_keystore.go:165-182 | the loop hashes encoding version, version and the reads in order |
| `ConvertKeystore.NoChurn` | internal/controller/convert_keystore.go:232-265 | after one reconcile, unchanged inputs and an untouched Secret are never written again, whatever bytes the encoder returns in however many reconciles |
| `ConvertKeystore.BytesDoNotMatter` | internal/controller/convert_keystore.go:191-221 | the encoder's bytes reach values only: keys, producers and failures do not depend on them |
| `DataFraming.DigestCollidesIff` | internal/controller/convert_keystore.go:85-101 | some other content under the same keys has the same data hash exactly when, for two keys in a row, the separator NUL key NUL occurs at a second offset in the one value, the separator and the other value |
| `ConvertKeystore.EditsAreSeenIff` | internal/controller/convert_keystore.go:232-238 | of a settled output every edit of the data forces a write, if and only if the data is not ambiguous in that way |
| `ConvertKeystore.EditsAreHealedIff` | internal/controller/convert_keystore.go:107-265 | of every output that a reconcile publishes or keeps, every later edit is overwritten by the next reconcile of the same inputs, if and only if the data is not ambiguous |
| `ConvertKeystore.TamperingForcesWrite` | internal/controller/convert_keystore.go:232-238 | NUL-free data is not: a settled output needs a write after an edit exactly when the edit changed the data |
| `ConvertKeystore.NulHidesTampering` | internal/controller/convert_keystore.go:85-101 | an ambiguous output is published from every certificate that holds framing bytes, with the edit that no reconcile heals |
| `ConvertKeystore.InputDigestInjective` | internal/controller/convert_keystore.go:165-182 | equal input hashes mean equal versions and equal reads |
| `ConvertKeystore.ChangedInputsForceWrite` | internal/controller/convert_keystore.go:232-265 | a changed input or key set publishes the new data with both hashes |
| `ConvertKeystore.NeverWiped` | internal/controller/convert_keystore.go:223-230 | while conversions are asked for, a non-empty output is never emptied or removed |
| `ConvertKeystore.ReadyIff` | internal/controller/convert_keystore.go:267-279 | Ready=True exactly when every source is there, every pair converts and all output names differ; then exactly those names are published, and the count is never negative |
| `ConvertKeystore.NoFailureIff` | internal/controller/convert_keystore.go:191-221 | no failure exactly when every pair converts and no name is claimed twice |
| `ConvertKeystore.FailuresBounded` | internal/controller/convert_keystore.go:191-221 | each item adds one failure at most |
| `ConvertKeystore.PublishedValues` | internal/controller/convert_keystore.go:197-221 | without failures each item's name carries its own keystore, and its certificate name its own certificate |
| `ConvertKeystore.FirstProducerWins` | internal/controller/convert_keystore.go:191-221 | with any failures: a name is collected exactly when a read that converts claims it, and then it holds the bytes of the first such read, in order, and names that read as its producer |
| `ConvertKeystore.WrittenIsClaimed` | internal/controller/convert_keystore.go:232-265 | so every write publishes exactly the claimed names, each with the bytes of its first claimant |
| `ConvertKeystore.FailuresAreFaults` | internal/controller/convert_keystore.go:191-221 | the failure list holds exactly the reads that do not convert and the reads that lose a name to an earlier producer |
| `ConvertKeystore.ReasonMeaning` | internal/controller/convert_keystore.go:132-163 | the reported reason and count are those of the first incomplete source, else of the conversions |
| `ConvertKeystore.SpecOrderDoesNotMatter` | internal/controller/convert_keystore.go:132-139 | with unique key names, keys, producers and condition do not depend on the order of the list |
| `PodStates.EqualStateMeansSameVisible` | internal/controller/predicates.go:693-713 | on well-formed states the comparison is equality up to the start time, no more and no less |
| `PodStates.TwoMembersHideAnExitCode` | internal/controller/predicates.go:696-713 | on a state with two members set it can miss a change |
| `CurrentReplicaSet.CurrentReplicaSetPods` | internal/controller/packages_status.go:170-218 | for every iteration order of the group map the same pods are chosen: those of the newest ReplicaSet |
| `CurrentReplicaSet.LeaderIsUnique` | internal/controller/packages_status.go:198-217 | newest pod first, smaller UID on ties: there is one winner |
| `CurrentReplicaSet.LeaderExists` | internal/controller/packages_status.go:198-217 | there is a winner whenever a live pod has a ReplicaSet |
| `CurrentReplicaSet.CurrentMeaning` | internal/controller/packages_status.go:170-218 | a pod is chosen exactly when it is live and its ReplicaSet outranks every other that a live pod names, by newest pod and then by smaller UID |
| `PackageStatus.TranslatePackagesReady` | internal/controller/packages_status.go:79-143 | the nested loops return the verdict of the report of all counting containers |
| `PackageStatus.ConcludeIsFirst` | internal/controller/packages_status.go:90-117 | a failed verdict names the first failing fetch container |
| `PackageStatus.VerdictMeaning` | internal/controller/packages_status.go:79-143 | True exactly when no fetch container of a live pod of the newest ReplicaSet with the expected hash is a classified failure and at least one exited zero; False exactly when one is |
| `PackageStatus.FailedVerdictMeaning` | internal/controller/packages_status.go:79-143 | a failed verdict is the classification of a fetch container of a counting pod, under its name |
| `PackageStatus.FetchedCounts` | internal/controller/packages_status.go:119-143 | the count of a True verdict is the number of fetch containers that exited zero |
| `PackageStatus.FailsIff` | internal/controller/packages_status.go:228-320 | a fetch container fails exactly when it waits for good or has exited, now or last, with a code other than zero |
| `PackageStatus.WaitingReason` | internal/controller/packages_status.go:266-296 | a failing wait has the reason its cause and message call for |
| `PackageStatus.ExitReason` | internal/controller/packages_status.go:302-320 | exit codes 60, 58 and 82, 22 and 100 have their own reasons, all others the general one, and the detail names the code |
| `PackageStatus.OtherPodsDoNotMatter` | internal/controller/packages_status.go:154-218 | a deleted pod, one of another hash, or one of an older or no ReplicaSet could as well not exist |
| `PodSignature.PodFailureSignature` | internal/controller/node_pod_failure.go:114-137 | the string builder loops write the rendered failing containers |
| `PodSignature.SignatureParses` | internal/controller/node_pod_failure.go:108-137 | the signature can be parsed back: equal exactly when the same containers fail in the same way |
| `PodSignature.TokenMeaning` | internal/controller/node_pod_failure.go:93-98 | equal tokens mean the same exit code, or the same reason up to the two names of an image pull failure |
| `PodSignature.TranslatePodFailure` | internal/controller/node_pod_failure.go:23-44 | the scan returns the message about the first failing container of the newest ReplicaSet that is not a package fetch, with its detail |
| `PodSignature.SameSignatureSameBlame` | internal/controller/node_pod_failure.go:100-106 | equal signatures blame the same container for the same reason, and word the same message exactly when its detail is the same |
| `PodSignature.SameStatusSameDetail` | internal/controller/node_pod_failure.go:52-81 | the detail changes only with the compared status or the image |
| `PodSignature.DetailMeansFailure` | internal/controller/node_pod_failure.go:52-81 | a detail is worded exactly for the failing containers |
| `PodVerdicts.FailingMeaning` | internal/controller/node_pod_failure.go:52-81 | the failing containers are exactly those waiting for an image, for their start or in a crash loop, and the init containers that exited with a code other than zero |
| `PodVerdicts.Wording` | internal/controller/node_pod_failure.go:52-91 | each kind of failure has its wording: image, last words or exit code, cut message, last words or reason |
| `PodVerdicts.DegradedIff` | internal/controller/node_pod_failure.go:23-44 | Degraded is set exactly when a pod of the newest ReplicaSet has a failing container that is no package fetch |
| `PodVerdicts.DegradedInit` | internal/controller/node_pod_failure.go:23-44 | then it words the first failing init container of the first such pod |
| `PodVerdicts.DegradedContainer` | internal/controller/node_pod_failure.go:23-44 | or, when no init container of it fails, its first failing container |
| `PodVerdicts.DatabaseCauseMeaning` | internal/controller/identityserverdatabase_reconciler.go:392-430 | the database verdict is about the newest pod, unless it is going: no node for it, or else its first container with something to say |
| `PodVerdicts.GenclustCauseMeaning` | internal/controller/identityservercluster_reconciler.go:1548-1576 | the genclust verdict likewise, about its first genclust container; without a pod it is the refusal |
| `PodMessages.SummarizeTerminationMessage` | internal/controller/identityservercluster_reconciler.go:1617-1647 | the scan keeps the last cause, the first exception and the first other line, and returns the summary of them |
| `PodMessages.LastCauseIsShown` | internal/controller/identityservercluster_reconciler.go:1617-1647 | of a log with causes the last one is shown |
| `PodMessages.FirstErrorIsShown` | internal/controller/identityservercluster_reconciler.go:1617-1647 | without a cause the first line that names an exception or error |
| `PodMessages.FirstWordIsShown` | internal/controller/identityservercluster_reconciler.go:1617-1647 | without one the first line that is no stack frame |
| `PodMessages.MessageIsShown` | internal/controller/identityservercluster_reconciler.go:1649-1675 | of a dotted throwable name and a message the message is shown, with or without the words before a cause |
| `PodMessages.ClassIsShown` | internal/controller/identityservercluster_reconciler.go:1649-1675 | of such a name alone its last part |
| `PodMessages.OtherTextIsKept` | internal/controller/identityservercluster_reconciler.go:1649-1675 | any other text is shown word for word |
| `PodMessages.SummaryIsOneLine` | internal/controller/identityservercluster_reconciler.go:1617-1647 | the summary is one line, except exactly when the log holds only stack frames and the cut text spans a line break |
| `PodWatches.DroppedPackageUpdate` | internal/controller/predicates.go:242-262 | a pod update that the package watch drops leaves PackagesReady as it was exactly unless the pod's own share in it changes and shows past the pods before and after it, and no share changes while no fetch container vanishes or moves; Degraded stays about the same container and reason, and its message is unchanged exactly when the pod is not the one blamed or its detail is the same |
| `PodWatches.ReplacedVerdict` | internal/controller/packages_status.go:79-143 | a new revision of one pod changes PackagesReady exactly when the pod counts, no counting pod before it fails, and its own verdicts differ, unless a pod after it fails as the failing ones of the two do |
| `PodWatches.DroppedDatabaseUpdate` | internal/controller/predicates.go:485-505 | an update that the database watch drops leaves the verdict about the newest database pod as it was |
| `PodWatches.DroppedGenclustUpdate` | internal/controller/predicates.go:601-623 | an update that the genclust watch drops leaves the admission verdict as it was |
| `PodWatches.PackageUpdatePasses` | internal/controller/predicates.go:242-262 | the package watch passes exactly the updates of managed pods in which a package fetch is new or shows something else, or other containers fail, or fail in another way |
| `PodWatches.JobUpdatePasses` | internal/controller/predicates.go:485-505 | the watches of the two Jobs' pods pass exactly the updates that change the phase, the PodScheduled condition, or what the status of their container shows |
| `PodWatches.MostRecentPod` | internal/controller/identityserverdatabase_reconciler.go:448-461 | the scan returns the pod of the specified index |
| `PodWatches.MostRecentIsBest` | internal/controller/identityservercluster_reconciler.go:1580-1595 | no other pod is preferred to it, by age and then by name, in either direction of the tie break |
| `PodWatches.ScheduledDecides` | internal/controller/identityservercluster_reconciler.go:1699-1718 | with one PodScheduled condition the scan and the comparison look at the same one |
| `PodWitnesses.VanishedFetchesAreDropped` | internal/controller/predicates.go:358-376 | for every pod with a verdict and no failing init container, vanishing fetches are dropped although the verdict goes |
| `PodWitnesses.MetadataChangesAreDropped` | internal/controller/predicates.go:242-262 | for every pod with a verdict, so is any change of deletion stamp, owners or hash that takes it out of the count |
| `PodWitnesses.UnlabelledUpdatesAreDropped` | internal/controller/predicates.go:242-262 | so is every update whose new revision lacks the managed-by label, though the pod still decides the verdict |
| `PodWitnesses.ReorderedFetchesAreDropped` | internal/controller/predicates.go:358-376 | in every counting pod, so are two failing fetches that swap places |
| `PodWitnesses.CrashDetailIsDropped` | internal/controller/node_pod_failure.go:108-137 | in every live pod a new exit code of a crash-looping container is dropped although the Degraded message names it |
| `PackageRecovery.ComputePackageSecretsHash` | internal/controller/packages.go:691-715 | the loop hashes each name followed by its version when the Secret exists |
| `PackageRecovery.HashCollidesIff` | internal/controller/packages.go:691-715 | a state of the referenced Secrets shares its hash with another one exactly when, for two names in a row, one Secret has the second name for its version while the other is missing |
| `PackageRecovery.HashDeterminesVersions` | internal/controller/packages.go:691-715 | so two states whose versions are not spelled like referenced names have one hash exactly when presence and versions agree |
| `PackageRecovery.VersionNamedSecretHides` | internal/controller/packages.go:691-715 | a Secret named like the version of the one before it collides when it is missing, and does not when it is there or comes first |
| `PackageRecovery.OnlyPullsAreUnrecoverable` | internal/controller/packages_status.go:325-349 | of all failures the translator reports, exactly image pulls do not count as recoverable |
| `PackageRecovery.RecoveryTerminates` | internal/controller/identityservernode_reconciler.go:1126-1153 | in every run deletion rounds beyond the first are paid for by changes of the Secret hash or by lost status writes |
| `PackageRecovery.RoundsAreSeparated` | internal/controller/identityservernode_reconciler.go:1126-1153 | between two rounds whose writes landed the hash changed |
| `PackageRecovery.RoundIff` | internal/controller/identityservernode_reconciler.go:1126-1153 | after every run a reconcile deletes pods exactly when PackagesReady is False for another reason than an image pull, Secrets are referenced, and the observed hash it sees is not the present one; it stamps the present hash exactly when it does and its write lands, and changes nothing else |
| `PackageRecovery.FailedVerdictIsRecovered` | internal/controller/packages_status.go:325-349 | so every verdict of the classifiers but an image pull stamps the present hash, with a round when it was not stamped yet |
| `PackageRecovery.HealthyIsLeftAlone` | internal/controller/identityservernode_reconciler.go:1126-1153 | without a condition, or with any that is not False, the state stays and no round is counted |
| `ManagedConfig.ParseClusterScope` | internal/controller/config_discovery.go:96-110 | the loop returns the non-empty trimmed names, and says when there is none |
| `ManagedConfig.ScopeRoundTrip` | internal/controller/config_discovery.go:112-128 | writing a list of cluster names into the annotation scopes the object to exactly those clusters |
| `ManagedConfig.DiscoverManagedResources` | internal/controller/config_discovery.go:140-220 | from any listing order the result is a name sort of the configurations in scope, and holds exactly what the namespace contributes to the cluster |
| `ManagedConfig.DiscoveryMeaning` | internal/controller/config_discovery.go:140-220 | a configuration is discovered exactly when a managed object in scope asks for a known type, base when it asks for none; it is reported as skipped exactly when it asks for an unknown one |
| `ManagedConfig.FindClustersForManagedConfig` | internal/controller/identityservercluster_reconciler.go:1466-1509 | the loops return the clusters in scope, or all when a scope names none of them |
| `ManagedConfig.HandleEvent` | internal/controller/managed_config_handler.go:62-94 | the handler adds to the queue exactly the union of what old and new state map to |
| `ManagedConfig.ClusterIsWoken` | internal/controller/identityservercluster_reconciler.go:1466-1509 | an object state wakes a cluster exactly when it is managed and names it or names no existing cluster |
| `ManagedConfig.NodeIsWokenIff` | internal/controller/identityservernode_reconciler.go:1421-1452 | an object state wakes a node exactly when it is managed and its scope covers the cluster that the node names |
| `ManagedConfig.SomeClusterIsWoken` | internal/controller/identityservercluster_reconciler.go:1497-1508 | with a cluster in the namespace, exactly the managed objects map to a non-empty set |
| `ManagedConfig.ClusterWatchIsComplete` | internal/controller/predicates.go:118-136 | every create, update or delete that changes what a cluster discovers passes the predicate and enqueues that cluster |
| `ManagedConfig.NodeWatchIsComplete` | internal/controller/identityservernode_reconciler.go:1421-1452 | and enqueues every node that names the cluster |
| `ManagedConfig.ValueChangeRollsPods` | internal/controller/config_discovery.go:394-422 | replacing one value in place changes the configuration hash exactly when the value differs |
| `ConfigMounts.ApplyLoggingValidations` | internal/controller/config_discovery.go:627-693 | the three passes keep the specified list and report the specified issues |
| `ConfigMounts.KeptAndIssuesCover` | internal/controller/config_discovery.go:624-693 | kept resources and issues together are the input, each resource exactly once |
| `ConfigMounts.AtMostOneLogging` | internal/controller/config_discovery.go:585-612 | at most one logging resource is kept, and a valid one |
| `ConfigMounts.ValidationIsIdempotent` | internal/controller/config_discovery.go:624-693 | a second pass keeps everything and reports nothing |
| `ConfigMounts.KeptInOrder` | internal/controller/config_discovery.go:627-693 | what is kept stands at increasing positions of the input |
| `ConfigMounts.KeptMeaning` | internal/controller/config_discovery.go:560-693 | a resource is kept unless it is a logging one that does not hold the one log4j file, or is not the only one that does |
| `ConfigMounts.IssueMeaning` | internal/controller/config_discovery.go:624-693 | the issues are exactly the logging resources that are not, with the reason that applies |
| `ConfigMounts.DuplicatesAreOrdered` | internal/controller/config_discovery.go:585-612 | duplicates are listed by kind and then by name |
| `ConfigMounts.BuildMounts` | internal/controller/resources.go:536-629 | the loop builds the specified mounts |
| `ConfigMounts.MountedPaths` | internal/controller/resources.go:536-629 | a path is mounted exactly when it is that of cluster.xml or of a key of a resource, in the directory of its type |
| `ConfigMounts.PathsDiffer` | internal/controller/resources.go:605-626 | two mounts share a path only when they are the same file of the same directory or two logging leaves |
| `ConfigMounts.FilenameDetermines` | internal/controller/config_discovery.go:445-462 | kind, name and key can be read back from a mounted file name |
| `ConfigMounts.UnderscoreCollides` | internal/controller/config_discovery.go:445-462 | with underscores in names they cannot |
| `ConfigMounts.ValidatedMountsAreDistinct` | internal/controller/resources.go:536-629 | all paths mounted after validation differ, cluster.xml included |
| `RollUps.AggregateNodeDegraded` | internal/controller/conditions.go:204-237 | Degraded forwards the failing node with the smallest name and counts the failing ones |
| `RollUps.AggregatePackagesReady` | internal/controller/conditions.go:242-293 | PackagesReady is omitted, True, or forwards the failing node with the smallest name |
| `RollUps.ComputeClusterConditions` | internal/controller/conditions.go:108-193 | all conditions as an order-free statement about the nodes; two admins outrank forwarded degradation |
| `RollUps.DegradedMeaning` | internal/controller/conditions.go:204-237 | the forwarded condition is that of the degraded node with the smallest name, its message prefixed by that name or by the count |
| `RollUps.PackagesMeaning` | internal/controller/conditions.go:242-293 | PackagesReady is there exactly when a node reports it, counts the reporting nodes, and forwards the failing node with the smallest name |
| `RollUps.ReadyMeaning` | internal/controller/conditions.go:108-193 | ready and available exactly when there are nodes and all are; progressing exactly when not ready |
| `RollUps.ClusterMeaning` | internal/controller/conditions.go:108-193 | degraded exactly with two admins or a degraded node |
| `RollUps.DegradedIgnoresOrder` | internal/controller/conditions.go:204-237 | the Degraded condition does not depend on list order |
| `RollUps.PackagesIgnoreOrder` | internal/controller/conditions.go:242-293 | nor does PackagesReady |
| `RollUps.ConditionsIgnoreOrder` | internal/controller/conditions.go:108-193 | two listings of the same nodes give the same conditions |

## Left out

- Event text, logging, metrics, RBAC, controller registration, CRD admission and the Kubernetes client and cache themselves.
- PKCS#12 and X.509 code, SHA-256, random passwords: parameters or collision-free digests.
- The 30-second log age and all requeue timers: nondeterministic answers.
- The wording around three verdicts: PackagesReady carries container, reason and detail, and the database and admission verdicts carry the cause with its raw message; index, URL and cut texts are renderings of these. The Degraded message is modelled to the letter.
- The reason a running genclust Job reports is an answer of the step machine; `PodWatches.TranslateJobPod` says how the pod determines it, and `JobFailure` what a failed Job reports.
- API errors other than NotFound, AlreadyExists and Conflict end a reconcile like a crash before the write.
- PodWatches.DroppedPackageUpdate: requires unchanged deletion stamp, owners and hash, and the managed-by label on the new revision; `PodWitnesses` shows that each of these is needed.
- PackageRecovery.RecoveryTerminates: allows a round for every lost status write, because the code repeats the deletion then.
- DatabaseJob.Database.Reconcile: a deleted Job is gone at once; the lingering Job with a deletion stamp is an event of `DatabaseProtocol`.
- ManagedConfig.ValueChangeRollsPods: changes one value in place; the framing of the configuration hash is not injective across keys and resources.
- ManagedConfig.DiscoverManagedResources: two objects of one name and different kinds keep no particular order, because the sort in the code is unstable.
- Computing the database Job hash and the connection Secret hash: both are opaque strings that edits change.
- Which pods the recovery deletes, the pre-check of package Secrets, and the Deployment, Service, HPA, PDB and NetworkPolicy builders.
- Volume names and the length bound of owned names: they rest on a 32-bit digest. `buildVolumes` is modelled by its mounts.
- Duplicate key warnings, scope issue events, the HPA condition cache and label merging: straight-line or advisory.
