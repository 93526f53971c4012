# Verified model of the Riquet schema registry

Riquet is a schema registry built as a replicated state machine. A command is planned against an
immutable state, encoded as a numbered envelope, committed to a durable log (a bbolt file or one
Kafka partition) and replayed by every replica. This project models that machine in Dafny and
proves what it promises over whole runs: what every command keeps, what survives a failover or a
crash, why recovery from a snapshot is full replay, and what the self-contained algorithms around
it (JSON Schema comparison, reference loading, import, trace comparison) decide.

`dafny verify dfyconfig.toml` checks everything.

## How it is organised

| layer | files |
|---|---|
| values, state, commands | `Domain`, `State`, `StateObject`, `Commands`, `MachineObject` |
| commands and queries, their conditions and effects | `StateQueries`, `Deduplication`, `CommandEffects` |
| invariants over command runs | `RegistryInvariant`, `RegistryRuns`, `ReferenceGraph`, `SubjectHistory`, `ForwardHistory`, `TransitiveHistory` |
| the durable log | `Durable`, `Layout`, `Kafka`, `KafkaReading`, `ReplicatedLog`, `KafkaRecovery`, `Compaction`, `RestoredTopic`, `Bolt`, `BoltRuns`, `Backup` |
| replication and election | `Cluster`, `ClusterInvariant`, `ClusterSteps`, `ClusterCommit`, `ClusterRuns`, `ClusterProgress`, `ClusterRetries`, `ClusterLimits`, `Coordination` |
| algorithms | `JsonSchema`, `JsonInclusion`, `JsonCompatibility`, `JsonExactness`, `ReferenceLoading`, `ImportModel`, `ImportSteps`, `ImportTwins`, `ImportLoop`, `TwinSource`, `ChainSource`, `TraceDiff`, `TraceEquivalence` |

Objects that the code updates in place are classes whose methods are proved against functions of
the old state (`Machine`, `Draft`, both `Store`s, `Coordinator`, `ReferenceLoader`, `Importer`,
`SymbolTable`); the properties are lemmas about those functions. A protocol is a step relation, and
a run is any sequence of enabled steps.

## What is assumed

- A digest is a free constructor, so equal digests mean equal contents. JSON encoding is the
  identity on values.
- Equal schema identities carry equal references (`refsOf`), because the format engines hash the
  references into the identity (internal/formats/protobuf/engine.go:216-228). `SubjectHistory` also
  uses that they carry the same type and, for JSON, the same definition
  (internal/formats/jsonschema/engine.go:59-68); Avro identities do not fix the definition text.
- The broker is an append-only log with one accepted producer: initialising a producer fences the
  earlier ones, and a fenced producer cannot append. A store initialises its producer only while it
  holds no lease (internal/storage/kafka/coordinator.go:41-42, internal/storage/kafka/store.go:99-104).
- Replica IDs are distinct: one process runs under each ID, and reopening an ID replaces its process.
  Stores of the cluster run with the leadership requirement on, as the application starts them
  (internal/app/app.go:240).
- bbolt is an ordered map with atomic updates. An update may be lost, or done and not reported.
- In an import, an item parses to the same schema in every sound state that holds some of the source's
  versions and the item's direct references (`ImportLoop.Parses`). In such a state everything those
  versions refer to is there too, so an engine that follows nested references meets this;
  `ChainSource.ChainIsSensible` is an example.
- Clocks, randomness, the compatibility callback, format parsers and the group coordinator's
  choices are parameters or nondeterministic steps.

## Where the code does less than one might expect

Each of these is proved, with the exact condition and a concrete counterexample where there is one.

- A commit whose wait is cut short (internal/storage/kafka/store.go:203-206) leaves its record
  unread by its writer. If that writer commits again before reading it, one sequence can hold two
  envelopes. `ClusterRuns.UniqueIffCareful` shows this is the only way: a run keeps one envelope per
  sequence if and only if each written commit had observed the writer's own earlier ones.
- Two contenders may announce the same epoch, and a contender that chose its epoch before others
  announced higher ones writes a record that every reader refuses
  (`ClusterLimits.ReadableIffNotOvertaken`). Nothing here relies on unique epochs.
- A registration answered by deduplication is not on record under its operation ID
  (`Deduplication.SuccessIsRecordedIff`). A retry gets the same answer if and only if it still
  passes the checks and its version is still active (`Deduplication.DeduplicatedRetryIff`, across
  replicas `ClusterRetries.DeduplicatedAnswersAgreeIff`);
  `Deduplication.RetryAfterDeduplicationDiffers` is a run where it does not.
- Restoring a backup of an unused registry into Kafka leaves a checkpoint no reader accepts
  (`Backup.KafkaRoundTrip`). A topic restored from any other backup can be broken by compaction if and
  only if a snapshot was saved in it since (`RestoredTopic.CompactionCanBreakIff`).
- An import merges two versions of one subject that have one schema, such as a version that was
  deleted and registered again, and refuses two IDs for one schema. A sensible source is rebuilt if
  and only if it has neither and every item is importable (`ImportLoop.BuildState`);
  `TwinSource.TwinsAreSensible` is the smallest source that is not.
- The JSON comparison skips the type check when either side states no type, and never looks at a
  reader's schema for additional properties. `JsonCompatibility.AcceptanceIsSoundIff` shows that
  nothing else is missing, on a condition computed from the two documents;
  `JsonCompatibility.UnsoundAcceptances` has an example of each. It also reports problems that are
  none, such as an integer read as a number; `JsonExactness.FalseAlarmIff` lists them exactly.

## Model

| member | source | states |
|---|---|---|
| Domain.NewEnvelope | internal/domain/transition.go:71-104 | a new envelope passes validation exactly when it has a sequence and a payload |
| StateObject.Draft.MarkDeleted | internal/domain/state.go:321-332 | the in-place loop flags the first version of that number not gone for good, or changes nothing |
| StateObject.Draft.Change | internal/domain/state.go:255-319 | the in-place switch computes the payload's effect and fails exactly when the payload cannot apply |
| StateObject.ApplyTo | internal/domain/state.go:61-81 | clone, change, record, validate is the transition function |
| State.VersionsIn | internal/domain/state.go:155-165 | the listed versions ascend and are exactly the visible ones |
| StateQueries.LookupIff | internal/domain/state.go:168-177 | a lookup finds the one version of that number unless it is permanently deleted, or soft-deleted and not asked for, and returns it with its schema |
| StateQueries.RestoredIsUsable | internal/domain/state.go:43-53 | a restored snapshot has valid defaults, identities that lead to their schemas, and versions numbered once that can all be looked up |
| StateQueries.AnyEnvelope | internal/domain/state.go:61-81 | any envelope that applies, whoever wrote it, is valid and next, rebinds no ID, takes no version away, records its operation and leads to a valid state |
| MachineObject.Machine.PlanVersion | internal/domain/machine.go:111-157 | the planning code decides ID, version, conflicts and compatibility as the pure plan does |
| MachineObject.Machine.PlanRegistration | internal/domain/machine.go:84-157 | checks, reference lookup, deduplication and planning in the code's order refine the pure plan |
| MachineObject.Machine.GatherCompatibilitySchemas | internal/domain/machine.go:282-299 | the loop gathers every active schema at a transitive level and only the newest otherwise |
| MachineObject.Machine.Referenced | internal/domain/state.go:228-253 | the nested loops find a reference exactly when some active version has one |
| MachineObject.Machine.PlanSubjectDeletion | internal/domain/machine.go:190-222 | a permanent subject deletion is planned only if every version is soft-deleted and unreferenced |
| MachineObject.Machine.Run | internal/domain/machine.go:68-81 | a call changes the state only through an applied and committed envelope |
| MachineObject.Machine.Advance | internal/domain/machine.go:53-65 | a committed envelope is skipped if already applied and otherwise applied as the next transition |
| RegistryInvariant.StepKeepsInv | internal/domain/machine.go:84-222 | every planned command keeps identities and IDs inverse, IDs below the next one, versions unique, one active version per ID, references earlier and alive, and rewrites nothing |
| RegistryInvariant.PlannedRegisterFacts | internal/domain/machine.go:84-157 | a planned registration reuses the stored schema of its identity or takes a new ID, and only points at live versions |
| RegistryInvariant.MarkAllDeletes | internal/domain/state.go:321-332 | marking many versions sets deletion flags only, permanently only where nothing active refers |
| RegistryRuns.RunKeepsInv | internal/domain/machine.go:68-280 | every state of every run with accepted and failed commits satisfies the invariant and keeps all that was recorded |
| RegistryRuns.VersionNeverReused | internal/domain/machine.go:125-133 | a subject version names the same unchanged schema for ever, whatever is deleted in between |
| RegistryRuns.NoDanglingReference | internal/domain/machine.go:160-222 | in every reachable state each reference of an active version still resolves |
| RegistryRuns.RecordedOperationAnswers | internal/domain/machine.go:71-76 | once recorded, an operation ID gets the recorded result from every later call, which changes nothing |
| CommandEffects.RegistrationPlannedIff | internal/domain/machine.go:84-157 | a registration proposes a version if and only if it is not on record, passes the checks, is no duplicate, its explicit numbers fit and it is compatible or the check does not apply |
| CommandEffects.RegistrationRefusedIff | internal/domain/machine.go:84-157 | which refusal a registration gets, and when |
| CommandEffects.ReferencesPassIff | internal/domain/machine.go:95-102 | references pass if and only if each is complete and resolves to an active version |
| CommandEffects.RegistrationEffect | internal/domain/state.go:257-270 | afterwards the answered version is active and looks up the answered schema with the requested contents; explicit numbers are honoured, others are the next ones; nothing else changes |
| CommandEffects.DeletionPlannedIff | internal/domain/machine.go:160-187 | a version is deleted if and only if the subject is writable and it is active, or for good if it is soft-deleted and not actively referenced; which refusal is given otherwise |
| CommandEffects.DeletionEffect | internal/domain/state.go:321-332 | a soft-deleted version is found only with deleted ones counted in, a permanently deleted one not at all; every other item, schema and setting is unchanged |
| CommandEffects.SubjectDeletionPlannedIff | internal/domain/machine.go:190-222 | a subject is deleted if and only if it is writable and has a version to delete, and for good if all its versions are soft-deleted and not actively referenced |
| CommandEffects.SubjectDeletionEffect | internal/domain/machine.go:190-222 | afterwards no version of the subject is listed, with soft-deleted ones counted in if it was permanent; the flags of each item are given; other subjects are unchanged |
| CommandEffects.ConfigurationPlannedIff | internal/domain/machine.go:225-268 | a setting is taken if and only if its level or mode is known and only a subject's setting is removed |
| CommandEffects.ConfigurationEffect | internal/domain/state.go:194-217 | a level or mode that was set is in effect, a removed one gives way to the global one, and no other subject is affected |
| Deduplication.DeduplicatedIff | internal/domain/machine.go:84-110 | a registration is deduplicated if and only if it is not on record, passes the checks and the subject has an active version of its schema, which is the answer |
| Deduplication.SuccessIsRecordedIff | internal/domain/machine.go:71-81 | a success is on record afterwards if and only if its operation was before or the subject had no active version of the schema |
| Deduplication.DeduplicatedRetryIff | internal/domain/machine.go:84-110 | after any run, while its operation is still not on record, a retry of a deduplicated registration gets the same answer if and only if mode, explicit numbers and references still pass and the answered version is still active |
| Deduplication.RetryAfterDeduplicationDiffers | internal/domain/machine.go:103-110 | a deduplicated operation retried after a soft deletion gets another version |
| RegistryRuns.NumberingIsGapFree | internal/domain/machine.go:301-309 | without explicit IDs and versions, IDs are exactly 1 to next-1 and each subject's versions exactly 1 to n |
| RegistryRuns.CountersNeverWrap | internal/domain/state.go:334-337 | a command that would wrap the ID, version or sequence counter fails before the commit |
| ReferenceGraph.ReferenceResolvesEarlier | internal/domain/machine.go:95-102 | every reference of a stored schema resolves to one version with a sequence below the schema's first registration |
| ReferenceGraph.ReferencesAreAcyclic | internal/domain/machine.go:95-102 | first sequences fall along every reference path, so no path returns and no path is longer than the log |
| ReferenceGraph.NeedsIsClosed | internal/domain/machine.go:95-102 | unbounded reference resolution terminates and yields a closed set of stored schemas |
| Durable.FoldFromAny | internal/app/app.go:293-311 | any state the log went through plus the envelopes after it is the fold of the whole log |
| Durable.ReplayInto | internal/app/app.go:305-310 | the replay callback loop computes the fold or fails exactly when the fold does |
| Kafka.Store.LastSequence | internal/storage/kafka/store.go:794-802 | the loop finds the highest sequence of base and items |
| Kafka.Store.Accept | internal/storage/kafka/store.go:701-768 | a consumed record is refused or changes the view exactly as its key and value require |
| Kafka.Store.AcceptAll | internal/storage/kafka/store.go:665-699 | after a batch the view is the replay of exactly the records counted by the position |
| Kafka.Store.CheckSequenceOf | internal/storage/kafka/store.go:210-228 | retry, next or rejected, from the observed items |
| Kafka.Store.ValidateReplay | internal/storage/kafka/store.go:782-792 | accepts exactly the views without a gap between base and last whose last sequence is below the last 64-bit one |
| Kafka.Store.Replay | internal/storage/kafka/store.go:271-303 | yields the items after a sequence in order, and fails exactly when one is missing or invalid or the start lies outside the log |
| Kafka.Store.RecoverState | internal/app/app.go:293-311 | snapshot plus replayed tail |
| Kafka.Store.CheckLeadership | internal/storage/kafka/store.go:770-780 | passes exactly when leadership is not required or an own lease is the newest announcement seen |
| KafkaReading.ReadableIff | internal/storage/kafka/store.go:701-768 | a topic can be read to its end if and only if each record fits those before it: one envelope per sequence, restorable snapshots, epochs that never fall, checkpoints of the newest snapshot; the reader then holds the newest of everything and every transition |
| KafkaReading.ContiguousIffReplayable | internal/storage/kafka/store.go:782-792 | the gap check passes if and only if the whole log replays from its base |
| KafkaReading.SequenceCheckIff | internal/storage/kafka/store.go:210-228 | for a reader of a sound topic an envelope is a retry if and only if the topic holds it, and new if and only if it is numbered next |
| ReplicatedLog.LedgerFolds | internal/storage/kafka/store.go:525-556 | a log of planned envelopes folds, its state is sound, and each operation's result is recorded in it |
| ReplicatedLog.OperationsAreUnique | internal/domain/machine.go:71-76 | two envelopes of one log never share a non-empty operation ID |
| ReplicatedLog.ConsumedMatches | internal/storage/kafka/store.go:701-768 | a reader of a sound log holds exactly its envelopes, the base, and a snapshot that is a state of the log |
| KafkaRecovery.RecoveryIsFullReplay | internal/app/app.go:293-311 | whichever snapshots were saved, recovery equals the fold of the whole topic and ends at its last sequence |
| Compaction.CompactedReplay | internal/storage/kafka/store.go:701-768 | a compacted tombstone-free topic replays if and only if each surviving checkpoint kept its snapshot, and then to the same view |
| Compaction.CheckpointFreeCompaction | internal/storage/kafka/store.go:701-768 | without checkpoints every compaction replays to the same items, snapshot, primary and base |
| RestoredTopic.CompactionCanBreakIff | internal/storage/kafka/store.go:755-764 | for every restored sound topic, some compaction makes it unreadable if and only if a snapshot was saved after the restore |
| RestoredTopic.SavingOnceIsEnough | internal/storage/kafka/store.go:305-327 | saving the restored state once, which the store accepts, makes such a topic |
| ClusterRuns.StepKeepsClusterInv | internal/storage/kafka/store.go:168-208 | every step of any replica that observed its own writes keeps the cluster invariant |
| ClusterCommit.CommitIsSoundIffObserved | internal/storage/kafka/store.go:168-228 | a commit that passes the code's checks keeps the log sound if and only if the writer had observed its own writes |
| ClusterCommit.LeaderHasReadOthers | internal/storage/kafka/coordinator.go:251-278 | a leaseholder the broker accepts has read everything other producers wrote |
| ClusterRuns.CommittedLogIsSound | internal/storage/kafka/store.go:168-228 | in every careful run of any number of replicas the topic holds one envelope per sequence, contiguous from the base |
| ClusterRuns.UniqueIffCareful | internal/storage/kafka/store.go:203-206 | over any run, one envelope per sequence if and only if every written commit observed the writer's own writes |
| ClusterRuns.GrantHasReadEverything | internal/storage/kafka/coordinator.go:251-330 | at a grant the new primary has read all that earlier producers wrote; unless already fenced it has read the whole log and nobody else can append |
| ClusterRuns.AcknowledgedSurvivesFailover | internal/storage/kafka/store.go:168-208 | an acknowledged envelope stays in the log and in the store of every later unfenced primary |
| ClusterRuns.ReplicasAgree | internal/domain/machine.go:53-65 | each machine is the fold of a prefix of the log; two replicas at one sequence hold equal states |
| ClusterRuns.OperationLabelsOneEnvelope | internal/domain/machine.go:71-76 | a non-empty operation ID labels at most one envelope of the topic |
| ClusterRuns.RetriesGetOneResult | internal/ha/forwarder.go:123-138 | recorded answers given for one operation ID, at any replica and across failovers, are equal |
| ClusterProgress.DeliveryAdvances | internal/domain/machine.go:53-65 | delivering the next envelope moves a follower's machine to the next state of the log |
| ClusterProgress.OnlyTheNextAdvances | internal/domain/machine.go:53-65 | delivering any other envelope changes nothing |
| ClusterProgress.FollowerCatchesUp | internal/storage/kafka/store.go:525-556 | following in order to the end of what was read leaves the machine at the fold of all of it, at the last sequence |
| ClusterProgress.AcknowledgedIsApplied | internal/domain/machine.go:270-280 | an acknowledged commit has moved the machine to its sequence, with its result on record and given to the client |
| ClusterProgress.AcknowledgedIsRetry | internal/storage/kafka/store.go:210-228 | after any careful run, a primary that has read everything recognises an acknowledged envelope as a retry and rejects every other one with its number |
| ClusterProgress.ProposerIsAnnounced | internal/storage/kafka/store.go:770-780 | only the holder of the newest announcement it has read proposes |
| ClusterProgress.SavedSnapshotIsRead | internal/storage/kafka/store.go:305-327 | a saved snapshot is what every replica holds once it has read that far |
| ClusterRetries.DeduplicatedAnswersAgreeIff | internal/ha/forwarder.go:123-138 | across replicas and careful runs, the answers to a registration deduplicated at one replica and retried unrecorded at another agree if and only if the call passes and the answered version is still active in the later of the two states |
| ClusterLimits.ReadableIffNotOvertaken | internal/storage/kafka/coordinator.go:254-266 | a step keeps the topic readable if and only if it is not an announcement below the newest epoch |
| ClusterLimits.UnobservedCommitConflicts | internal/storage/kafka/store.go:203-206 | a concrete run in which one sequence gets two envelopes |
| ClusterLimits.OvertakenAnnouncementStopsReaders | internal/storage/kafka/store.go:738-754 | a concrete run whose last announcement no reader accepts |
| Coordination.Coordinator.SetAssigned | internal/storage/kafka/coordinator.go:223-235 | losing the partition clears the lease and hands it over for deactivation |
| Coordination.Coordinator.SettleGrant | internal/storage/kafka/coordinator.go:103-112 | a grant is kept only while assigned and not released |
| Coordination.Coordinator.Release | internal/storage/kafka/coordinator.go:136-156 | releases once, and only for the holder |
| Coordination.Coordinator.DeactivatePrimary | internal/storage/kafka/coordinator.go:332-341 | clears the store's lease only if it is that lease |
| Coordination.RunKeepsLocalInv | internal/storage/kafka/coordinator.go:78-156 | over every interleaving of Acquire's sections, callbacks, releases and deactivations the store's lease is backed or its end is on the way |
| Coordination.QuiescentAgreement | internal/storage/kafka/coordinator.go:78-156 | with no call in flight the store's lease is the coordinator's while assigned and not released, and empty otherwise |
| Coordination.LateDeactivationIsHarmless | internal/storage/kafka/coordinator.go:332-341 | a pending deactivation never ends a settling or backed lease |
| Coordination.RenewedLeaseIsInForce | internal/storage/kafka/coordinator.go:122-133 | outside a settling grant the coordinator's lease is the store's, so the field checks of Renew pass |
| Coordination.ElectionSucceeds | internal/storage/kafka/coordinator.go:78-119 | an undisturbed election ends with the announced lease held by coordinator and store, so that Renew passes |
| Coordination.LostLeaseIsNotRenewed | internal/storage/kafka/coordinator.go:122-156 | after the partition is lost or the holder releases, no lease is renewed |
| Layout.KeyRoundTrip | internal/storage/kafka/layout.go:20-34 | writing and parsing transition keys are inverse; exactly the keys of positive 64-bit sequences parse |
| Layout.KafkaKeyOrder | internal/storage/kafka/layout.go:20-22 | transition keys order as their sequences |
| Layout.BoltKeyOrder | internal/storage/bolt/store.go:326-337 | bbolt keys read back, are distinct and order as their sequences |
| Bolt.Walk | internal/storage/bolt/store.go:138-163 | the cursor loop returns the bucket in key order, or fails exactly when the numbering has a gap or an envelope is invalid |
| Bolt.Store.Commit | internal/storage/bolt/store.go:99-131 | repeats are idempotent, conflicts and gaps are refused, the next number is stored with the counter |
| Bolt.Store.Replay | internal/storage/bolt/store.go:134-165 | seeks and walks the transitions after a sequence |
| Bolt.Store.SaveSnapshot | internal/storage/bolt/store.go:193-213 | stores a restorable snapshot not beyond the counter |
| Bolt.Store.RestoreSnapshot | internal/storage/bolt/store.go:217-240 | initialises only an unused store, snapshot and counter together |
| Bolt.Store.RecoverState | internal/app/app.go:293-311 | snapshot plus replayed tail |
| BoltRuns.ListingIsLog | internal/storage/bolt/store.go:138-160 | cursor order is replay order |
| BoltRuns.CommitAccepts | internal/storage/bolt/store.go:99-131 | a commit is accepted if and only if it repeats a stored envelope or is valid and next |
| BoltRuns.RecoveryIsFullReplay | internal/app/app.go:293-311 | recovery equals the fold of the stored log, unless the snapshot is at the last 64-bit sequence of a non-empty bucket |
| BoltRuns.RunKeepsSound | internal/storage/bolt/store.go:99-240 | through commands, snapshots, lost and unreported writes and restarts the process holds a state of the stored log, which only grows |
| BoltRuns.NumberedIff | internal/storage/bolt/store.go:138-163 | the replay check accepts exactly valid envelopes numbered one after the other |
| BoltRuns.SavedIsStart | internal/storage/bolt/store.go:193-213 | a process can save at any time; recovery then starts from that state and replays only what follows |
| BoltRuns.SaveAheadIsRefused | internal/storage/bolt/store.go:204-208 | a snapshot of a state the log has not reached is not stored |
| BoltRuns.AcknowledgedSurvivesCrash | internal/storage/bolt/store.go:99-131 | an acknowledged envelope is in the recovered log after any later events, and recovery is its fold |
| BoltRuns.RestoredIsSound | internal/storage/bolt/store.go:217-240 | a restored store recovers the snapshot and starts a sound log |
| Backup.CaptureDecodes | internal/backup/logical.go:29-89 | every capture decodes unless stamped with the zero time, and a file with another snapshot put in is refused |
| Backup.DecodedIsCaptured | internal/backup/logical.go:69-89 | decoded files have a known format, stamp and source, and equal checksums mean equal snapshots |
| Backup.BoltCapture | internal/backup/logical.go:44-67 | a capture from bbolt holds the fold of everything stored, and fails only for a snapshot at the last 64-bit sequence of a non-empty bucket |
| Backup.KafkaCapture | internal/backup/logical.go:44-67 | a capture from a reader of a sound topic holds the fold of its envelopes |
| Backup.BoltRoundTrip | internal/backup/logical.go:92-104 | restored into an unused bbolt store a backup recovers to the same state, exactly the next sequence is accepted, and a second restore is refused |
| Backup.KafkaRoundTrip | internal/storage/kafka/store.go:331-369 | restored into an empty topic a backup is readable if and only if it has a transition, and then recovers to the same state and next sequence, and refuses a second restore |
| Backup.UsedTargetsAreRefused | internal/storage/kafka/store.go:341-347 | nothing is restored over a store in use, and no damaged file anywhere |
| JsonSchema.CompareDocuments | internal/formats/jsonschema/engine.go:166-213 | the recursive loops report nothing exactly when the reader accepts the writer |
| JsonSchema.Compatible | internal/formats/jsonschema/engine.go:78-111 | compares in the level's direction with every given document; an unknown level is an error |
| JsonInclusion.CoversIffIncludes | internal/formats/jsonschema/engine.go:166-227 | a recursive check on two documents decides, for all of them, whether every draft-07 value of one is valid for the other |
| JsonCompatibility.AcceptanceIsSoundIff | internal/formats/jsonschema/engine.go:166-227 | for all documents, acceptance means every value valid for the writer is valid for the reader if and only if the computable checks it skips hold: types where the writer states none, and coverage by the reader's schema for additional properties |
| JsonExactness.FalseAlarmIff | internal/formats/jsonschema/engine.go:166-227 | for every compatible pair the comparison reports a problem if and only if the pair is one of a computed list of false alarms |
| JsonExactness.ComparisonIsExact | internal/formats/jsonschema/engine.go:166-227 | on documents with one type each, object keywords on objects only and boolean additional properties, acceptance is inclusion of draft-07 values |
| JsonCompatibility.AcceptedMeansIncluded | internal/formats/jsonschema/engine.go:166-242 | over documents that state their types, with boolean additional properties in the reader, acceptance means inclusion of draft-07 values |
| JsonCompatibility.UnsoundAcceptances | internal/formats/jsonschema/engine.go:215-218 | the two kinds of accepted but incompatible documents |
| JsonCompatibility.AcceptsReflexive | internal/formats/jsonschema/engine.go:166-213 | every document accepts itself |
| JsonCompatibility.AcceptsComposesIff | internal/formats/jsonschema/engine.go:166-227 | along a chain the ends are accepted if and only if their types are |
| JsonCompatibility.AcceptsTransitive | internal/formats/jsonschema/engine.go:166-227 | acceptance is transitive across a document that states its types |
| JsonCompatibility.UntypedMiddleBreaksChain | internal/formats/jsonschema/engine.go:215-218 | a chain through an untyped document whose ends are not accepted |
| SubjectHistory.CheckCompatibility | internal/app/app.go:313-337 | the callback says yes exactly when the candidate's type has an engine, it parses everything with the current state and finds no problem |
| SubjectHistory.EnginesCheckJson | internal/app/app.go:313-337 | the callback built from engines accepts a JSON candidate only where the JSON comparison does, whatever the other engines do |
| SubjectHistory.EveryPairIsCompatible | internal/domain/machine.go:142-149 | if each registration in a subject met a level of one direction outside import mode, every two active versions are compatible in that direction, also after soft deletions |
| SubjectHistory.OldDataStaysReadable | internal/domain/machine.go:282-299 | under a backward level a value valid for an active version is valid for every newer active one |
| SubjectHistory.NewDataStaysReadable | internal/domain/machine.go:282-299 | under a forward level a value valid for an active version is valid for every older active one |
| ForwardHistory.ForwardRun | internal/domain/machine.go:282-299 | a run with a FORWARD subject and two versions meets every hypothesis of the forward result and not the backward guard |
| TransitiveHistory.ComparedSchemas | internal/domain/machine.go:282-299 | at the three transitive levels a candidate is compared with all active versions in ascending order, at every other level with the newest one only |
| TransitiveHistory.EveryPairIsRelated | internal/domain/types.go:104-106 | for any relation the callback enforces, transitive or not, a subject whose registrations all met a transitive level has it between every two active versions |
| ReferenceLoading.ReferenceLoader.Load | internal/formats/protobuf/engine.go:113-147 | terminates on any graph, restores the active set on every exit, succeeds if and only if the unfolded tree fits depth and count, and reports a cycle only for a reference without finite unfolding |
| ReferenceLoading.LoadReferences | internal/formats/protobuf/engine.go:26-43 | succeeds if and only if the root and its whole unfolded reference tree fit the limits, writes the sources in post-order, of Protobuf schemas of allowed size only, and asks the resolver at most MaxReferences times |
| ReferenceLoading.CycleNeverFits | internal/formats/protobuf/engine.go:124-127 | a reference that comes back to itself fits no depth, so cycle detection never refuses a fitting tree |
| ReferenceLoading.WrittenMeaning | internal/formats/protobuf/engine.go:145-145 | a source name is the root file or the last node, in post-order, that carries it |
| ImportModel.OpIdsDiffer | internal/migration/confluent.go:438-442 | operation IDs of the import are distinct |
| ImportModel.RegisterImports | internal/migration/confluent.go:464-490 | an item whose references are imported registers without error with its ID, version and timestamp |
| ImportSteps.DeletionImports | internal/migration/confluent.go:501-511 | a source deletion becomes a soft deletion of exactly that version |
| ImportSteps.ConfigurationImports | internal/migration/confluent.go:512-525 | levels and modes are set without error and leave the versions alone |
| ImportLoop.Importer.Available | internal/migration/confluent.go:528-535 | true exactly when every reference resolves to an active version |
| ImportLoop.Importer.Pass | internal/migration/confluent.go:456-491 | one pass filters the pending list in place, keeps it and the imported items a partition, imports only importable items, and leaves the list as long only if nothing on it was ready |
| ImportLoop.BuildState | internal/migration/confluent.go:436-526 | a sensible source is rebuilt if and only if it has no twins, its IDs and schemas determine each other and every item is importable; if only the last is missing the import does not fail and stops with exactly the items outside the least fixpoint |
| ImportLoop.RebuiltIdsAgree | internal/domain/machine.go:112-124 | a rebuilt source had one ID per schema and one schema per ID, because the machine refuses anything else |
| ChainSource.NestedReferencesResolve | internal/migration/confluent.go:464-477 | in every sound state that mirrors part of a source, whatever a held version refers to is held too |
| ChainSource.ChainIsSensible | internal/formats/protobuf/engine.go:113-147 | a chain of references under a parser that follows nested references meets every hypothesis of the import result |
| ImportTwins.TwinIsMerged | internal/migration/confluent.go:478-487 | registering the second of two versions with one schema is answered with the first one's version and changes nothing |
| TwinSource.TwinsAreSensible | internal/migration/confluent.go:436-526 | a deleted and re-registered version is a sensible, importable source with twins |
| TraceDiff.SymbolTable.Match | internal/contract/diff.go:154-168 | keeps the two tables inverse, adds exactly the pair, and refuses only a pair that no injective extension allows |
| TraceDiff.SymbolTable.Compare | internal/contract/diff.go:82-128 | extends the table to the least renaming under which the values agree, or finds that none exists |
| TraceDiff.CompareTraces | internal/contract/diff.go:30-80 | no difference if and only if lengths, methods, statuses and headers agree and one injective renaming per namespace explains all bodies |
| TraceEquivalence.ExactComparisonIff | internal/contract/diff.go:130-132 | without opaque and symbolic fields traces are equivalent exactly when lengths, methods, statuses, relevant headers and bodies agree |
| TraceEquivalence.EquivalentReflexive | internal/contract/diff.go:30-57 | a trace compares equal to itself |
| TraceEquivalence.EquivalentSymmetric | internal/contract/diff.go:154-168 | comparison is symmetric, by the inverse renaming |
| TraceEquivalence.EquivalentTransitive | internal/contract/diff.go:30-128 | comparison is transitive when blank bodies do not decode |

## Left out

- HTTP server, routing, error mapping, configuration, authentication, metrics, TLS, command-line tools and deployment: input/output and plumbing.
- franz-go, bbolt, protocompile, hamba/avro and the JSON Schema validator: represented by the assumptions above.
- Avro compatibility (a library call), Protobuf `compareFiles` and `wireClass`, Avro canonical definitions: flat comparisons that would only add easy members.
- SHA-256, MD5, checksums as bytes and JSON as text: ideal digests and values; two values with one encoding, or one value with two, do not exist in the model.
- Timeouts, contexts, channels and mutex fairness: any step may be delayed or abandoned; nothing is proved about progress.
- Group assignment in the cluster model: any replica may try to become primary and any lease may be withdrawn at any time; the local assign and revoke callbacks are modelled in `Coordination`.
- The forwarder's transport, headers and lease comparison: in the cluster model any replica may answer any call, which includes what forwarding allows.
- The Confluent inventory client, `Health`, `Status` and `WriteMetrics`: reporting.
- Keywords of JSON Schema that the comparison does not look at: documents that use them are outside the soundness result.
- `VersionsForID`, `LatestForID`, `Subjects` and `FindSubjectSchema`: simple queries that no other result needs.
- ClusterRuns.RetriesGetOneResult: speaks of answers from recorded operations; an answer by deduplication is not recorded, and ClusterRetries.DeduplicatedAnswersAgreeIff says exactly when two such answers agree.
- Kafka.Store.Replay: the code sizes a slice with the unchecked difference of two unsigned sequences; a replay from beyond the last sequence is an error here, and the loop counter's wrap-around at the last 64-bit sequence is not modelled.
- ImportLoop.BuildState: takes the sorted order as any arrangement of the items and the sorted configuration keys in any order.
- ReferenceLoading.ReferenceLoader.Load: the resolver is a function of subject and version, so it does not depend on the reference's name or on time.
- SubjectHistory.EveryPairIsCompatible: subjects whose registered documents state their types; for others JsonCompatibility.AcceptsComposesIff gives the exact condition on the ends of a chain.
- TraceDiff.CompareTraces: a difference carries the exchange and path, not the message text.
