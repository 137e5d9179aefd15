# Document access control, verified

A Dafny model of the document access-control crate of DefraDB (`crates/acp`), of
the base32, trace and brace-expansion code its proof tooling rests on
(`proofs/src`), and of the check its concurrent write benchmark ends with.

Verify everything with `dafny verify dfyconfig.toml`.

## What is modelled

* **Keys.** `RelationKeys`, `PendingKeys` and `Text` model the byte strings a
  relation tuple and an owed registration are stored under, lexicographic order
  and prefix scans. A `char` stands for a byte. `LooseNames` is about relation names
  nobody validated.
* **Stores.** `TupleStores` holds the in-memory and the persistent tuple store as
  classes over their maps, both refining one set of tuples. `RegisterOnce` is the
  persistent store under concurrency: versioned contents, transactions that begin,
  scan, write and commit, any number of processes; `Unregistering` is what its
  commits, above all unregistrations, do to the tuples, and what that means for
  sharing; `Conflicting` is exactly which of its calls are refused. `CasRegistration` is the
  in-memory store under concurrency: load a map and answer from it, or rebuild it,
  compare and swap, retry.
* **Decisions.** `Ownership` is what sequences of store calls do to a document's
  owners; `LocalAcp` is the local engine on top of a store; `Identities` is who asks.
* **An external provider.** `OwedRegistrations` is the protocol between document
  transactions, settlers, forwarded calls and readers, step by step, with crashes
  between any two steps. `Forgetting` is the same with a provider that drops
  objects. `ReadAnswers` traces every answer of the read rule to the reads it rests
  on, and `OwedEffects` records and owners to the steps they come from. `Redrive` is
  one settling pass, page by page.
* **Policies.** `PolicyCache` is the shared snapshot cell; a table's identity is
  kept apart from its content. `PolicyReads` follows each installed policy back to
  the read it came from.
* **Tooling.** `CidBase32`, `TraceHeads`, `Shrinking`, `BraceExpansion`,
  `WriteOracle` and `WriteOrders`.

A concurrent component is a state, a relation `Next` between states and a `Run` of
any length. An invariant is shown for the start and for every step, and theorems
about runs follow by induction on the position in the run.

Assumptions the model states openly:

* A commit of the optimistic store conflicts exactly when a key in a range it
  validated changed effectively after its snapshot, or a key it writes did and does
  not already hold what the write would leave.
* `OwedRegistrations.Keeps`: the provider does not forget the object in question
  up to that point of the run. `ForgettingBreaksTheGuard` shows it is needed, and
  `StaysGuardedIff` what is needed after a forget.
* The provider's answers are linearizable. Its errors and lost replies are steps
  of the model, and in `Redrive` an arbitrary sequence of faults, storage errors of
  the clear among them.
* `PolicyCache.HonestRun`: the document ACP's edits remove policies, and what a
  reload sees is committed. `CoherentIff` says, at the read, exactly what is needed,
  and `UncommittedReloadBreaksCoherence` that a reload inside a transaction can fail
  it.
* Put and delete calls are not on the owner relation, which the local engine
  refuses (crates/acp/src/local.rs:279-284); the theorems on owners say so.
* JSON decoding inverts encoding, so a stored value is the value itself; of tuples
  it accepts the validated ones.
* Lengths written into owed-record keys fit in eight bytes.

Where the code does not give what a reader may expect, the model keeps the code and
states the exact boundary:

* `namespaced_collection` joins with a colon and is not injective
  (`NamespaceClash`).
* A sharing checks its requestor and puts its tuple in two store calls. A document
  is left with tuples and no owner if and only if an unregistration overtakes a
  sharing between the two with no winning registration after it
  (`SharingOrphansIff`; it happens, `InterleavedSharingOrphans`).
* Relation names are not validated where a relationship is added. The stores agree
  on a scan, and the owner read is an owner, exactly as far as no name lies below the
  one scanned for (`StoresAgreeOnRelationIff`, `StoresAgreeOnDocumentIff`,
  `OwnerReadIsOwnerIff`; `NameBelowOwnerMisleads`).
* A settler left over from before a document was deleted and forgotten may clear the
  record of a later document with the same name and creator, since records are
  compared by value (`StaysGuardedIff`, `ForgottenBehindASettler`).
* The persistent `delete_doc_tuples` scans without validation. What it leaves of the
  document is exactly what landed while it ran (`UnregisterLeaves`), which may be
  tuples without an owner (`SweptDocumentKeepsNewcomer`). `RunOrphansIff` of
  `Unregistering` and of `CasRegistration` say for each store exactly which runs
  orphan a document, and `SharingOrphansIff` of `Unregistering` which interleavings
  of checks, puts and unregistrations do.
* A reload inside a transaction may publish a policy nobody committed
  (`CoherentIff`, `UncommittedReloadBreaksCoherence`).
* The write check passes documents that no one order explains together
  (`PassesWithoutOneOrder`); one order does if and only if, besides, no writes wait
  for each other in a circle (`OneOrderIff`).
* `expand_braces` slices one byte past the whitespace before a group and panics
  when that whitespace takes several bytes (`ExpandsToProduct`, `WideSpacePanics`).

## Model

| member | source | states |
|---|---|---|
| `RelationKeys.DocScanIsExact` | crates/acp/src/relation.rs:154-198 | for validated components, a key starts with a document's prefix if and only if its tuple belongs to that document |
| `RelationKeys.RelationScanIsExact` | crates/acp/src/relation.rs:154-220 | the same for a document and relation, both directions |
| `RelationKeys.StorageKeyIsInjective` | crates/acp/src/relation.rs:154-159 | two validated tuples have one key exactly when they are equal |
| `RelationKeys.UnvalidatedKeysCollide` | crates/acp/src/relation.rs:48-68 | without validation, a family of different tuples with the same key |
| `RelationKeys.ComponentsRefusedIff` | crates/acp/src/relation.rs:48-68 | validation refuses exactly the empty string and whatever holds a separator, a backslash or a zero byte |
| `RelationKeys.DocScansAreDisjoint` | crates/acp/src/relation.rs:196-198 | no key at all, stored or not, lies under two documents' prefixes |
| `RelationKeys.NamespaceClash` | crates/acp/src/local.rs:46-48 | two different (policy, collection) pairs share a namespace if and only if one policy ID continues the other past a colon and the other's collection takes up the rest |
| `RelationKeys.NamespacesAreIsolated` | crates/acp/src/local.rs:46-48 | policy IDs without a colon never clash |
| `LooseNames.LooseRelationScan` | crates/acp/src/relation.rs:218-220 | of a validated document's tuples a relation's scan meets those of that relation and those whose name lies below it |
| `LooseNames.LooseKeyIsInjective` | crates/acp/src/relation.rs:154-159 | with subjects free of separators a key names one tuple whatever the relation |
| `LooseNames.StoresAgreeOnDocumentIff` | crates/acp/src/persistent.rs:214-249 | the stores agree on a document's tuples if and only if every relation name passes validation |
| `LooseNames.StoresAgreeOnRelationIff` | crates/acp/src/persistent.rs:251-287 | they agree on a relation's subjects if and only if no tuple of the document has a name below it |
| `LooseNames.OwnerReadIsOwnerIff` | crates/acp/src/local.rs:163-176 | whoever the owner read may return is an owner if and only if whoever holds a relation named below "owner" is one |
| `LooseNames.NameBelowOwnerMisleads` | crates/acp/src/local.rs:279-286 | one such relation makes the in-memory read name someone else and the persistent one fail |
| `PendingKeys.BuildPendingKey` | crates/acp/src/pending.rs:55-65 | the buffer loop builds the prefix and the three length-prefixed parts in order |
| `PendingKeys.BigEndianIsInjective` | crates/acp/src/pending.rs:55-65 | an eight-byte big-endian length determines the number |
| `PendingKeys.BigEndianKeepsOrder` | crates/acp/src/pending.rs:55-65 | byte order of the encoded lengths is the order of the numbers |
| `PendingKeys.PartIsSelfDelimiting` | crates/acp/src/pending.rs:55-65 | a length-prefixed part followed by anything is a prefix of another exactly when the parts are equal and the rests are so related |
| `PendingKeys.PendingKeysArePrefixFree` | crates/acp/src/pending.rs:55-65 | one document's owed key is a prefix of another's if and only if the documents are the same |
| `PendingKeys.KeysNestByPolicyAndResource` | crates/acp/src/pending.rs:55-65 | the keys of one policy, and of one resource of it, are exactly those under one prefix, policy first |
| `PendingKeys.SameKeySameDocument` | crates/acp/src/pending.rs:40-42 | two records share a key if and only if they name the same document |
| `PendingKeys.FamiliesNeverMeet` | crates/acp/src/persistent.rs:417-420 | no document scan meets an owed record, no redrive scan meets a tuple, no key is both |
| `TupleStores.MemoryAcpStore.PutTuple` | crates/acp/src/local.rs:433-440 | the held tuples become the old ones and the new one |
| `TupleStores.MemoryAcpStore.DeleteTuple` | crates/acp/src/local.rs:442-449 | exactly that tuple leaves |
| `TupleStores.MemoryAcpStore.HasTuple` | crates/acp/src/local.rs:451-453 | the key lookup answers membership in the tuple set |
| `TupleStores.MemoryAcpStore.GetDocTuples` | crates/acp/src/local.rs:455-472 | the prefix filter lists each of the document's tuples once and nothing else; invalid names are refused |
| `TupleStores.MemoryAcpStore.GetRelationSubjects` | crates/acp/src/local.rs:474-492 | each subject with that relation on that document, once |
| `TupleStores.MemoryAcpStore.GetSubjectRelations` | crates/acp/src/local.rs:494-512 | each relation of that subject on that document, once |
| `TupleStores.MemoryAcpStore.DeleteDocTuples` | crates/acp/src/local.rs:514-526 | exactly the document's tuples leave; refused names change nothing |
| `TupleStores.MemoryAcpStore.IsDocRegistered` | crates/acp/src/local.rs:528-534 | true exactly when the document has a tuple |
| `TupleStores.MemoryAcpStore.RegisterDocAtomic` | crates/acp/src/local.rs:536-564 | inserts the owner exactly when the document has no tuple, and says which |
| `TupleStores.MemoryAcpStore.Execute` | crates/acp/src/local.rs:432-564 | each store operation's answer and effect are those of the tuple set |
| `TupleStores.PersistentAcpStore.PutTuple` | crates/acp/src/persistent.rs:159-178 | the held tuples become the old ones and the new one; owed records are untouched |
| `TupleStores.PersistentAcpStore.DeleteTuple` | crates/acp/src/persistent.rs:180-198 | exactly that tuple leaves; owed records are untouched |
| `TupleStores.PersistentAcpStore.HasTuple` | crates/acp/src/persistent.rs:200-212 | the key lookup answers membership in the tuple set |
| `TupleStores.PersistentAcpStore.Scan` | crates/acp/src/persistent.rs:214-249 | a prefix scan yields exactly the keys under the prefix, in strictly increasing order |
| `TupleStores.PersistentAcpStore.GetDocTuples` | crates/acp/src/persistent.rs:214-249 | lists each of the document's tuples once and nothing else, in a namespace shared with owed records |
| `TupleStores.PersistentAcpStore.GetRelationSubjects` | crates/acp/src/persistent.rs:251-287 | each subject with that relation on that document, once |
| `TupleStores.PersistentAcpStore.GetSubjectRelations` | crates/acp/src/persistent.rs:289-327 | each relation of that subject on that document, once |
| `TupleStores.PersistentAcpStore.DeleteDocTuples` | crates/acp/src/persistent.rs:329-370 | exactly the document's tuples leave; owed records are untouched |
| `TupleStores.PersistentAcpStore.IsDocRegistered` | crates/acp/src/persistent.rs:372-396 | true exactly when the document has a tuple |
| `TupleStores.PersistentAcpStore.HasKeyUnder` | crates/acp/src/persistent.rs:417-440 | the first key the scan yields decides whether the document has a tuple |
| `TupleStores.PersistentAcpStore.RegisterDocAtomic` | crates/acp/src/persistent.rs:398-457 | alone on the store, inserts the owner exactly when the document has no tuple |
| `TupleStores.PersistentAcpStore.Execute` | crates/acp/src/persistent.rs:158-457 | each store operation's answer and effect are those of the tuple set; owed records are untouched |
| `TupleStores.RunOnBoth` | crates/acp/src/store.rs:43-130 | any sequence of operations gives the same answers on both stores, those of the abstract set, and leaves the same tuples |
| `TupleStores.ReadBack` | crates/acp/src/store.rs:43-130 | what a later `has_tuple` says of any tuple after each operation |
| `TupleStores.AnswersAgree` | crates/acp/src/store.rs:43-130 | every other answer follows from what `has_tuple` says of the document's tuples |
| `TupleStores.DocKeys` | crates/acp/src/relation.rs:196-198 | the keys under a document's prefix are its tuples' keys, and there is one exactly when the document has a tuple |
| `TupleStores.DeleteDocKeys` | crates/acp/src/local.rs:514-526 | dropping a prefix removes exactly the document's tuples and keeps every key with its tuple |
| `TupleStores.ScansMeetOnlyTuples` | crates/acp/src/persistent.rs:228-246 | whatever lies under a tuple prefix decodes as a tuple |
| `RegisterOnce.InvStep` | crates/acp/src/persistent.rs:398-457 | every step keeps the store well keyed and every open transaction's snapshot in agreement with all keys unchanged since |
| `RegisterOnce.HasUnderMeansRegistered` | crates/acp/src/persistent.rs:417-440 | a document's prefix is empty exactly when it has no tuples |
| `RegisterOnce.ChangedWasPresent` | crates/acp/src/persistent.rs:434-456 | a key whose change makes a commit conflict was in the store at some instant since the transaction began |
| `RegisterOnce.RegistrationIsLinearizable` | crates/acp/src/persistent.rs:398-457 | in every run, a registration that returns takes effect atomically inside its call: true at its commit, inserting the owner into a document without tuples; false, by scan or by conflict, at an instant when that document held a tuple |
| `RegisterOnce.HeldDuring` | crates/acp/src/store.rs:109-130 | a losing registration's document held a tuple at some instant of the call |
| `RegisterOnce.WritesStayOut` | crates/acp/src/persistent.rs:417-420 | a transaction on one document writes no key another document's registration validates |
| `RegisterOnce.ExactlyOneRacerWins` | crates/acp/src/store.rs:109-125 | among registrations of a fresh document, under any interleaving and with any traffic on other documents, exactly one wins once any has returned |
| `RegisterOnce.OwnersChange` | crates/acp/src/persistent.rs:329-370 | an owner appears only by a winning registration and leaves only by an unregistration of its document |
| `RegisterOnce.AtMostOneOwner` | crates/acp/src/persistent.rs:398-457 | under every interleaving a document has at most one owner |
| `RegisterOnce.WinnerOwns` | crates/acp/src/store.rs:109-130 | the winner is the sole owner in every later state until an unregistration commits |
| `Conflicting.WinsIffFreeThroughout` | crates/acp/src/persistent.rs:398-457 | a registration that returns true or false returns true if and only if its document had no tuple at any instant of the call |
| `Conflicting.PutRefusedIff` | crates/acp/src/persistent.rs:159-178 | a put is refused if and only if its tuple was there at some instant of the call and is gone at the commit; otherwise the tuple is there after it |
| `Conflicting.DeleteRefusedIff` | crates/acp/src/persistent.rs:180-198 | a delete is refused if and only if its tuple was absent at some instant of the call and is there at the commit; otherwise the tuple is gone after it |
| `Conflicting.UnregisterRefusedIff` | crates/acp/src/persistent.rs:329-370 | an unregistration is refused if and only if a tuple it saw went and came back while it ran |
| `Unregistering.CommitIsEffect` | crates/acp/src/persistent.rs:159-198 | a committed put, delete or winning registration is the atomic operation on the tuples of that instant; a committed unregistration takes away exactly what its snapshot showed; records leave tuples alone |
| `Unregistering.TuplesAreReplay` | crates/acp/src/persistent.rs:159-457 | in every run the tuples are the replay of the successful commits, in commit order |
| `Unregistering.OwedAfterCommit` | crates/acp/src/persistent.rs:158-457 | a commit writes or clears its own owed record, and tuple calls touch none |
| `Unregistering.UnregisterLeaves` | crates/acp/src/persistent.rs:329-370 | a tuple of the document is there after a committed unregistration if and only if it was put or registered while the call ran and stayed since |
| `Unregistering.UnregisterEmptiesIff` | crates/acp/src/persistent.rs:329-370 | so it leaves the document empty if and only if nothing of it landed meanwhile and stayed |
| `Unregistering.RunOrphansIff` | crates/acp/src/persistent.rs:329-370 | a run leaves a document with tuples and no owner if and only if a put of its tuples commits while it has none, or an unregistration commits whose newcomers include a tuple but no owner |
| `Unregistering.RunOwnerlessIff` | crates/acp/src/persistent.rs:329-370 | from a state with an owner, there is none later if and only if an unregistration committed in between, over which no registration survived, with no registration committed after it |
| `Unregistering.SharingOrphansIff` | crates/acp/src/persistent.rs:159-178 | with every put checked against an earlier snapshot, a document is orphaned if and only if such an unregistration commits between a sharing's check and its put's commit, or a tuple but no registration lands and stays between an unregistration's begin and commit |
| `Unregistering.SweptDocumentKeepsNewcomer` | crates/acp/src/persistent.rs:329-370 | a run: register, begin to unregister, a sharing commits, the unregistration commits, and the shared tuple is left without an owner |
| `CasRegistration.InvStep` | crates/acp/src/local.rs:433-449 | every step keeps each caller's snapshot equal to the shared map whenever the versions match |
| `CasRegistration.RebuiltIsEffect` | crates/acp/src/local.rs:433-449 | the rebuilt map is the abstract effect on the snapshot's tuples |
| `CasRegistration.ReadIsReply` | crates/acp/src/local.rs:451-534 | what the reading operations answer from a loaded map is the component-wise answer on its tuples |
| `CasRegistration.StepsAreAtomic` | crates/acp/src/local.rs:536-564 | each step either completes an operation, with the atomic operation's answer and effect on the current tuples, or changes nothing |
| `CasRegistration.RunIsSequential` | crates/acp/src/local.rs:432-564 | every concurrent run of all nine store operations has the answers and tuples of its operations run one at a time in completion order |
| `CasRegistration.VersionCountsUpdates` | crates/acp/src/local.rs:536-564 | during a call the version moves by exactly the successful updates of others |
| `CasRegistration.RetriesAreBounded` | crates/acp/src/local.rs:536-564 | a call retries at most once for each successful update by another process while it runs |
| `CasRegistration.UndisturbedCallSucceeds` | crates/acp/src/local.rs:536-564 | without such updates the swap succeeds, with no retry |
| `CasRegistration.AtMostOneOwner` | crates/acp/src/local.rs:432-564 | under every interleaving a document has at most one owner |
| `CasRegistration.WinnerOwns` | crates/acp/src/local.rs:536-564 | the winner is the sole owner in every later state until an unregistration completes |
| `CasRegistration.RunOrphansIff` | crates/acp/src/local.rs:433-440 | a run leaves a document with tuples and no owner if and only if a put of its tuples lands while it has none |
| `Ownership.OwnersStep` | crates/acp/src/store.rs:43-130 | a winning registration makes its caller the owner, an unregistration leaves none, no other call changes the owners |
| `Ownership.OrphansIff` | crates/acp/src/local.rs:244-315 | a sequence of store calls ever leaves a document with tuples and no owner if and only if some put of its tuples lands while it has none |
| `Ownership.OwnerlessIff` | crates/acp/src/local.rs:390-407 | from a state with an owner, there is none later if and only if an unregistration came in between with no winning registration after it |
| `Ownership.SharingOrphansIff` | crates/acp/src/local.rs:244-315 | with every put checked before, a document is orphaned if and only if an unregistration overtakes a sharing between its check and its put with no winning registration in between |
| `Ownership.InterleavedSharingOrphans` | crates/acp/src/local.rs:244-315 | such a sequence of calls, after which the document can no longer be registered |
| `LocalAcp.LocalDocumentAcp.HasRelationTo` | crates/acp/src/local.rs:59-80 | true exactly when the subject or the wildcard has the relation |
| `LocalAcp.LocalDocumentAcp.CheckAnyImpliesRead` | crates/acp/src/local.rs:82-104 | true exactly when the relation, or for reads one that implies it, is granted |
| `LocalAcp.LocalDocumentAcp.RegisterDocObject` | crates/acp/src/local.rs:109-151 | succeeds exactly on a document without tuples, and then adds the caller's "owner" tuple and nothing else; an already registered or invalid one is an error and changes nothing |
| `LocalAcp.LocalDocumentAcp.IsDocRegistered` | crates/acp/src/local.rs:153-161 | registered means having a tuple in the policy's namespace |
| `LocalAcp.LocalDocumentAcp.GetDocOwner` | crates/acp/src/local.rs:163-176 | an owner if there is one, in whatever order the scan yields |
| `LocalAcp.LocalDocumentAcp.CheckDocAccess` | crates/acp/src/local.rs:178-242 | on a document with tuples, access exactly for the holder of its "owner" tuple and for whom some tuple of it reaches, by DID or "*", with a relation in a literal list for the permission; on one without, for everyone; invalid names are an error |
| `LocalAcp.LocalDocumentAcp.MayManageDoc` | crates/acp/src/local.rs:255-277 | holds exactly for the DID of the owner tuple and for whom a tuple of the document with a managing relation names, directly or through "*" |
| `LocalAcp.LocalDocumentAcp.AddActorRelationship` | crates/acp/src/local.rs:244-315 | exactly the holder of the owner tuple or of a managing relation, directly or through "*", adds the target's tuple, and is told whether it is new; anyone else gets an error, as does the relation "owner", and nothing changes |
| `LocalAcp.LocalDocumentAcp.DeleteActorRelationship` | crates/acp/src/local.rs:317-388 | exactly the holder of the owner tuple or of a managing relation, directly or through "*", takes the target's tuple away, and is told whether it was there; anyone else gets an error, as does the relation "owner", and nothing changes |
| `LocalAcp.LocalDocumentAcp.UnregisterDocObject` | crates/acp/src/local.rs:390-407 | exactly the document's tuples leave; invalid names are an error |
| `LocalAcp.OwnersAfter` | crates/acp/src/local.rs:109-407 | what each operation does to any document's owners: sharing never changes them, registering makes one, unregistering removes them |
| `LocalAcp.ManagedIsRegistered` | crates/acp/src/local.rs:244-388 | whoever may manage a document shows that it is registered |
| `LocalAcp.SettledStep` | crates/acp/src/local.rs:109-407 | every whole operation keeps "each document has no tuples or exactly one owner" |
| `LocalAcp.AlwaysSettled` | crates/acp/src/local.rs:109-407 | so it holds after every sequence of operations |
| `LocalAcp.OwnerIsRegistrant` | crates/acp/src/local.rs:109-176 | whatever follows a successful registration, its DID is the only owner until the document is unregistered |
| `LocalAcp.OwnerReadIsUnique` | crates/acp/src/local.rs:163-176 | the owner read does not depend on scan order |
| `LocalAcp.AccessIsAdmission` | crates/acp/src/local.rs:178-242 | the decision over relation lookups and implied permissions admits exactly whom single tuples with literally named relations admit |
| `LocalAcp.RegistrantAlone` | crates/acp/src/local.rs:178-242 | right after a registration succeeds, in any run, the registrant has every permission and nobody else any |
| `LocalAcp.RegistrantKeepsAccess` | crates/acp/src/local.rs:209-212 | the registrant has every permission until the document is unregistered, whatever happens |
| `LocalAcp.SharingGivesExactly` | crates/acp/src/local.rs:244-315 | a new relationship gives its target, or everyone for "*", exactly the permissions its relation grants, and nobody anything else |
| `LocalAcp.RevokingUndoesSharing` | crates/acp/src/local.rs:317-388 | whoever added a relationship can remove it, which leaves the tuples as they were before |
| `LocalAcp.WritersMayRead` | crates/acp/src/permission.rs:51-69 | in every state any granted permission implies read access |
| `LocalAcp.AnonymousIsTheLeast` | crates/acp/src/local.rs:178-242 | in every state whatever the anonymous identity may do, every identity may |
| `LocalAcp.AddingNeverRemovesAccess` | crates/acp/src/local.rs:244-315 | in every state adding a relationship keeps everyone's access to everything |
| `LocalAcp.DeletingNeverGivesAccess` | crates/acp/src/local.rs:317-388 | in every state whole operations reach, deleting a relationship gives no one new access to anything |
| `LocalAcp.DeletingGivesAccessIff` | crates/acp/src/local.rs:317-388 | in an arbitrary state it does if and only if it takes the document's last tuple |
| `OwedRegistrations.InvStep` | crates/acp/src/external.rs:81-125 | every step of every process keeps the guard and what each process in flight relies on |
| `OwedRegistrations.EveryLiveDocumentIsGuarded` | crates/acp/src/pending.rs:91-122 | in every run with any number of creators, settlers, deleters, re-creators and crashes, a live document created with an identity has its owed record, naming that identity, or is registered |
| `OwedRegistrations.ForgettingBreaksTheGuard` | crates/acp/src/dac.rs:316-322 | a run in which the provider forgets a settled object ends with a live document neither owed nor registered |
| `Forgetting.StaysGuardedIff` | crates/acp/src/external.rs:419-429 | from any state of any run, forgets included, a document stays guarded in every continuation without a further forget if and only if it is guarded and either registered or free of settlers that would clear its record without asking again |
| `Forgetting.ForgottenBehindASettler` | crates/acp/src/external.rs:106-125 | a run ends guarded but not sure to stay so: a settler past registering, a delete, a forget |
| `OwedRegistrations.RecordsLeaveOnlyByDeleteOrSettledClear` | crates/acp/src/external.rs:106-125 | a record leaves or changes only with its document's deletion, or by a clear of exactly that creator's record once the object is registered |
| `OwedEffects.RecordAfterStep` | crates/acp/src/external.rs:106-125 | what each step makes of a record: creating with an identity writes it, deleting drops it, a clearing commit may, nothing else touches it |
| `OwedEffects.ClearsIff` | crates/acp/src/external.rs:106-125 | a clearing commit takes the record away if and only if it stayed as it was from the transaction's snapshot to its commit, in every run |
| `OwedEffects.ClearsOnlyWhenTold` | crates/acp/src/external.rs:81-104 | a settler clears only after the provider said it holds the object or answered the registration |
| `OwedEffects.SettlersWorkForTheRecord` | crates/acp/src/external.rs:127-137 | the creator a settler registers is the one its own read of the record named |
| `OwedEffects.OwnerAfterStep` | crates/acp/src/external.rs:81-104 | an object gets its owner from the first registration after it was absent and keeps it until forgotten; a settler's registration is under the recorded creator |
| `OwedEffects.OwnersAreCreators` | crates/acp/src/external.rs:78-104 | in every run, forgetting providers included, an object's owner is the one it had at the start, one another client registered, or the creator of the document |
| `OwedEffects.OnlyForwardedCallsGoOn` | crates/acp/src/external.rs:227-234 | a redrive ends with its settling; only calls that were to be forwarded are |
| `OwedRegistrations.ReadsAreGated` | crates/acp/src/read_access.rs:36-98 | a check of a document live throughout never takes the public or the collection path, under any interleaving with settlers: it answers from the recorded creator or from the provider about a registered object |
| `ReadAnswers.AnswersRestOnReads` | crates/acp/src/read_access.rs:70-98 | every check of every run, of any document or a collection-level commit: which of its reads decided it, and how. The collection is asked exactly for a branchable one whose document was found neither owed nor held; an unregistered answer without it means not branchable and grants by the provider's default; other answers are the recorded creator's or the provider's grant at the deciding read |
| `ReadAnswers.QuietAnswerIsTheRule` | crates/acp/src/read_access.rs:36-98 | a check during which nothing it reads changes answers by the rule written down for one instant |
| `ReadAnswers.ChecksEnd` | crates/acp/src/read_access.rs:70-98 | a check answers after at most six reads |
| `OwedRegistrations.ProviderAnswersAreItsGrants` | crates/acp/src/external.rs:288-302 | such a provider answer is the provider's grant on the registered object at one instant inside the check |
| `OwedRegistrations.OwedMeansCreatorOnly` | crates/acp/src/external.rs:260-302 | while the record is owed throughout, a check answers yes for the creator and no for everyone else |
| `OwedRegistrations.StaysOnCourse` | crates/acp/src/external.rs:127-137 | a forwarded call works on its own document throughout and forwards unsettled only from a read that found no record |
| `OwedRegistrations.ForwardedAfterRegistration` | crates/acp/src/external.rs:304-417 | a forwarded relationship change or decision reaches the provider after a read that found no record, or when the provider holds the registration |
| `OwedRegistrations.ProtectedCallsReachARegisteredObject` | crates/acp/src/external.rs:304-417 | if the document was live with an identity throughout, the provider holds its registration in either case |
| `OwedRegistrations.ProviderKeeps` | crates/acp/src/dac.rs:316-322 | once registered, an object stays registered under the hypothesis |
| `Redrive.PendingScanIsExact` | crates/acp/src/external.rs:177-197 | in the shared namespace the redrive's prefix selects every owed record and no tuple |
| `Redrive.ExternalDocumentAcp.Settle` | crates/acp/src/external.rs:81-104 | it makes calls until one fails and succeeds when none does, two or three; a new object is registered under the record's creator, one already there keeps its owner; the record leaves exactly on success and only if it is still the one read |
| `Redrive.ExternalDocumentAcp.OwedPage` | crates/acp/src/external.rs:177-197 | the records from the start on, in key order with none skipped, up to the first that reaches the page limit, or all of them |
| `Redrive.ExternalDocumentAcp.RedriveOwed` | crates/acp/src/external.rs:142-175 | on a quiet store the pass ends, attempts every record exactly once in key order, leaves exactly the records whose attempt failed, unchanged, one for each call that went wrong, counts both kinds, and registers the settled ones, under their creators if they are new there |
| `Redrive.NoFaultsNoFailures` | crates/acp/src/external.rs:142-175 | without faults nothing fails |
| `Redrive.PassEnds` | crates/acp/src/external.rs:142-175 | an empty page means every record of the start was attempted |
| `Redrive.ExternalDocumentAcp.RedriveAmidWriters` | crates/acp/src/external.rs:142-197 | with page after page read from arbitrary stores, attempted keys strictly increase; what settling takes from each store is registered, under the recorded creator if new, and counted, with one failure for each call that went wrong; a pass that ended attempted every record present at each page |
| `Redrive.NoKeyTwice` | crates/acp/src/external.rs:142-197 | over any such pages attempted keys strictly increase |
| `Redrive.PresentThroughoutIsAttempted` | crates/acp/src/external.rs:142-197 | with arbitrary changes between pages, a record present throughout is attempted |
| `PolicyCache.Cache.Edit` | crates/acp/src/policy_cache.rs:73-79 | on table references, the step the state machine takes for an installed edit: the next identity, earlier tables keep theirs, and policy by policy what a removal, a clear or an addition leaves |
| `PolicyCache.Cache.PublishIfCurrent` | crates/acp/src/policy_cache.rs:82-95 | publishes exactly when the expected table has the current one's identity, and then under the next identity |
| `PolicyCache.Cache.Publish` | crates/acp/src/zanzibar/acp/mod.rs:121-125 | on table references, exactly the state machine's swap step of a fetch |
| `PolicyCache.CoherentStep` | crates/acp/src/policy_cache.rs:69-104 | every step keeps cached and fetched policies equal to the committed ones unless their invalidation is still to come |
| `PolicyCache.TablesStep` | crates/acp/src/policy_cache.rs:82-95 | every step keeps each table a process holds either the current one or older than it |
| `PolicyCache.CacheIsCoherent` | crates/acp/src/zanzibar/acp/mod.rs:97-127 | in every run whose edits remove and whose reloads see committed policies, each cached policy is the committed one unless a change has committed and not yet run its invalidating edit |
| `PolicyReads.CoherentIff` | crates/acp/src/zanzibar/acp/mod.rs:103-127 | in any run, each cached policy is always the committed one or about to be invalidated if and only if every policy installed was committed when it was read, or under invalidation then, or changed by a commit between its read and its installation |
| `PolicyReads.BringsWellIff` | crates/acp/src/zanzibar/acp/mod.rs:216-233 | the same for one installation: right after it if and only if taken well at its read |
| `PolicyReads.QuietTable` | crates/acp/src/policy_cache.rs:82-95 | nothing is installed between the read of a policy and its installation |
| `PolicyCache.UncommittedReloadBreaksCoherence` | crates/acp/src/zanzibar/acp/mod.rs:220-233 | a reload that sees an uncommitted policy leaves it cached with no invalidation to come |
| `PolicyCache.StaleFetchNeverPublishes` | crates/acp/src/zanzibar/acp/mod.rs:216-233 | in every run, a fetch whose snapshot precedes any installation fails its swap and starts over |
| `PolicyCache.TableIsReplayOfEverything` | crates/acp/src/policy_cache.rs:73-95 | in every run, the table is the result of every installed edit and publication, each applied once in installation order: none is lost |
| `PolicyCache.EditsReturnInstalled` | crates/acp/src/policy_cache.rs:73-79 | an edit returns only at the step that installs it, under a new identity |
| `PolicyCache.PolicyAfterStep` | crates/acp/src/zanzibar/acp/mod.rs:216-237 | what each step leaves under each ID: nothing after a clear, the fetched or added policy, and the rest as the current table has it |
| `PolicyCache.FetchesReturnWithThePolicy` | crates/acp/src/zanzibar/acp/mod.rs:97-127 | a fetch that ends found the policy cached, found none committed, or installed what it fetched |
| `PolicyCache.EnsureFetchesCommitted` | crates/acp/src/zanzibar/acp/mod.rs:97-127 | what `ensure_policy` publishes is a policy committed at an instant of the call |
| `CidBase32.DecodeCid` | proofs/src/model_trace.rs:556-577 | the 32-bit shifting loop computes the whole bytes of the symbols' bit string, or the text itself when the prefix or a symbol is foreign to the literal alphabet |
| `CidBase32.ShiftLeft` | proofs/src/model_trace.rs:568-568 | the 32-bit shift and bitwise or lose nothing |
| `CidBase32.ShiftOut` | proofs/src/model_trace.rs:570-574 | the byte cast and the mask split the buffer's bits without loss |
| `CidBase32.BufferIsSmall` | proofs/src/model_trace.rs:561-574 | the buffer stays below 2^12 |
| `CidBase32.WholeBytesOf` | proofs/src/model_trace.rs:561-576 | bytes come back from their bits whatever fewer than eight bits follow |
| `CidBase32.SymbolsKeepBits` | proofs/src/model_trace.rs:563-567 | base32 symbols carry the bits and fewer than five zeros |
| `CidBase32.DecodeInvertsBase32` | proofs/src/model_trace.rs:556-577 | decoding inverts lower-case unpadded base32 (section 6 of RFC 4648) after the `b` for every byte string |
| `CidBase32.AlphabetIsTheTable` | proofs/src/model_trace.rs:563-567 | the ranges and offsets are the alphabet of section 6 of RFC 4648, written out, and nothing else is a symbol |
| `CidBase32.DecodesTheNumber` | proofs/src/model_trace.rs:556-577 | as a number in base 32 the text is the decoded bytes as a number in base 256, then the bits that fill no byte; with their count this determines the bytes |
| `TraceHeads.Abstracted` | proofs/src/model_trace.rs:172-204 | the trace of a document's distinct commits in first-commit order with their authors and named parents, or no commit, or the unknown parent of the head whose name comes first, each exactly when it applies |
| `TraceHeads.FirstsAreTheHeads` | proofs/src/model_trace.rs:172-188 | the heads are the document's committed CIDs, each once |
| `TraceHeads.FirstsInLogOrder` | proofs/src/model_trace.rs:176-188 | the heads are, in log order, exactly the document's commits that first name their CID |
| `TraceHeads.NamesCountFromOne` | proofs/src/model_trace.rs:184-184 | head names are `h` and the decimal position counted from one |
| `TraceHeads.NamesDiffer` | proofs/src/model_trace.rs:184-184 | different positions have different names |
| `TraceHeads.DescribedIsWellFormed` | proofs/src/model_trace.rs:189-204 | such a trace has distinct names and a parent set for each |
| `TraceHeads.Priorities` | proofs/src/model_trace.rs:230-241 | each head's priority is the length of the longest chain of parents, in commit order, that ends at it |
| `TraceHeads.PriorityIsLongestParentChain` | proofs/src/model_trace.rs:229-241 | with parents committed first, no parent chain in any order is longer |
| `TraceHeads.AncestorsHaveLess` | proofs/src/model_trace.rs:229-241 | with parents committed first, a head's priority exceeds every ancestor's |
| `TraceHeads.ParentsFirstInTheLog` | proofs/src/model_trace.rs:172-204 | a trace has its parents first if and only if the log committed every head's parents before it |
| `TraceHeads.KeyOrder` | proofs/src/model_trace.rs:244-252 | the order lists every head once, sorted by decoded bytes, names breaking ties |
| `Shrinking.Terminates` | proofs/src/anchor.rs:107-132 | rewriting that turns the first count of a list, 1 + n, into any number of copies of n halts from every state |
| `BraceExpansion.FirstGroupShape` | proofs/src/anchor.rs:108-119 | the five slices put together are the segment, and each is free of the braces and whitespace it should be free of |
| `BraceExpansion.FirstGroupOf` | proofs/src/anchor.rs:108-119 | that shape determines the slices |
| `BraceExpansion.CutShrinks` | proofs/src/anchor.rs:120-130 | one step turns the first word's count of closing braces, 1 + n, into copies of n, though groups may multiply |
| `BraceExpansion.TurnsShrink` | proofs/src/anchor.rs:107-132 | every step on every string does so, hence expansion terminates on every string |
| `BraceExpansion.ExpandsOnce` | proofs/src/anchor.rs:107-132 | what comes out has no group left, and expanding it again changes nothing |
| `BraceExpansion.NarrowNeverPanics` | proofs/src/anchor.rs:114-120 | a string whose whitespace is all single-byte never panics, whatever its nesting |
| `BraceExpansion.StepOfText` | proofs/src/anchor.rs:107-132 | on a segment without nested groups, the textual step is one choice per stem of the first group of the first word that has one |
| `BraceExpansion.StepKeepsMeaning` | proofs/src/anchor.rs:120-130 | each step keeps the product the segment stands for |
| `BraceExpansion.ExpandsToProduct` | proofs/src/anchor.rs:107-132 | on segments without nested groups the result is each word's Cartesian product in order, everything else unchanged; it panics if and only if a word with a group follows whitespace of several bytes |
| `BraceExpansion.ProductAt` | proofs/src/anchor.rs:120-130 | the product holds each choice of stems at its place in mixed-radix order, leftmost group slowest, and nothing else |
| `BraceExpansion.TwoStems` | proofs/src/anchor.rs:120-130 | two stems give two words around them, joined by a space, for all prefixes, stems and suffixes without braces or whitespace |
| `BraceExpansion.WideSpacePanics` | proofs/src/anchor.rs:114-116 | every such whitespace has an input that panics |
| `WriteOracle.CheckIsExact` | benches/benches/write_baseline/verify.rs:38-66 | a document passes if and only if some order of the acknowledged writes that keeps each writer's own order leaves it as it is, in all the fields the scenario writes at once |
| `WriteOracle.CheckShared` | benches/benches/write_baseline/verify.rs:37-66 | with each document looked up by its ID, the loop passes exactly when there are eight documents, each is found and each is reachable in that sense |
| `WriteOracle.FinalIsPermitted` | benches/benches/write_baseline/verify.rs:113-132 | every order leaves a field a permitted value, or the initial one when nobody wrote it |
| `WriteOracle.LatestIsLast` | benches/benches/write_baseline/verify.rs:119-119 | collecting into a map keeps each writer's last operation |
| `WriteOracle.ExecuteField` | benches/benches/write_baseline/workload.rs:43-67 | serial execution leaves in a field the token of the last operation the check's filter selects for it |
| `WriteOracle.FieldIsLastHit` | benches/benches/write_baseline/workload.rs:43-67 | a field ends with the last operation that hits it, even writers left and odd ones right, or as it was seeded |
| `WriteOracle.AcceptsLastOwnHits` | benches/benches/write_baseline/verify.rs:38-66 | the check accepts of a field exactly the tokens of operations that were their writer's last on it, or the seed if there was none |
| `WriteOracle.FindsTheFirst` | benches/benches/write_baseline/verify.rs:39-39 | the lookup by ID returns the first document that has it |
| `WriteOracle.ExecuteCount` | benches/benches/write_baseline/verify.rs:58-58 | the counter equals the number of selected operations |
| `WriteOracle.InterleavingIsPermutation` | benches/benches/write_baseline/workload.rs:187-255 | an order that keeps each writer's own order loses and adds nothing |
| `WriteOracle.Arrange` | benches/benches/write_baseline/verify.rs:113-132 | every permitted value is the final one in some such order |
| `WriteOracle.LostWriteIsRejected` | benches/benches/write_baseline/verify.rs:113-132 | a field that still holds its seed value is rejected once a write to it was acknowledged |
| `WriteOracle.TokenIsInjective` | benches/benches/write_baseline/verify.rs:134-136 | a token names one writer and operation |
| `WriteOracle.TokenSpells` | benches/benches/write_baseline/verify.rs:134-136 | a token spells the writer, then the operation, in decimal |
| `WriteOracle.CreatesCheckIsExact` | benches/benches/write_baseline/verify.rs:24-36 | the creates check passes if and only if the labels are the acknowledged tokens, each as often as acknowledged |
| `WriteOrders.OneOrderIff` | benches/benches/write_baseline/verify.rs:38-66 | one order explains all documents at once if and only if each passes and no writes wait for each other in a circle, by their writer's order or by outlasting another write of the same field |
| `WriteOrders.CyclicIffKnotted` | benches/benches/write_baseline/verify.rs:38-66 | there is such a circle if and only if there is a set of writes of which each waits for another |
| `WriteOrders.Order` | benches/benches/write_baseline/workload.rs:187-255 | without one, an order that keeps each writer's own and has no write before one it waits for |
| `WriteOrders.ExplainedRespects` | benches/benches/write_baseline/verify.rs:113-132 | an order that explains the documents has no write before one it waits for |
| `WriteOrders.PassesWithoutOneOrder` | benches/benches/write_baseline/verify.rs:38-66 | four writes of two writers whose documents all pass though no one order explains them |

## Left out

- The Zanzibar permission engine, policy parsing and node access control: other subsystems; a policy table is a map from ID to policy.
- JSON encoding of tuples and records, tracing, audit logging and error texts: library code or plain data.
- Opening and closing stores, directories and file metadata: input and output only.
- `bind_request`, bearer tokens and request contexts: thin forwarding.
- `tools/perf-site/compare.py`: its verdict compares two medians and two ranges; it would add easy members.
- `problems`, `items` and `is_foreign` in `proofs/src/anchor.rs`, and module, configuration and TLC handling in `proofs/src/model_trace.rs`: formatting and subprocess work.
- The peers and replay steps of a trace, and the check that every node started: only heads and parents enter the priorities and the key order.
- The index scan at the end of `check` in `benches/benches/write_baseline/verify.rs`: it reads an index that is not part of this model.
- `get_doc_owner` through the external provider: one more reader with the same gate.
- TupleStores.MemoryAcpStore.PutTuple: takes validated tuples only, which the store's contract demands of its callers (crates/acp/src/store.rs:43-56); so do DeleteTuple, HasTuple, Execute and RunOnBoth of either store. UnvalidatedKeysCollide and LooseNames say what happens without it.
- LocalAcp.LocalDocumentAcp.AddActorRelationship: takes names that pass validation, because it hands the store tuples made without it (crates/acp/src/local.rs:286) and the store demands validated ones; so do DeleteActorRelationship, HasRelationTo and MayManageDoc.
- LocalAcp.LocalDocumentAcp.constructor: fixes the in-memory store, where the source takes either; RunOnBoth makes their answers and effects the same.
- Redrive.ExternalDocumentAcp.RedriveOwed: models the owed records of the namespace, not the tuples beside them; PendingScanIsExact is the link.
- Redrive.ExternalDocumentAcp.RedriveAmidWriters: takes the stores the pages are read from as given, however many; a pass that never meets an empty page has no end to speak of.
- A storage error while a redrive page is read: it ends the pass with that error.
- BraceExpansion.NarrowNeverPanics: goes one way for nested groups and groups with inner whitespace, where what stands before a group depends on what earlier steps copied there; the exact condition is ExpandsToProduct's, for segments without them.
