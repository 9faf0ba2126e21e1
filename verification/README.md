# Proved models of core_py

`core_py` is a Python service toolkit. This project models the parts of it whose
correctness is hard to see from the code, and proves it in Dafny 4.11:

- **Leases** (`dkit`): mutexes and leader election over a Mongo document or a Redis key,
  shared by any number of clients, and unique numbers with leases. Every store command is
  one atomic step; other clients, the TTL reaper and the clock move between any two of
  them. The mutex and the election of either store are proved to implement one abstract
  register (`LeaseRegister`) that names at most one holder. The mutex and election objects are
  also written out as classes whose methods issue the commands one by one, and each
  method is proved to be a run of its protocol (`Runs` has what they share).
- **The Mongo repository** (`mongox`): the document codec, the patch builder and what a
  patch does to a stored document, cursor pagination, and the repository's operations. Each operation is a method that builds
  filters and issues commands; it is proved against what the operation means, and the
  meanings are then used to prove what holds of all runs by any number of clients.
- **Configuration**: the merged tree and the separately kept source map agree, which is
  what the check of sensitive values relies on.
- **Byte streams**: the buffering reader, the size limit on top of it, and the download
  loop on top of both.
- **The HTTP client**: the weighted choice of an instance and the retry loop.

One file is one module. `dfyconfig.toml` lists them all. `Wrappers`, `Strings`,
`Sorting`, `DottedKeys`, `DottedSet` and `Runs` are shared; `RepositorySpec` says what the operations of
`Repository` mean, and `RepositoryEffects` what that does to the documents.

## Assumptions

- One clock that never goes back, and exact times. Mongo stamps a lease with the clock
  read when the call began; Redis counts from the moment of the write.
- Reentrant identities and Redis tokens belong to one mutex object each, and node keys
  to one node each. An object has one call in progress at a time.
- Two commands do not look at what they overwrite: the delete of the Mongo `exist_lock`,
  which names only the key, and the SET of a Redis refresh. A step is called gentle unless
  it is such a delete that hits a live lock or such a SET that hits a live entry of another
  object. The theorems on runs of the two mutexes are about gentle runs; the methods of the
  mutex classes assume nothing and say that the lock is exclusive as long as the run was
  gentle. For each of the two commands a lemma says that it keeps to the register if and
  only if it is gentle, and a run without it ends with two holders. For the refresh this is
  also exactly when two objects come to hold the lock (`RedisMutexProtocol.RefreshBreaksExclusionIff`).
  A Redis refresh that lands before the lease its GET saw runs out is always gentle
  (`RedisMutexProtocol.TimelyIsGentle`).
- In the no-lost-update runs the entity type stamps its updates and loaded documents carry
  `updated_at`. Soft delete, isolation and the other audits may be on or off and may differ
  between clients; time stamps may repeat and go back.

## What the code does not do

- A body of exactly the maximal size is rejected like a longer one
  (`src/core_py/resource.py:554-557`): the limiter reports the limit before it can see
  the end. `ByteStream.Download` states it as an if-and-only-if.
- A sensitive value made of digits is read as a number, on which the placeholder check
  fails (`src/core_py/config.py:312`, `src/core_py/config.py:322-323`), although it comes
  from the environment: `Config.NumericSecretIsRejected`. `Config.AcceptedIff` gives the
  exact condition.
- A patch stamps the stored document after its own object, so the object is stale
  afterwards (`src/core_py/model/mongox/repository.py:284-289`, `:408`):
  `RepositoryRuns.PatchedObjectIsStale`.
- Two writes with equal time stamps can lose one of them
  (`RepositoryRuns.EqualStampLosesUpdate`), which the audits in milliseconds make likely.
  `RepositoryRuns.LosesIffClashes` gives the exact condition.
- A bulk soft delete leaves `updated_at` as it is
  (`src/core_py/model/mongox/repository.py:343-365`), so a client for which soft delete is
  off can write over its mark. This is one of the cases of `RepositoryRuns.Clashes`.
- An upsert of an entity whose document was removed meanwhile stores it anew, although the
  entity carries a version: `RepositoryRuns.UpsertReinsertsIff`.
- A document is stored with the deletion time of its entity if that is not None. The
  audit in milliseconds defaults it to zero (`src/core_py/model/audit.py:116-118`), so
  such an entity is hidden from the moment it is created:
  `RepositoryRuns.CreatedIsVisibleIff`.
- A create audit that fails for lack of a tenant has set the creation time already, so
  the same object is no longer taken for a new one: `RepositoryRuns.FailedAuditCountsAsCreated`.
- An inlined Optional dataclass that is None comes back as an instance, or its entity
  cannot be decoded (`src/core_py/model/mongox/codec.py:129-132`):
  `Codec.InlinedNoneComesBackAsInstance`.
- An upsert of an entity that was never created filters on the id alone and replaces a
  tombstone: `RepositoryRuns.UncreatedUpsertReplacesTombstone`.
- A None inside a list of SnowflakeIDs is stored but cannot be decoded:
  `Codec.NoneSnowflakeItemFails`. `Codec.DocumentRoundTrip` gives the exact condition.
- An empty text cursor prints as the empty token, which ends a feed early:
  `Feed.TextFeedIsCompleteIff`. `Feed.FeedIsComplete` gives the exact condition for any
  cursor type.

## Model

| member | source | states |
|---|---|---|
| LeaseRegister.Handover | src/core_py/dkit/mongo.py:39-109 | leases never overlap: between two states of a run that name different holders, the first holder gave its lease up or the lease, as last renewed, ran out |
| MongoMutexProtocol.InvStep | src/core_py/dkit/mongo.py:39-119 | every gentle step of any client keeps: a claim that has not run out is the stored document, written by the claimant |
| MongoMutexProtocol.InvRun | src/core_py/dkit/mongo.py:39-119 | so it holds in every state of every gentle run |
| MongoMutexProtocol.LiveDocStays | src/core_py/dkit/mongo.py:64-81 | a document that has not run out outlives every insert, compare-and-set, gentle delete and reaping by anybody but its writer, because its expiry differs from every lapsed one |
| MongoMutexProtocol.Refines | src/core_py/dkit/mongo.py:39-109 | every gentle step of the lock document is a step of the lease register |
| MongoMutexProtocol.RunRefines | src/core_py/dkit/mongo.py:39-109 | every gentle run of the clients is a run of the register |
| MongoMutexProtocol.MutualExclusion | src/core_py/dkit/mongo.py:39-109 | in every state of every gentle run, whatever the interleaving, at most one object has a detail that has not run out, and the register names that object |
| MongoMutexProtocol.LockHandover | src/core_py/dkit/mongo.py:39-109 | in a gentle run, between documents by different writers there is an unlock by the first writer or a moment at which its lease had run out |
| MongoMutexProtocol.StaleUnlockIsHarmless | src/core_py/dkit/mongo.py:101-109 | in a gentle run an unlock removes a live document only if the caller holds the lock and wrote it |
| MongoMutexProtocol.UndisturbedTryLock | src/core_py/dkit/mongo.py:39-86 | with nobody else moving, for any detail, document and identity: the call succeeds if and only if nothing is stored, what is stored ran out, it carries the caller's identity, or it is live and has the identity and expiry of the detail; it writes only where nothing live is stored |
| MongoMutexProtocol.HolderKeepsLock | src/core_py/dkit/mongo.py:44-52 | the holder of a live lock that tries again, undisturbed and with any identity or none, still holds it; nothing changes |
| MongoMutexProtocol.UndisturbedUnlock | src/core_py/dkit/mongo.py:101-109 | with nobody else moving an unlock removes the document and the detail exactly when their expiries are the same, and else nothing |
| MongoMutexProtocol.UndisturbedExistLock | src/core_py/dkit/mongo.py:111-119 | with nobody else moving, `exist_lock` removes a document that ran out and changes nothing else |
| MongoMutexProtocol.ExistDeleteRefinesIffGentle | src/core_py/dkit/mongo.py:111-118 | from any good state the delete of `exist_lock` is a step of the register, and no release, if and only if it does not hit a live lock |
| MongoMutexProtocol.LateExistDeleteBreaksMutualExclusion | src/core_py/dkit/mongo.py:113-117 | a run in which a late delete by `exist_lock` lets two objects hold the lock |
| MongoMutex.MongoMutex.TryLock | src/core_py/dkit/mongo.py:39-86 | the call is a run of the protocol from the state before; true: the object holds a detail which, while it has not run out and all steps were gentle, is the stored document, with nobody else holding the lock; false: the last command met a live document of somebody else or one that changed since it was read |
| MongoMutex.MongoMutex.Recheck | src/core_py/dkit/mongo.py:44-53 | the held detail is kept if and only if the document found runs out after the call began and has the recorded identity and expiry; it is dropped otherwise |
| MongoMutex.MongoMutex.InsertNew | src/core_py/dkit/mongo.py:55-62 | the insert wins the lock with the expiry counted from the start of the call, or is refused by a document that is there |
| MongoMutex.MongoMutex.TakeOver | src/core_py/dkit/mongo.py:64-81 | the compare-and-set on the observed expiry wins the lock, or is refused because the document changed |
| MongoMutex.MongoMutex.Unlock | src/core_py/dkit/mongo.py:101-109 | it succeeds exactly when the delete met the document with the recorded expiry; a failure removes nothing and keeps the detail |
| MongoMutex.MongoMutex.ExistLock | src/core_py/dkit/mongo.py:111-119 | true exactly when the document it found had not run out when the call began; otherwise it deletes, if it found one, whatever is stored by then; the call is a run of the protocol, which stays gentle only if that is no live lock; the detail stays |
| MongoMutex.MongoMutex.Lock | src/core_py/dkit/mongo.py:88-99 | with a limited wait: a failure only after the whole wait, at most MaxTries tries; between two tries it sleeps one interval, or what is left of a limited wait if that is shorter; without a limit it never gives up; success means a lock that is held while it has not run out and all steps were gentle |
| MongoMutex.MaxTriesIsCeiling | src/core_py/dkit/memory.py:52-63 | the bound on the tries is ceil(wait / interval) + 1 |
| RedisMutexProtocol.InvStep | src/core_py/dkit/redis.py:47-85 | every gentle step keeps: a granted lease that has not run out is the stored entry, and a live entry is the lease of its writer |
| RedisMutexProtocol.LiveEntryStays | src/core_py/dkit/redis.py:47-85 | a live entry outlives every gentle step by anybody but its writer |
| RedisMutexProtocol.Refines | src/core_py/dkit/redis.py:47-85 | every gentle step of the key is a step of the lease register |
| RedisMutexProtocol.RefreshRefinesIff | src/core_py/dkit/redis.py:50-54 | from any good state the unconditional SET of a refresh is a step of the register if and only if it is gentle, which is if and only if the key carries no live token of another object |
| RedisMutexProtocol.RunRefines | src/core_py/dkit/redis.py:47-85 | every gentle run of the clients is a run of the register |
| RedisMutexProtocol.MutualExclusion | src/core_py/dkit/redis.py:47-85 | in a gentle run no two objects ever hold leases that have not run out, and a live lease is the stored token |
| RedisMutexProtocol.RefreshBreaksExclusionIff | src/core_py/dkit/redis.py:50-54 | from any good state two objects hold leases after a refresh if and only if it hit a live entry of another object |
| RedisMutexProtocol.LockHandover | src/core_py/dkit/redis.py:47-85 | in a gentle run the lock passes on only after an unlock by its writer or once its lease ran out |
| RedisMutexProtocol.UnlockRemovesOwnOnly | src/core_py/dkit/redis.py:74-85 | in a gentle run an unlock that removes the key removes the caller's own live token, and the caller holds nothing any more |
| RedisMutexProtocol.TtlMsCovers | src/core_py/dkit/redis.py:321-322 | the granted milliseconds are the fewest positive ones that cover the requested ttl |
| RedisMutexProtocol.UndisturbedTryLock | src/core_py/dkit/redis.py:47-59 | with nobody else moving, whatever the identity: the call succeeds if and only if the key is absent, ran out or carries the very token asked for, and then the key carries that token for exactly the granted time; else nothing changes |
| RedisMutexProtocol.UndisturbedUnlock | src/core_py/dkit/redis.py:74-85 | with nobody else moving an unlock removes the key, token and lease exactly when the live key carries the token under which the object locked, or its own if it did not; else nothing changes |
| RedisMutexProtocol.LockThenUnlock | src/core_py/dkit/redis.py:47-85 | with any identity or none, a lock taken and given back undisturbed leaves no key and no recorded token behind |
| RedisMutexProtocol.LateRefreshBreaksMutualExclusion | src/core_py/dkit/redis.py:50-52 | a run in which a late refresh lets two objects hold the lock |
| RedisMutexProtocol.TimelyIsGentle | src/core_py/dkit/redis.py:50-54 | a run in which every refresh lands before the lease that its GET saw runs out is gentle, so all of the above holds of it |
| RedisMutex.RedisMutex.TryLock | src/core_py/dkit/redis.py:47-59 | the call is a run of the protocol; true: a lease for the whole granted time from some moment of the call on, exclusive while it lasts and all steps were gentle; false: SET NX met a live entry; the recorded token changes on success only |
| RedisMutex.RedisMutex.RefreshIt | src/core_py/dkit/redis.py:51-54 | a refresh grants the whole time anew, whatever is stored by then; the run stays gentle only if that is no live entry of another object |
| RedisMutex.RedisMutex.SetIt | src/core_py/dkit/redis.py:55-59 | SET NX either grants a lease or was refused by a live entry |
| RedisMutex.RedisMutex.Unlock | src/core_py/dkit/redis.py:74-85 | it succeeds exactly when the script finds live the token under which the object locked, or its own if it did not lock, so always while the object holds a lease under that token; then the object holds nothing, and otherwise nothing changes |
| MongoElection.InvStep | src/core_py/dkit/mongo.py:263-306 | every step of every node keeps: a lease that has not run out is the stored record |
| MongoElection.Refines | src/core_py/dkit/mongo.py:263-306 | every step of the leader record is a step of the lease register |
| MongoElection.RunRefines | src/core_py/dkit/mongo.py:263-306 | every run of the nodes is a run of the register |
| MongoElection.OneLeader | src/core_py/dkit/mongo.py:263-306 | two nodes never both hold a lease that has not run out, and the record names the one that does |
| MongoElection.LeaderHandover | src/core_py/dkit/mongo.py:295-300 | the leader changes only after the old one closed or its lease, as last renewed, ran out |
| MongoElection.ExpiryNeverGoesBack | src/core_py/dkit/mongo.py:277-289 | while one record lives, its expiry never decreases, through renewals and take-overs |
| MongoElection.UndisturbedTick | src/core_py/dkit/mongo.py:261-293 | a tick that nobody disturbs leaves a live record to its node and renews an own one; it puts the node in place of no record, or of one that ran out, if and only if the node may stand |
| MongoElection.NeverLeadsUnlessStanding | src/core_py/dkit/mongo.py:290 | through any run of all nodes, a node that does not lead and may not stand never comes to lead |
| MongoAtomic.MongoAtomic.TickElection | src/core_py/dkit/mongo.py:275-293 | the leader part of the tick is a run of the protocol; afterwards the flag tells whether the record names the node, and then no other node holds a lease; the handler is told exactly of changes of the flag; a node that did not lead and may not stand does not lead afterwards and is granted nothing |
| MongoAtomic.MongoAtomic.TryBecomeLeader | src/core_py/dkit/mongo.py:351-378 | the insert or the compare-and-set on the record that was seen is the protocol's step, won or lost |
| MongoAtomic.MongoAtomic.NotifyLeaderChange | src/core_py/dkit/mongo.py:320-342 | the flag becomes what the record says at that moment; if there is a handler it is called exactly when the flag changed, with the flag and the leader of that moment |
| MongoAtomic.MongoAtomic.Close | src/core_py/dkit/mongo.py:295-300 | the node holds no lease any more and no record names it |
| MongoAtomic.MongoAtomic.AskIsLeader | src/core_py/dkit/mongo.py:193-200 | true only while no other node holds a lease |
| RedisElection.InvStep | src/core_py/dkit/redis.py:203-234 | every step of every node keeps: a lease that has not run out is the stored entry |
| RedisElection.RunRefines | src/core_py/dkit/redis.py:203-234 | every run of the nodes is a run of the lease register, with no assumption on timing |
| RedisElection.OneLeader | src/core_py/dkit/redis.py:203-226 | two nodes never both hold a lease that has not run out, and the key names the one that does |
| RedisElection.LeaderHandover | src/core_py/dkit/redis.py:228-232 | the leader changes only after the old one closed or its lease, as last renewed, ran out |
| RedisElection.UndisturbedTick | src/core_py/dkit/redis.py:203-226 | a tick that nobody disturbs leaves a live key to its node and renews an own one; it takes an absent key, or one that ran out, if and only if the node may stand |
| RedisElection.NeverLeadsUnlessStanding | src/core_py/dkit/redis.py:223-224 | through any run of all nodes, a node that does not lead and may not stand never comes to lead |
| RedisAtomic.RedisAtomic.TickElection | src/core_py/dkit/redis.py:211-226 | the leader part of the tick is a run of the protocol; afterwards the flag tells whether the key names the node, and then no other node holds a lease; the handler is told exactly of changes of the flag; a node that did not lead and may not stand does not lead afterwards and is granted nothing |
| RedisAtomic.RedisAtomic.NotifyLeaderChange | src/core_py/dkit/redis.py:271-290 | the flag becomes what the key says at that moment; if there is a handler it is called exactly when the flag changed, with the flag and the leader of that moment |
| RedisAtomic.RedisAtomic.Close | src/core_py/dkit/redis.py:228-232 | the node holds no lease any more and the key does not name it |
| RedisAtomic.RedisAtomic.AskIsLeader | src/core_py/dkit/redis.py:144-148 | true only while no other node holds a lease |
| MemoryMutex.InMemoryMutex.TryLock | src/core_py/dkit/memory.py:37-50 | the entry and the answer are those of one step on the key's entry; on success the object unlocks under the stored owner; other keys stay |
| MemoryMutex.InMemoryMutex.Unlock | src/core_py/dkit/memory.py:65-77 | the entry and the answer are those of one step on the key's entry; the recorded owner is cleared on success only; other keys stay |
| MemoryMutex.InMemoryMutex.ExistLock | src/core_py/dkit/memory.py:79-87 | the entry and the answer are those of one step on the key's entry; other keys stay |
| MemoryMutex.SameAnswers | src/core_py/dkit/memory.py:34-87 | for every sequence of calls, lazily purged entries give the same answers as a lock whose holder vanishes at expiry |
| MemoryMutex.UnlockIffHeld | src/core_py/dkit/memory.py:65-77 | an unlock succeeds exactly when the caller's owner has an entry that has not run out; otherwise nobody's lock is lost |
| MemoryMutex.TryLockIffFree | src/core_py/dkit/memory.py:37-50 | the lock is taken exactly when it is free or held under the presented identity |
| UniqueNumbers.ScanMeets | src/core_py/dkit/memory.py:103-105 | the wrap-around scan meets every number below the maximum |
| UniqueNumbers.FullScanMeansFull | src/core_py/dkit/memory.py:101-109 | a whole scan without a free number means that at least the maximum is allocated, so the last raise is unreachable |
| UniqueNumbers.InMemoryAtomic.GetUniqueRandomNumber | src/core_py/dkit/memory.py:97-109 | it fails exactly when the maximum is not positive or that many numbers are allocated, and else returns the first free number of the scan and allocates it only |
| UniqueNumbers.ReturnedOnce | src/core_py/dkit/memory.py:97-109 | over all calls no number is returned twice |
| UniqueNumbers.LeasesAreDistinct | src/core_py/dkit/mongo.py:146-166 | with the commands of all callers, purges and reaping interleaved, Redis or Mongo, two leases that have not run out never name the same number |
| LeasedNumbers.RedisAtomic.GetUniqueRandomNumber | src/core_py/dkit/redis.py:109-120 | the numbers are tried in the order of the scan, one store command each, others moving in between; the call returns the first that is not leased when it is tried, just granted for the whole lease, and fails only if every number was leased when it was tried |
| LeasedNumbers.MongoAtomic.GetUniqueRandomNumber | src/core_py/dkit/mongo.py:146-166 | the same for inserts, where a number is taken as long as it is stored; the scan begins after a purge that leaves nothing that had run out when the call began, and the lease counts from there |
| LeasedNumbers.EveryNumberProbed | src/core_py/dkit/redis.py:113-120 | a scan in which every number tried was taken has tried every number |
| Codec.ToDocument | src/core_py/model/mongox/codec.py:13-42 | the loop over the fields of a dataclass computes the payload that the round trip and StoredUnderKey are about |
| Codec.DecodeDataclass | src/core_py/model/mongox/codec.py:120-137 | the loop over the fields computes the decoding that the round trip and ReadFromKey are about, first error included |
| Codec.PayloadAtField | src/core_py/model/mongox/codec.py:15-33 | under the keys of each field, inlined ones too, the payload has exactly what this field wrote: no field overwrites another |
| Codec.DocKeys | src/core_py/model/mongox/codec.py:10-42 | a payload only has keys of its class, and none of them is renamed |
| Codec.ValueRoundTrip | src/core_py/model/mongox/codec.py:140-150 | decoding an encoded value of any declared type gives it back if and only if what the store does not keep of it returns |
| Codec.ListRoundTrip | src/core_py/model/mongox/codec.py:146-149 | the same for lists, item by item |
| Codec.InstanceRoundTrip | src/core_py/model/mongox/codec.py:129-132 | the same for a class decoded from any document that agrees on the keys of the class, such as that of an enclosing instance |
| Codec.FieldRoundTrip | src/core_py/model/mongox/codec.py:124-136 | the same for one field: kept, left out, None or inlined, with the default taken when the key is missing |
| Codec.DocumentRoundTrip | src/core_py/model/mongox/codec.py:57-62 | the document of an entity decodes to the entity if and only if every field that is left out has its default as value, every None field defaults to None and is not inlined, and no list of SnowflakeIDs has a None |
| Codec.StoredUnderKey | src/core_py/model/mongox/codec.py:14-33 | a field that is neither inlined nor left out is stored, encoded, under the first part of its metadata or else its name, an `id` field under `_id`; nothing is stored of None |
| Codec.ReadFromKey | src/core_py/model/mongox/codec.py:120-137 | decoding any document gives such a field the decoded value under that same key, or its default if the key is missing; a field left out gets its default |
| Codec.LeftOutIsNotStored | src/core_py/model/mongox/codec.py:27-28 | the value of a field whose metadata is "-" makes no difference to the document |
| Codec.InlinedIsStoredFlat | src/core_py/model/mongox/codec.py:29-33 | the document of an inlined instance is part of that of the enclosing one |
| Codec.EncodedIsPlain | src/core_py/model/mongox/codec.py:14-54 | what is stored has no dataclass, tuple or SnowflakeID in it; a SnowflakeID is stored as its number |
| Codec.LiteralIdKeyIsLost | src/core_py/model/mongox/codec.py:40-41 | a field mapped to the literal key `id` is decoded to its default, whatever its value was |
| Codec.NoneSnowflakeItemFails | src/core_py/model/mongox/codec.py:147-149 | an entity with a None in a list of SnowflakeIDs whose document cannot be decoded |
| Codec.InlinedNoneComesBackAsInstance | src/core_py/model/mongox/codec.py:129-132 | for every inner class: an inlined field that is None and defaults to None is never decoded to None; it comes back as an instance made of the inner defaults, if there are |
| Patch.BuildPatchPayload | src/core_py/model/mongox/patch.py:23-40 | the loop over the fields of a dataclass computes the payload that the agreement is about |
| Patch.PatchDisjoint | src/core_py/model/mongox/patch.py:31-39 | the payload of each field shares no dotted key with those of the fields before it |
| Patch.FieldAgrees | src/core_py/model/mongox/patch.py:24-39 | for every document that agrees with the encoded instance on the keys of its class: what it holds of one field, under dotted keys, is exactly what that field adds to the payload |
| Patch.PatchAgreesWithEncoder | src/core_py/model/mongox/patch.py:9-40 | with no hidden field names: the document, with dotted keys in place of nested classes and nowhere else, equals the payload with its values encoded, key by key |
| Patch.UnderscoredIsNotPatched | src/core_py/model/mongox/patch.py:24-26 | the value of a field whose name begins with an underscore makes no difference to the payload |
| DottedSet.LeafOfSet | src/core_py/model/mongox/repository.py:291-295 | the law of a dotted `$set` that the store accepts: a path that is named, or below a named one, gets its leaf from the update, and every other leaf stays as it was |
| DottedSet.SetsTopKeys | src/core_py/model/mongox/repository.py:350-355 | keys without dots are always accepted and set as they are |
| PatchedDocument.FlattenIsSettable | src/core_py/model/mongox/repository.py:265-275 | on every document of the shape of its class a patch of that class is accepted by the store, however deep it goes |
| PatchedDocument.PatchedLeaves | src/core_py/model/mongox/repository.py:265-295 | a patch of one value of a class on the stored document of another is accepted, sets exactly the leaves it names, and keeps every other one, in nested classes too |
| PatchedEntity.PayloadIsFlattened | src/core_py/model/mongox/repository.py:284-289 | what the repository sends for an entity is the flattened stamped entity |
| PatchedEntity.PatchIsCarriedOut | src/core_py/model/mongox/repository.py:265-303 | the patch of an entity on a stored document of its class is never refused by the store; when it succeeds, every leaf that the stamped entity names is set and every other one stays, in nested classes too |
| DottedKeys.DottedInjective | src/core_py/model/mongox/codec.py:83-84 | paths of non-empty keys without dots can be told from their dotted key |
| Feed.SelectMerged | src/core_py/model/mongox/query.py:53-58 | selecting by the merged filter is selecting by both, empty filters included |
| Feed.SelectSort | src/core_py/model/mongox/repository.py:203-206 | filtering a sorted collection is sorting the filtered one |
| Feed.SelectRest | src/core_py/model/mongox/query.py:67-73 | in a feed without equal cursors the cursor filter of a row selects exactly the rows after it, in either direction |
| Feed.LawfulIsReadable | src/core_py/model/mongox/repository.py:181-216 | every token that is not empty asks for the slice of the whole feed after its row |
| Feed.FeedIsComplete | src/core_py/model/mongox/repository.py:181-221 | following the tokens until they run out reads the whole sorted, filtered collection if and only if no page but the last ends with a row with an empty token; then it takes one page per page size begun, and all but the last name a next one |
| Feed.PageCountIsCeiling | src/core_py/model/mongox/repository.py:203 | that number of pages is ceil(n / size) for n > 0 |
| Feed.PageHolds | src/core_py/model/mongox/repository.py:212-216 | page k of a feed that goes on holds exactly the rows from k * size up to (k + 1) * size |
| Feed.StopsAt | src/core_py/model/mongox/repository.py:212-215 | the first empty token at the end of a page is exactly where a feed stops |
| Feed.IntTokensReadBack | src/core_py/model/mongox/query.py:80-84 | tokens of integer cursors, negative ones too, are not empty and read back |
| Feed.IntFeedIsComplete | src/core_py/model/mongox/query.py:76-84 | a feed over distinct integer cursors is always complete |
| Feed.TextFeedIsCompleteIff | src/core_py/model/mongox/query.py:76-79 | a feed over distinct text cursors is complete unless it is ascending, in pages of one row, and starts with an empty text that is not its only row |
| Feed.EmptyCursorEndsFeed | src/core_py/model/mongox/repository.py:190 | a collection of two rows of which a feed never reads the second |
| Feed.RefusedTokens | src/core_py/model/mongox/query.py:61-84 | a token is refused if and only if it is not empty and the cursor field is unknown or the token cannot be read, with the error that says which |
| Repository.CollectionRepository.InjectCond | src/core_py/model/mongox/repository.py:148-152 | the filter keeps the caller's conditions under all keys but the injected ones, which override; it fails exactly when the context for the isolation is missing |
| Repository.InjectedMeansVisible | src/core_py/model/mongox/repository.py:442-467 | an injected filter selects exactly the documents that are visible to the caller and that the caller's other conditions select |
| Repository.CollectionRepository.BaseUpdateFilter | src/core_py/model/mongox/repository.py:407-412 | the filter selects the entity's document exactly when it is visible and still the loaded version; without its version condition, when it is visible |
| Repository.CollectionRepository.ReplaceOrExplain | src/core_py/model/mongox/repository.py:370-397 | the replace happens exactly when the filter selects the document; not found and modified-by-other are told apart by whether the document is there, without the version, when the repository looks; a replace that changes nothing is a conflict |
| Repository.CollectionRepository.Create | src/core_py/model/mongox/repository.py:247-257 | a new audited document under the entity's id, or exactly one of: no id, missing context, id taken; the entity is left as the audit left it, also when that failed half-way |
| Repository.CollectionRepository.CommonReplace | src/core_py/model/mongox/repository.py:367-405 | the store, the entity and the error are those of a replace of a visible, fresh document, of an insert by an upsert, or of an upsert by id of an entity never created; others may come between the replace and the look for a reason |
| Repository.CollectionRepository.Update | src/core_py/model/mongox/repository.py:259-260 | the store, the entity and the error are those of a replace of a visible, fresh document, with the reason of a failure as of a later moment |
| Repository.CollectionRepository.Upsert | src/core_py/model/mongox/repository.py:262-263 | the same, and an entity not stored is inserted |
| Repository.CollectionRepository.Patch | src/core_py/model/mongox/repository.py:265-303 | the dotted keys of the entity are set on a visible, fresh document, which is stamped later than the entity; an update that the store cannot carry out fails and changes nothing |
| Repository.CollectionRepository.PatchRaw | src/core_py/model/mongox/repository.py:277-303 | the dotted keys are set on all visible documents selected or on one of them, with conditions skipped on selected ones; no match is not-found, a versioned patch that changes nothing a conflict; if the store cannot carry it out on one, those before it stay patched |
| Repository.CollectionRepository.Delete | src/core_py/model/mongox/repository.py:305-315 | with soft delete the marked update under the optimistic lock, otherwise the removal of a visible document, as `RepositoryEffects` spells them out |
| Repository.CollectionRepository.BatchDeleteByFilter | src/core_py/model/mongox/repository.py:343-365 | marks or removes exactly the visible documents selected and returns their number |
| Repository.CollectionRepository.Find | src/core_py/model/mongox/repository.py:154-158 | the answer is exactly the visible documents that the caller's conditions select |
| Repository.CollectionRepository.GetById | src/core_py/model/mongox/repository.py:230-245 | a document is returned exactly when it is stored and visible to the caller |
| RepositoryEffects.CreateEffect | src/core_py/model/mongox/repository.py:247-257 | a create goes through if and only if the id is given and free and the context has what the stamps need; the document is then the entity with its user, tenant, app and times |
| RepositoryEffects.OwnersSee | src/core_py/model/mongox/repository.py:442-467 | what one caller creates another sees if and only if its isolation, by user, tenant or app, is met, and with soft delete on the entity carries no deletion time |
| RepositoryEffects.UpdateEffect | src/core_py/model/mongox/repository.py:367-412 | an update goes through if and only if the document is visible and has the version that the entity carries, if any, and a versioned document would change; the document is then the entity with user and time of the update; missing context, not found and conflict are told apart |
| RepositoryEffects.UpsertEffect | src/core_py/model/mongox/repository.py:399-405 | an upsert of a created entity goes like an update, but stores an entity whose document does not exist |
| RepositoryEffects.UpsertNewEffect | src/core_py/model/mongox/repository.py:399-405 | an upsert of an entity never created stores it as a new one, whatever is there, if and only if the context has what the stamps need |
| RepositoryEffects.PatchEffect | src/core_py/model/mongox/repository.py:265-303 | a patch of an entity goes through if and only if an update would find the document, the store can set the keys and a versioned document changes; it sets the dotted keys of the stamped entity and the later stamp |
| RepositoryEffects.SoftDeleteEffect | src/core_py/model/mongox/repository.py:305-310 | a soft delete that succeeds leaves the document there with the time and user of the deletion, the rest as the stamped entity, and nobody who hides deleted documents sees it |
| RepositoryEffects.SoftDeletesIff | src/core_py/model/mongox/repository.py:305-310 | it succeeds if and only if there is a user and the document is visible and has the version that the entity carries, if any |
| RepositoryEffects.RemoveEffect | src/core_py/model/mongox/repository.py:312-315 | without soft delete a delete removes the document, of whatever version, if and only if the caller sees it |
| RepositoryEffects.BatchDeleteEffect | src/core_py/model/mongox/repository.py:343-365 | a bulk delete marks, or removes, exactly the visible documents picked, and fails if there are none or with soft delete no user |
| RepositoryEffects.PatchRawEffect | src/core_py/model/mongox/repository.py:277-303 | a raw patch sets its keys and the stamp on exactly the documents picked, all of them or only the visible ones |
| RepositoryEffects.CreatedEntity | src/core_py/model/options.py:97-112 | a create leaves the entity object as far as it was stamped: creator, then tenant and app, then update, also when the context for the next one is missing |
| RepositoryEffects.UpdatedEntity | src/core_py/model/options.py:115-144 | an update, upsert or patch leaves the entity object stamped if there is a user, whatever comes of it |
| RepositoryEffects.DeletedEntity | src/core_py/model/options.py:147-153 | a delete leaves the entity object with the marks of the deletion, and a soft one with its stamps besides |
| RepositoryRuns.InvisibleIsUntouched | src/core_py/model/mongox/repository.py:247-412 | whatever the operation and its arguments, a document that the caller may not see stays exactly as it is |
| RepositoryRuns.TombstonesArePermanent | src/core_py/model/mongox/repository.py:305-365 | in any run with soft delete a deleted document is never removed or seen again, and without raw patches that skip the conditions it never changes |
| RepositoryRuns.UncreatedUpsertReplacesTombstone | src/core_py/model/mongox/repository.py:399-405 | an upsert makes a tombstone visible again if and only if the entity was never created, its audit passes and its id is the tombstone's |
| RepositoryRuns.CreatedIsVisibleIff | src/core_py/model/mongox/repository.py:462-467 | a new document is visible to its creator if and only if it has no deletion time of its own |
| RepositoryRuns.FailedAuditCountsAsCreated | src/core_py/model/options.py:97-112 | a create audit refused for lack of a tenant leaves an entity that counts as created |
| RepositoryRuns.SeenOnlyExplains | src/core_py/model/mongox/repository.py:381-390 | others who come between a replace that finds nothing and the look for a reason change only which of two reasons is reported |
| RepositoryRuns.FailedPatchIsPatchOfDone | src/core_py/model/mongox/repository.py:291-295 | a raw patch that fails half-way left the store as a patch of the documents that had their turn does |
| RepositoryRuns.NoLostUpdate | src/core_py/model/mongox/repository.py:367-412 | in every run with any time stamps and any mix of configurations: if no step clashed with a client's copy, its successful update, upsert, patch or soft delete acted on exactly the stored document it had read or last written, changed it, and changed no other; only an upsert may instead have found no document |
| RepositoryRuns.CopyStaysOkIff | src/core_py/model/mongox/repository.py:381-389 | through any step a copy stays such that only its own base can be overwritten if and only if the step does not clash with it: no other client stored something else under the version that the copy carries, no bulk soft delete left that version in place for a client that sees deleted documents, and no refused write of its own left it with the stored version |
| RepositoryRuns.LosesIffClashes | src/core_py/model/mongox/repository.py:407-412 | the exact condition, in terms of the guards of the step: after it the client can overwrite, with success, a document that it has neither read nor written if and only if the step clashed with its copy |
| RepositoryRuns.ClashLosesEveryWrite | src/core_py/model/mongox/repository.py:367-412 | after a clash every write of the client, whatever it writes and however it is configured, loses the update if and only if its configuration lets it write the document and the write changes it |
| RepositoryRuns.DistinctStampsNeverClash | src/core_py/model/options.py:127-144 | in a run with distinct time stamps no step clashes with any copy, a bulk soft delete set aside for clients that see deleted documents; so no update is lost |
| RepositoryRuns.ReadThenWrite | src/core_py/model/mongox/repository.py:259-310 | if a client loads and later writes with success, and no step in between clashed with its copy, the document did not change in between, unless the write is an upsert that found none |
| RepositoryRuns.StaleUntilReloaded | src/core_py/model/mongox/repository.py:381-389 | every write of a copy that is not the stored version fails, but for an upsert that finds no document; with distinct stamps it stays so until the client gets a new copy |
| RepositoryRuns.WriteMakesOthersStale | src/core_py/model/options.py:127-144 | a successful write makes another copy of the document stale if and only if that copy does not carry the stamp of the write |
| RepositoryRuns.CurrentAfterIff | src/core_py/model/mongox/repository.py:407-411 | after any step by somebody else a copy has the stored version if and only if the step wrote the document with this very stamp, or neither wrote nor removed it and the copy had the stored version before |
| RepositoryRuns.PatchedObjectIsStale | src/core_py/model/mongox/repository.py:265-289 | after a successful write the writing object itself is stale if and only if the write was a patch whose second stamp differs from its first |
| RepositoryRuns.UpsertReinsertsIff | src/core_py/model/mongox/repository.py:399-412 | an upsert of a created entity brings a removed document back if and only if there is a user and the context for the isolation |
| RepositoryRuns.EqualStampLosesUpdate | src/core_py/model/mongox/repository.py:407-412 | a clash: two updates of one loaded version, the first stamped with that version, both succeed and the first is lost |
| Config.MergeMaps | src/core_py/config.py:143-151 | the loop computes the merge that the leaf law is about |
| Config.LeafOfMerge | src/core_py/config.py:143-151 | a leaf of the merged tree is the source's leaf at the path, or the destination's if the source has nothing at or above the path |
| Config.SetPathIsMerge | src/core_py/config.py:154-164 | setting a path is merging the tree with this one leaf |
| Config.LeafOfTyped | src/core_py/config.py:232-269 | typed overrides have the same paths; a text leaf is read with the value at the same path of the tree so far as its hint |
| Config.TextIsTyped | src/core_py/config.py:245-280 | text that replaces a number is read as a number of its kind; other text is read as a word for true or false, and where no Boolean is replaced as a whole number or any number; what cannot be read stays text |
| Config.RecordSources | src/core_py/config.py:292-300 | the map names the source at exactly the dotted paths of the leaves and is unchanged elsewhere |
| Config.FlattenMap | src/core_py/config.py:361-369 | the flat map has exactly the dotted paths of the leaves, each with the value of such a leaf |
| Config.Load | src/core_py/config.py:61-101 | each leaf has the value of its winner, and the source map names for every leaf of the merged tree the input that wins it, flags before environment before local before deployment before default file; the result is accepted exactly when every sensitive leaf that is not empty is safe text from the environment or the local file, so a secret from any other input is rejected |
| Config.LastSourceIsWinner | src/core_py/config.py:66-98 | the last layer of a load that defines a path is that of the input with the highest precedence that defines it |
| Config.WinnerGivesValue | src/core_py/config.py:61-98 | each leaf has the value that the winning input gives it: a file as it is, environment and flags typed by what was merged before them |
| Config.MergeLayers | src/core_py/config.py:61-98 | the layering computes the sequence of trees and source maps that the provenance is about |
| Config.Provenance | src/core_py/config.py:61-98 | each leaf of the merged tree has the typed value of the last layer that defines its path, and the source map names that layer, however leaves and mappings overwrote each other |
| Config.ValidateSensitiveSources | src/core_py/config.py:303-315 | it accepts exactly when every flattened leaf passes, and otherwise reports a leaf that does not |
| Config.AcceptedIff | src/core_py/config.py:303-330 | a loaded configuration is accepted if and only if every sensitive leaf that is not empty was last defined by the environment or the local file and is text that is no placeholder |
| Config.NumericSecretIsRejected | src/core_py/config.py:88-91 | a sensitive value of digits is rejected though the environment is its source |
| Base64Url.GroupReadsBack | src/core_py/dkit/redis.py:301-312 | a padded group of one to three bytes decodes to itself |
| Base64Url.ComponentRoundTrip | src/core_py/dkit/redis.py:301-312 | every component, its padding stripped, decodes to what was encoded, and has no colon |
| Base64Url.EncodeInjective | src/core_py/dkit/redis.py:301-305 | different components have different texts |
| Base64Url.Vectors | src/core_py/dkit/redis.py:301-305 | the test vectors of section 10 of RFC 4648 without their padding |
| HeartbeatKeys.HeartbeatKeyInjective | src/core_py/dkit/redis.py:261-269 | a heartbeat key determines its isolation group and its node |
| HeartbeatKeys.PatternMatches | src/core_py/dkit/redis.py:248-269 | the prefix of a group starts exactly the heartbeat keys of this group, among mutex, number, leader and heartbeat keys, and the rest decodes to the node |
| HeartbeatKeys.LessIsEarlier | src/core_py/dkit/redis.py:162 | the order of the nodes is that of the first byte in which they differ, a proper start first |
| HeartbeatKeys.KeysLookLike | src/core_py/dkit/redis.py:248-269 | the layout of each kind of key |
| HeartbeatKeys.AliveNodes | src/core_py/dkit/redis.py:150-162 | for a scan of keys in any order, among keys of other kinds: the answer is, in order, exactly the nodes with a live heartbeat in the own group, each once if the scan names each key once |
| ByteStream.AsyncReadableAdapter.Read | src/core_py/_async.py:31-59 | whatever the chunking, a read returns what a read of the flat byte string would and leaves the rest |
| ByteStream.LimitReadCloser.Read | src/core_py/resource.py:551-574 | a read fails exactly when the limit was hit, nothing of it is left, or the body has more than is left and more is asked for; else it is the read of the flat byte string; no read takes more than one byte beyond the limit, and a failure is final |
| ByteStream.DeliveryIsBoundedPrefix | src/core_py/resource.py:551-574 | whatever sizes are asked for, the delivery is a prefix of the body of at most the maximal size |
| ByteStream.LimitIsUnobservable | src/core_py/resource.py:551-574 | on a body strictly shorter than the limit every read answers as without it |
| ByteStream.LongBodyNeverEnds | src/core_py/resource.py:554-573 | a body as long as the limit or longer never reports its end to a reader that asks for bytes |
| ByteStream.Download | src/core_py/resource.py:312-345 | the destination becomes the whole body exactly when it is strictly shorter than the limit and its announced length is not over it; otherwise it stays as it was; no temporary file stays behind |
| InstancePicker.Pick | src/core_py/httpx.py:329-357 | it fails exactly when no instance is healthy, and else takes the candidate into whose share the draw falls, so the last return is unreachable |
| InstancePicker.CandidatesExist | src/core_py/httpx.py:337-346 | with the fallback to other zones there is a candidate exactly when some instance is healthy |
| InstancePicker.CandidatesAreEligible | src/core_py/httpx.py:331-344 | the candidates are exactly the usable instances, in order, only those of the preferred zone if it has any |
| InstancePicker.OneWinner | src/core_py/httpx.py:350-356 | no draw has two winners |
| InstancePicker.PickIsProportional | src/core_py/httpx.py:347-356 | a candidate of weight w wins exactly max(0, w) of the possible draws, or one of them if no weight is positive |
| Retry.Do | src/core_py/httpx.py:454-505 | the attempts end at the first one after which the loop does not go on: success, an error not to be retried, no option or a verb that must not be retried, the last allowed attempt, or a sleep that would end at or after the deadline; each earlier one is followed by its delay |
| Retry.DelayBounds | src/core_py/httpx.py:721-727 | jitter takes away at most half of the delay and never adds to it |
| Retry.DelayDoubles | src/core_py/httpx.py:721-727 | the first delay is the base and each later one twice the one before, none above the maximum; jitter leaves one half and a random part of the other |
| Retry.SleepBudget | src/core_py/httpx.py:721-727 | the sleeps before n attempts take at most (n - 1) maximal delays, and at most the base delay times 2^(n - 1) - 1 |
| Retry.SleepAtLeast | src/core_py/httpx.py:721-727 | they take at least (n - 1) times half of the first delay |

## Left out

- Sharing one reentrant identity between lock objects, which by design breaks the view of one lease per object.
- Cancelled calls and lost replies: a `try_lock` or tick may end with an exception at any point, an unlock whose delete went through is assumed to get its reply.
- MongoMutex.MongoMutex.Lock: stands for the three identical loops. Without a maximal wait the loop may never end, so it is followed for a number of tries only.
- The heartbeat writes of ticks and closes, enabling and disabling an election, the background election loop and TTL index creation.
- The clock is read together with the record where the code reads it right after the reply arrives.
- MemoryMutex.SameAnswers: is about the entry of one key; that other keys stay is stated by the methods.
- UTF-8: components are byte strings, so names are compared byte by byte, which orders them like code points. Characters outside the alphabet, which Python's decoder drops, and glob characters in the key prefix are not modelled.
- HeartbeatKeys.AliveNodes: a key that matches the group's pattern was made by the key builders; any other key may be there.
- Python introspection: type hints, type variables and unions other than Optional become an explicit schema. Entities that are dictionaries or plain objects are not encoded or patched.
- Integers in text are decimal digits; signs, underscores and non-ASCII digits that Python also reads are left out of SnowflakeID and token parsing, except the minus sign in integer tokens. Stripping and lower-casing know ASCII only.
- Codec.DocumentRoundTrip: is about well-formed schemas (among the fields not left out: keys distinct after inlining, none spelled `id`, inlined fields are dataclasses); values in untyped fields have no dataclass, tuple or SnowflakeID in them.
- Patch.PatchAgreesWithEncoder: is about well-formed schemas without field names that begin with an underscore, which the patch leaves out and the encoder does not.
- Feed.FeedIsComplete: every row has the cursor field, and rows are given through their cursor; the entity decoding of the rows is that of the codec.
- Repository entities are given as the documents they encode to, and the type of an entity as its schema.
- Array positions and operators inside the dotted keys of an update, and updates without any key.
- Update, upsert, patch and delete of entities without an id, for which Mongo may make one up.
- `page_query`, `batch_create`, `batch_update`, and the retries of `get_by_filter` against a lagging replica.
- Repository filters are conditions under top-level keys; an operator such as `$or` at the top counts as one condition.
- RepositoryRuns.NoLostUpdate: the bulk operations, raw patches and hard deletes take part as other clients' steps; they carry no version of a loaded entity and are not protected by one. Entity types without update audit have no version at all.
- PatchedEntity.PatchIsCarriedOut: the entity type has its stamps, and its id if it declares one, as fields that are no nested class, as the audit mixins declare them.
- Reading YAML, environment variables and flags, lower-casing of keys, required keys, masking, hashing and the decoding into a model class. The number parsers are parameters.
- Config.Provenance: is about layers whose keys are not empty and have no dot.
- Bodies that bring their own `read`, downloads without a limit, and announced lengths that are refused before the download starts.
- File errors during a download other than the size limit.
- Retry delays are real numbers and the outcomes, clock readings and random draws are given, so rounding of floats is not modelled; `do` and `do_stream` are the same loop.
- Health, zones and weights of instances are given; service discovery itself is not modelled.
