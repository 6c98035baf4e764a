# odysseygo: models and proofs

Dafny models of the parts of the odysseygo node shell whose correctness rests on more than one
function, with proofs of what they promise. `dafny verify dfyconfig.toml` checks everything.

* **Cross-chain shared memory** (`AtomicState`, `VersionedState`, `SharedMemory`, `Apply`, `LockTable`,
  `LockProtocol`, `ConcurrentCalls`, `Paging`). A remove may come before its put and leaves a tombstone;
  entries count puts against removes. `Apply` works through an uncommitted layer and commits once. Callers
  are step machines over reference-counted locks that are dropped and made anew; every interleaving is
  serializable, excludes, and ends. Lookups by trait come in pages.
* **Peers and gossip** (`PeerNetwork`, `NetworkObject`, `PeerLaws`, `GossipNetwork`,
  `GossipClosing`, `GossipTracker`). The locked steps of one node keep a joint invariant that makes the
  unguarded reads safe; what each stores, drops, dials and acknowledges is said exactly. Many nodes then gossip over a
  network that delays, reorders, repeats and loses messages, with dishonest nodes among them. The tracker's
  bit sets are shown to be sets of validators per peer, and the network object works on such a tracker.
* **Genesis** (`GenesisSplit`, `GenesisBuild`). A schedule is worth a stream of coins; the split cuts the
  stream into shares and the genesis pays out every coin once.
* **Indexing** (`PackedNumbers`, `AcceptedIndex`, `Indexer`). Two maps and a counter are an append-only log
  through crashes; persisted flags keep a log with a gap from being served as complete.
* **Routes** (`Router`, `RouterErrors`), **ID bits** (`IdBits`), **health gauges** (`HealthGauges`).

Each object of the program is a class whose methods are proved equal to a step function; the properties are
lemmas about those functions and about every run of them.

Where code and comments disagree the code is modelled. These findings come with the exact condition:

* A wanted node may be tracked already when its first claim arrives, although the comment at
  `network/network.go:564` says it is not: in an open network exactly if it was tracked by hand
  (`TrackedAfreshIffManual`; `ManualNodeIsDialedTwice` reaches it). Closing drops every dial target, so in a
  closing network only one half remains (`DialedAfreshUnlessManual`, `ClosedManualIsNotTracked`).
* An element with the empty key hides newer keys of its trait from unstarted lookups
  (`EmptyKeyHidesNewerKeys`, `UnstartedShortPage`, `OneTraitComplete`), and paging with a limit of one
  repeats one page (`OneKeyPagesRepeat`, `PagesEnd`).
* A validated genesis configuration can still fail. With fewer staked coins than validators it is refused for
  a validator without weight - one staker with nothing to unlock already is - and with nothing to stake for
  several validators it panics (`ValidatedCanFail`; exact conditions in `FromConfig`).
* `AddAlias` does not refuse an alias that maps to a handler, as its error text suggests; it reserves the alias
  and answers with an error. When either call answers so is `AddRouterOkIff` and `AddAliasOkIff`; when the
  handlers come apart is `SameAfterAliasIff`; `TakenAliasIsError` is the plain case.
* A failing registration closes the indexer while other chains run on. What they commit then is neither
  indexed nor marked, and a later run can serve the gap (`GapIsServed`, `ServedIndexHasNoGap`).
* An acknowledged timestamp can lie below that of an answered claim: the transaction IDs in a list are not
  checked, and the last claim under one decides (`AnswerCanBeLess`, `NewestIsLast`, `AnswerIsAtLeast`).
* Closing the network drops addresses and keeps what peers know, so a peer can be taken to know of an address
  the node no longer has (`ClosingCanForget`, `ClosingForgetsTheDropped`).
* A range read whose end passes 2^64, which takes an index of more than 2^64 - 1024 containers, returns empty
  containers (`GetContainerRange`), and the two ID comparisons are not complementary past bit 256
  (`Complementary`).
* Registering a health check can leave a gauge wrong, even at zero while a check fails (`UnsoundRun`); over
  whole runs exactly if a registration was unsound (`RegisterAccurateIffSound`, `RightThroughoutIffSound`).

## Model

| member | source | states |
|---|---|---|
| `AtomicState.State.Value` | chains/atomic/state.go:52-69 | a lookup finds exactly the present entries, and returns the stored value and traits; tombstones and absent keys are not found |
| `AtomicState.State.SetValue` | chains/atomic/state.go:77-115 | the store after a put, the cancelled tombstone and the refused duplicate included; on an error nothing changes |
| `AtomicState.State.RemoveValue` | chains/atomic/state.go:144-175 | the store after a remove, the tombstone left by an early one included; on an error nothing changes |
| `AtomicState.PutThenLookup` | chains/atomic/state.go:52-115 | what is put into an empty place is found as it was put; a put that a remove came before is not |
| `AtomicState.FoundIffRemains` | chains/atomic/state.go:52-175 | after any run a lookup finds exactly the element whose put went last into an empty place and was not removed since, or what was there and never touched |
| `AtomicState.LevelIsNetOfRun` | chains/atomic/state.go:77-175 | after any run an entry is tombstone, absent or present exactly as successful puts minus removes is -1, 0 or 1 |
| `AtomicState.FailsExactlyWhenOutOfRange` | chains/atomic/state.go:77-175 | an operation of a run fails if and only if it would take that count out of -1..1, and always as a duplicated operation |
| `AtomicState.OnceRunsSettle` | chains/atomic/state.go:77-175 | if each key is put and removed at most once, nothing fails in any order: put-only keys end present with their element, remove-only keys as tombstones, the others absent |
| `AtomicState.OrderDoesNotMatter` | chains/atomic/state.go:77-175 | two orders of the same such puts and removes both succeed and leave equal value entries |
| `AtomicState.ExecKeepsIndex` | chains/atomic/state.go:77-175 | an operation keeps the trait index exact, repeated traits and cancellations included |
| `AtomicState.AddKeyLists` | database/linkeddb/linkeddb.go:93-138 | a new key becomes the head of the lists of its traits, and no other list changes |
| `AtomicState.DropKeyLists` | chains/atomic/state.go:167-175 | a removed key leaves the lists of its traits, and no other list changes |
| `AtomicState.LinkDeleteAt` | database/linkeddb/linkeddb.go:140-204 | the list closes up around a deleted key, in order |
| `AtomicState.IndexExactInEveryRun` | chains/atomic/state.go:77-175 | in every reachable store a key is listed under a trait exactly if its entry is present and carries it, and once |
| `VersionedState.LayeredExecRefines` | database/versiondb/db.go:56-105 | a put or remove through the uncommitted layer is the same operation on the store the layer shows, with the same error |
| `VersionedState.ViewValueWrites` | database/versiondb/db.go:69-105 | what a read through the layer shows after a write or a delete in it |
| `SharedMemory.WrittenIsRead` | chains/atomic/prefixes.go:14-65 | what a chain writes for a peer is what the peer reads from it, and apart from the way back, exactly if the chains differ |
| `SharedMemory.ChannelsAreSeparate` | chains/atomic/memory.go:104-115 | two ordered pairs of chains never write to the same place (hash taken as injective) |
| `SharedMemory.SharedIDsDiffer` | chains/atomic/memory.go:104-115 | one chain has a different shared ID with every peer |
| `SharedMemory.RequestsOnHalves` | chains/atomic/shared_memory.go:140-153 | requests to a peer succeed exactly if the removes do on what came in from it and the puts on what goes out to it, and each half then holds what its own operations leave |
| `SharedMemory.WorkSucceedsIff` | chains/atomic/shared_memory.go:116-154 | the work of a call succeeds exactly if the requests to every peer do |
| `SharedMemory.WorkDelivers` | chains/atomic/shared_memory.go:115-164 | and then every peer has what was put for it and lacks what was removed of it, and no other pair changes |
| `SharedMemory.PutIsReceived` | chains/atomic/shared_memory.go:65-164 | what one chain puts for another under a new key, the other finds, with its value and traits, among what the first sent it |
| `SharedMemory.RemovedIsConsumed` | chains/atomic/shared_memory.go:140-146 | what a chain removes of what another sent it is not found again |
| `SharedMemory.WrittenLast` | database/batch.go:82-93 | after a batch a key holds the value of its last put, or nothing if a delete came last |
| `SharedMemory.UnwrittenStays` | database/batch.go:82-93 | a key that the batch does not touch holds what it held |
| `SharedMemory.BatchOps.Put` | database/batch.go:55-62 | the put is appended and the size follows |
| `SharedMemory.BatchOps.Delete` | database/batch.go:64-71 | the delete is appended and the size follows |
| `SharedMemory.BatchOps.Replay` | database/batch.go:82-93 | the other batch ends with all operations of this one, in order |
| `SharedMemory.WriteReplayed` | chains/atomic/writer.go:10-22 | writing a batch with another replayed onto it is writing the two in turn |
| `SharedMemory.LayeredStep` | chains/atomic/shared_memory.go:137-153 | one more operation in a call's layer extends the run of operations the layer shows, or fails with its error |
| `SharedMemory.RunPairFailsForGood` | chains/atomic/shared_memory.go:141-153 | once an operation has failed, the outcome of a pair's operations is that error |
| `SharedMemory.FirstErrorUnique` | chains/atomic/shared_memory.go:128-154 | the error of the first failing pair is one error |
| `SharedMemory.WorkKeepsIndex` | chains/atomic/shared_memory.go:115-165 | an Apply keeps the trait index of both halves of every pair exact |
| `Apply.Memory.Get` | chains/atomic/shared_memory.go:65-83 | the stored values in order if every key is present in the inbound half, not-found otherwise |
| `Apply.Memory.Indexed` | chains/atomic/shared_memory.go:85-113 | a page of keys with its cursor and the stored value of every key, in order; a short page is every key from the start on; with an exact index no lookup fails |
| `Apply.Memory.Apply` | chains/atomic/shared_memory.go:115-165 | all or nothing: the base becomes every pair's result and then the batches, or stays as it was with the error of the first failing pair in the order of the shared IDs; exact trait indices stay exact; no order among the requests matters; it succeeds exactly if every request does on its own half, and then is delivered |
| `Apply.CollectOperations` | chains/atomic/shared_memory.go:118-126 | the requests by shared ID, none lost and none invented, whatever the order of the map |
| `Apply.SortedOperations` | chains/atomic/shared_memory.go:116-127 | the shared IDs come strictly ascending, so a call takes no lock twice |
| `Apply.RunAll` | chains/atomic/shared_memory.go:129-154 | the loop over the pairs succeeds exactly if every pair's operations do, each on the unchanged base, and otherwise gives the error of the first failing pair |
| `Apply.RunRequests` | chains/atomic/shared_memory.go:137-153 | one pair's removes and then puts, through the versioned layer, are those operations on the pair's database |
| `Apply.ReplayedInOrder` | chains/atomic/writer.go:10-22 | the operations of a batch come after those of the batches before it and before those of the batches after it |
| `Apply.ReplayAll` | chains/atomic/writer.go:10-22 | all batches replayed in order |
| `LockTable.Memory.MakeLockFor` | chains/atomic/memory.go:71-82 | an entry is made or its count raised; the entry's mutex is returned |
| `LockTable.Memory.ReleaseLockFor` | chains/atomic/memory.go:88-101 | the count falls and the entry goes with its last reference; an unknown ID is the panic |
| `LockProtocol.StepKeepsInv` | chains/atomic/memory.go:53-101 | every step keeps: holders and waiters are linked to the entry of their pair, counts are references, a locked mutex has one owner |
| `LockProtocol.MutualExclusion` | chains/atomic/memory.go:53-101 | in every interleaving at most one caller is between acquiring a pair and its releaseLock, although entries are dropped and made anew |
| `LockProtocol.CountIsReferences` | chains/atomic/memory.go:71-101 | in every interleaving the count of an entry is the number of callers holding or waiting for it |
| `LockProtocol.ReleaseReturnsOwnLock` | chains/atomic/memory.go:64-67 | releaseLock finds the entry, and the mutex it returns is the one this caller locked |
| `LockProtocol.NoDeadlock` | chains/atomic/shared_memory.go:127-136 | while a caller is not done, some caller can step, because pairs are taken in ascending order |
| `LockProtocol.EveryCallFinishes` | chains/atomic/shared_memory.go:127-136 | under every scheduler a run is bounded, and one that cannot go on has every caller done |
| `ConcurrentCalls.StepKeepsInv` | chains/atomic/shared_memory.go:115-165 | every step keeps each pending call's layers true to the current base and the past serial |
| `ConcurrentCalls.CommitIsSerial` | chains/atomic/shared_memory.go:156-164 | what a call commits is what it would compute alone on the base it commits to |
| `ConcurrentCalls.CommitElsewhere` | chains/atomic/shared_memory.go:132-164 | a commit writes no pair that another call has locked |
| `ConcurrentCalls.ConcurrentRunsAreSerial` | chains/atomic/shared_memory.go:65-165 | in every interleaving of Apply, Get and Indexed the base and every result, the error of a failed Apply included, are those of the calls run one after another in the order they took effect |
| `ConcurrentCalls.OperateFails` | chains/atomic/shared_memory.go:141-153 | the error with which a concurrent Apply stops is the one it would get alone: that of the first failing pair |
| `ConcurrentCalls.OrderGrows` | chains/atomic/shared_memory.go:65-165 | the serial order is only appended to |
| `ConcurrentCalls.RealTimeOrder` | chains/atomic/shared_memory.go:65-165 | it respects real time: a call that has taken effect at some moment comes before every call that has not |
| `ConcurrentCalls.IndexExactThroughout` | chains/atomic/state.go:77-175 | in every state of every interleaving each trait index lists exactly the present elements carrying the trait |
| `ConcurrentCalls.GetIsAtomic` | chains/atomic/shared_memory.go:65-83 | a Get among any other calls gives the values its half held at its place in the serial order |
| `ConcurrentCalls.ReadsAreOfOneMoment` | chains/atomic/shared_memory.go:65-113 | all reads of a call, entries and lists, show its half as it was at that one moment |
| `ConcurrentCalls.ApplyIsAtomic` | chains/atomic/shared_memory.go:115-165 | an Apply among any other calls commits exactly if its requests succeed at its place in the serial order, and is delivered there as a whole |
| `ConcurrentCalls.NoCallIsStuck` | chains/atomic/shared_memory.go:65-165 | while a call is unfinished some call can step |
| `ConcurrentCalls.EveryCallFinishes` | chains/atomic/shared_memory.go:65-165 | under every scheduler a run of whole calls, reads and writes included, is bounded, and one that cannot go on has every call done with its result |
| `Paging.AppendTraitKeys` | chains/atomic/state.go:239-266 | one list walked from the start key: unseen keys are added until the limit is used up |
| `Paging.WalkTraits` | chains/atomic/state.go:195-233 | the loop over the sorted traits ends with a page of the visits |
| `Paging.GetKeys` | chains/atomic/state.go:195-233 | the page is the first distinct keys met, up to the limit, with the last key of a full page as cursor; below the limit it is every key from the start on, and the cursor is the end of the last list |
| `Paging.StartFor` | chains/atomic/state.go:207-215 | which traits are skipped and where the walk of the others starts |
| `Paging.SortedTraits` | chains/atomic/state.go:206 | the traits sorted are the same traits in order |
| `Paging.PageIsSound` | chains/atomic/state.go:195-266 | a page has at most limit keys, none twice, only keys that were met, and all of them if it is short |
| `Paging.VisitedWhere` | chains/atomic/state.go:195-233 | a key is met exactly if it lies in the walked part of a requested trait's list |
| `Paging.StartedPage` | database/linkeddb/linkeddb.go:243-254 | with any start a page holds only keys that a requested trait, not below the start trait, lists at or after the start key - anywhere if that key is not listed - and below its limit all of them |
| `Paging.PageInOrder` | chains/atomic/state.go:195-266 | a page holds its keys in the order in which they are met; what is not on it comes after them |
| `Paging.PageKeysCarryTraits` | chains/atomic/state.go:195-266 | every key of a page possesses a requested trait |
| `Paging.UnstartedShortPage` | chains/atomic/state.go:195-266 | an unstarted short page is the union of the lists except for keys listed before an empty key: exactly those |
| `Paging.OneTraitComplete` | database/linkeddb/linkeddb.go:243-254 | an unstarted walk of a list misses nothing if and only if the empty key is not in it or is its head |
| `Paging.EmptyKeyHidesNewerKeys` | chains/atomic/state.go:195-266 | the failing family: with the empty key put first, any later key of the trait is present and on no unstarted page |
| `Paging.FullPageRestart` | chains/atomic/state.go:195-266 | a page and what a lookup restarted at its cursor meets are together what the lookup meets |
| `Paging.PagesCoverEverything` | chains/atomic/state.go:195-266 | reading page after page to a short one yields exactly the keys an unlimited lookup meets |
| `Paging.PagesEnd` | chains/atomic/state.go:195-266 | with a limit of two or more the pages come to an end |
| `Paging.OneKeyPagesRepeat` | chains/atomic/state.go:195-266 | with a limit of one the next page is the same page |
| `PeerNetwork.StepKeepsInv` | network/network.go:410-1324 | every step keeps the joint invariant and finds the entries it reads; Disconnected is three steps |
| `PeerNetwork.RunKeepsInv` | network/network.go:410-1324 | in every reachable state connecting and connected are disjoint, connected nodes are untracked and have an entry, and every entry is of a connected or tracked node |
| `PeerNetwork.NoMissingEntry` | network/network.go:651-723 | in every reachable state no call the peers may make dereferences a missing entry, the windows inside Disconnected included |
| `PeerNetwork.DisconnectEndAt` | network/network.go:956-998 | after the window the peer is still where the read lock saw it, and the invariant holds again |
| `PeerNetwork.PeersReadFinds` | network/network.go:697-700 | the entry of a connected validator is there when it is gossiped |
| `PeerNetwork.StepFresher` | network/network.go:429-583 | no step makes an entry older; an entry goes away only if its node is unwanted or the network closes |
| `PeerNetwork.RunFresher` | network/network.go:429-583 | over any stretch of a run in which an entry exists its timestamp does not decrease |
| `PeerNetwork.OtherStepChange` | network/network.go:956-1101 | apart from Track a step keeps an entry, drops it for those reasons, or stores a newer claim of a finished handshake |
| `PeerNetwork.TrackOneChange` | network/network.go:503-583 | one gossiped claim leaves a node's entry and dial target alone or replaces the entry by a newer verified claim of that node |
| `PeerNetwork.TrackNeedsVouching` | network/network.go:503-583 | Track changes a node's entry or dial target only on an authenticated claim of that node in the call, and stores such a claim |
| `PeerNetwork.RunStoresSigned` | network/network.go:475-583 | in every run with signatures checked as the code checks them, every entry is a claim its own node signed |
| `PeerNetwork.TrackedAfreshIffManual` | network/network.go:563-583 | in every reachable state of an open network a node without an entry is tracked if and only if it was tracked by hand |
| `PeerNetwork.DialedAfreshUnlessManual` | network/network.go:563-583 | one half holds in a closing network too: a node that is tracked without an entry was tracked by hand |
| `PeerNetwork.ManualNodeIsDialedTwice` | network/network.go:563-583 | the comment that such a node is untracked fails after ManuallyTrack: a reachable state and a claim that meets it |
| `PeerNetwork.ClosedManualIsNotTracked` | network/network.go:1304-1324 | the other half fails once the network closes, because every dial target is dropped: a reachable state |
| `PeerLaws.TrackStores` | network/network.go:534-577 | over a whole list: every verified claim of a node that has an entry or is wanted is held at the end |
| `PeerLaws.EntryAfterTrack` | network/network.go:503-583 | a node has an entry afterwards exactly if it had one or is wanted and a verified claim of it came; the entry is the old one or such a claim, and none of those is newer |
| `PeerLaws.AnsweredWhen` | network/network.go:518-577 | a claim is answered exactly if one at least as new was held or came along, verified and of use, up to it |
| `PeerLaws.AcknowledgedIff` | network/network.go:585-606 | a transaction is acknowledged exactly if the peer is tracked, it registered a current validator and a claim under it is answered; with what was held when the last such claim was |
| `PeerLaws.AnswerIsAtLeast` | network/network.go:518-577 | if all claims under a transaction are of one node the acknowledged timestamp is at least that of each answered one |
| `PeerLaws.AnswerCanBeLess` | network/network.go:518-577 | otherwise it can be less: the last claim under a transaction decides, whatever its node |
| `PeerLaws.KnowsAfterTrack` | network/network.go:503-593 | a peer knows of a validator afterwards exactly if it sent the list and offered what was then held under the own transaction of the validator, or knew of it and no claim of the list changed the address |
| `PeerLaws.DialedAfterTrack` | network/network.go:534-577 | a node is dialed anew exactly if it gets an entry; every dialed node whose entry is new or moved is dialed where its entry says |
| `PeerLaws.ConnectedStores` | network/network.go:410-454 | a finished handshake leaves the newer claim, moves the node to the connected ones and stops dialing it; peers forget it exactly if it has moved |
| `PeerLaws.KnowsAfterMarked` | network/network.go:609-644 | a peer comes to know of exactly the validators it acknowledges, under their own transaction, with a claim at least as new as the one held |
| `PeerLaws.DisconnectSettles` | network/network.go:956-998 | a peer that has left is neither connecting nor connected; if wanted it keeps its entry and, if it was connected, is dialed there; if not, entry and target are gone |
| `PeerLaws.DialDrops` | network/network.go:1082-1101 | an attempt drops the node exactly if it is tracked and not wanted |
| `PeerLaws.UpgradeTakes` | network/network.go:1226-1290 | a connection is taken up exactly if the network is open and there is none; its peer then knows of nobody |
| `PeerLaws.ManuallyTracks` | network/network.go:814-834 | a node tracked by hand is connected or dialed, and keeps a dial target it had |
| `PeerLaws.ClosingDrops` | network/network.go:1304-1324 | closing drops exactly the nodes that are dialed |
| `PeerLaws.ValidatorsChange` | network/peer/gossip_tracker_callback.go:26-52 | a validator keeps its transaction; one that goes is forgotten by every peer |
| `NetworkObject.Network.constructor` | network/network.go:183-307 | an empty network with an empty tracker, in which the invariant holds |
| `NetworkObject.Network.Connected` | network/network.go:410-454 | the fields after a finished handshake; the invariant is kept |
| `NetworkObject.Network.AuthenticateIPs` | network/network.go:1007-1038 | a claim is verified exactly if it would be used and its signature checks; the call fails exactly if one to be used does not check |
| `NetworkObject.Network.UsefulIff` | network/network.go:1041-1046 | a signature is checked exactly where it makes a difference to what is stored |
| `NetworkObject.Network.Track` | network/network.go:475-607 | fields and acknowledgements after a gossiped list, through the tracker; the invariant is kept |
| `NetworkObject.Network.TrackClaim` | network/network.go:503-583 | the five cases for one claim |
| `NetworkObject.Network.MarkTracked` | network/network.go:609-644 | which acknowledged validators the peer comes to know of; nothing changes if a transaction ID does not parse; the invariant is kept |
| `NetworkObject.Network.AddKnown` | network/network.go:585-592 | what the peer comes to know of is what the tracker's bits then say; exactly the registered of the others are returned |
| `NetworkObject.Network.ResetValidator` | network/network.go:429-445 | clearing one position in every bit set makes every peer forget the validator |
| `NetworkObject.Network.DisconnectBegin` | network/network.go:651-657 | the gossip tracker lets go of the peer; the invariant is kept |
| `NetworkObject.Network.DisconnectRead` | network/network.go:659-662 | what the read lock shows; the invariant is kept |
| `NetworkObject.Network.DisconnectEnd` | network/network.go:664-670 | the helpers, from what was read, in any later state; the entry read is there and the invariant is kept |
| `NetworkObject.Network.DisconnectedFromConnecting` | network/network.go:956-977 | the fields after an unfinished handshake ends |
| `NetworkObject.Network.DisconnectedFromConnected` | network/network.go:979-998 | the fields after a connection ends; the entry read is there |
| `NetworkObject.Network.Peers` | network/network.go:672-723 | at most the limit of the connected validators the peer does not know of, each once with the claim held, and all of them if they fit, however the sampler orders them |
| `NetworkObject.Network.ManuallyTrack` | network/network.go:814-834 | the fields after a node is tracked by hand; the invariant is kept |
| `NetworkObject.Network.Dial` | network/network.go:1082-1101 | an unwanted tracked node is dropped; the invariant is kept |
| `NetworkObject.Network.Upgrade` | network/network.go:1226-1290 | a new connection is taken up at most once per node and not while closing; the invariant is kept |
| `NetworkObject.Network.StartClose` | network/network.go:1304-1324 | every tracked node is dropped with its entry, in whatever order; the invariant is kept |
| `NetworkObject.Network.OnValidatorAdded` | network/peer/gossip_tracker_callback.go:26-42 | a new validator can be gossiped about, and validator set and tracker agree; the invariant is kept |
| `NetworkObject.Network.OnValidatorRemoved` | network/peer/gossip_tracker_callback.go:46-52 | a validator is gone, every peer forgets it, and validator set and tracker agree; the invariant is kept |
| `GossipNetwork.GossipArrives` | network/network.go:475-607 | a claim gossiped, checked and of use is held by the receiver and acknowledged with at least its timestamp |
| `GossipNetwork.GossipIsConfirmed` | network/network.go:609-644 | and once the answer is back, unless something newer is held by then, the sender takes the receiver to know of the validator |
| `GossipNetwork.MarkedIsHeld` | network/network.go:609-644 | with any delays, whenever A marks v as known to B because of an ack, B's claim for v when it sent the ack was at least as new as A's when marking |
| `GossipNetwork.AckWasSent` | network/network.go:585-607 | an ack of an honest node was sent by a Track of that node |
| `GossipNetwork.AckIsHeld` | network/network.go:585-607 | what an honest node acknowledges to an honest node it holds at that moment |
| `GossipNetwork.TrackAcksHeld` | network/network.go:503-607 | every timestamp Track answers is at most that of the claim held after it |
| `GossipNetwork.TrackUpToDate` | network/network.go:503-583 | a sender is taken for up to date only if its list offered what is held after it |
| `GossipNetwork.TrackKnows` | network/network.go:475-607 | Track keeps what peers know of unchanged addresses and adds, for the sender, only what the list offered |
| `GossipNetwork.LocalKnows` | network/network.go:410-1101 | no step without a message makes a peer know more, and an address known of stays |
| `GossipNetwork.KnownWasHeard` | network/network.go:475-723 | in every run of any number of nodes with dishonest ones among them: for honest A and B, A takes B to know of v only if B has held a claim of v no older than the one with which A took up its present address, unless A's closing dropped its entry for v |
| `GossipNetwork.OpenKnownWasHeard` | network/network.go:475-723 | in particular while A is not closing |
| `GossipNetwork.ClosingForgetsTheDropped` | network/network.go:1304-1324 | right after closing, A still takes B to know of v, and B has heard in that sense if and only if A did not drop its entry for v |
| `GossipClosing.ClosingCanForget` | network/network.go:1304-1324 | a run from empty networks in which that exception is reached |
| `GossipTracker.FillingForgetsOne` | network/peer/gossip_tracker.go:211-238 | filling a removed position with the last validator, in array and bits, makes a peer forget the removed one and no other |
| `GossipTracker.FillingKeepsIndexed` | network/peer/gossip_tracker.go:206-224 | the maps and the array still describe the same validators, without the removed one |
| `GossipTracker.Tracker.StartTrackingPeer` | network/peer/gossip_tracker.go:131-148 | a new peer knows of nobody; others are untouched |
| `GossipTracker.Tracker.StopTrackingPeer` | network/peer/gossip_tracker.go:150-164 | the peer is gone; others are untouched |
| `GossipTracker.Tracker.AddValidator` | network/peer/gossip_tracker.go:166-188 | added exactly if neither node nor transaction is there; nobody knows of it |
| `GossipTracker.Tracker.GetNodeID` | network/peer/gossip_tracker.go:190-196 | the validator that the transaction registered, if there is one |
| `GossipTracker.Tracker.RemoveValidator` | network/peer/gossip_tracker.go:198-243 | the validator goes, every peer forgets it and nothing else, and every bit still means its validator |
| `GossipTracker.Tracker.ResetValidator` | network/peer/gossip_tracker.go:245-260 | every peer forgets the validator and nothing else |
| `GossipTracker.Tracker.AddKnown` | network/peer/gossip_tracker.go:266-300 | the peer comes to know of exactly the registered validators given; the registered others are returned |
| `GossipTracker.Tracker.GetUnknown` | network/peer/gossip_tracker.go:302-323 | exactly the validators the peer does not know of, each once |
| `GenesisSplit.SplitAllocations` | genesis/genesis.go:481-542 | no arithmetic leaves 64 bits, the coins of the buckets are the input's in order, one bucket per validator unless there is nothing to split, each holding its share |
| `GenesisSplit.ShareWeights` | genesis/genesis.go:489 | the first shares weigh total over count, the last the remainder more |
| `GenesisSplit.OwnersKeepEverything` | genesis/genesis.go:481-542 | every owner gets, for every locktime, exactly what the input gives |
| `GenesisSplit.CutUnlock` | genesis/genesis.go:501-536 | one entry is cut at every full bucket on the way; no subtraction underflows |
| `GenesisSplit.CutAllocation` | genesis/genesis.go:494-540 | one allocation's schedule is cut in order |
| `GenesisSplit.TotalAmount` | genesis/genesis.go:482-487 | the sum of all amounts, in 64 bits |
| `GenesisBuild.InitialSupply` | genesis/config.go:138-154 | the sum of everything promised, an error exactly if it does not fit in 64 bits |
| `GenesisBuild.AChain` | genesis/genesis.go:295-314 | exactly those promised something on the A-chain hold it, each their own amount, in order of amount and then address; the running amount wraps |
| `GenesisBuild.SortedPermutes` | genesis/genesis.go:300 | sorting keeps every allocation |
| `GenesisBuild.SortedIsOrdered` | genesis/config.go:56-59 | and puts them in the order of amount, then address |
| `GenesisBuild.StakedInOrder` | genesis/genesis.go:361-365 | exactly the allocations of staked addresses are set aside, in order, and the others kept in order |
| `GenesisBuild.StakedOrUnstaked` | genesis/genesis.go:361-387 | every allocation is on one side, once |
| `GenesisBuild.UnstakedOutputs` | genesis/genesis.go:361-387 | the outputs of the allocations that are not staked, in order; the staked ones set aside |
| `GenesisBuild.Stake` | genesis/genesis.go:389-421 | each validator's outputs are its share; a panic exactly without validators or with several and nothing to stake |
| `GenesisBuild.Weigh` | vms/omegavm/api/static_service.go:246-279 | a validator weighs what its staked outputs are worth, an error exactly if that does not fit in 64 bits |
| `GenesisBuild.OmegaGenesis` | vms/omegavm/api/static_service.go:203-283 | an output of nothing is refused first, then the first validator without weight or with one that does not fit; otherwise nothing is refused |
| `GenesisBuild.SharesWeigh` | vms/omegavm/api/static_service.go:281-283 | with the shares that the split gives, every validator has a weight exactly if there are as many coins as validators |
| `GenesisBuild.FromConfig` | genesis/genesis.go:275-471 | fails exactly if the supply overflows, panics exactly on unsplittable configurations, is refused exactly if fewer coins are staked than there are validators and only for a validator without weight; otherwise every promise is kept: A-chain holders, unstaked and staked coins are those of the configuration and add up to the supply |
| `GenesisBuild.ValidatedCanFail` | genesis/genesis.go:118-181 | one staked allocation that unlocks fewer coins than there are stakers passes validation and is never built: one staker with nothing is refused, several with nothing panic, and with a coin or more it is a refusal |
| `Router.ForceCloses` | api/server/router.go:81-110 | whatever the recursion adds an endpoint to has it on all its aliases, even in a cycle |
| `Router.ForceSame` | api/server/router.go:81-110 | without an error also by the same handler |
| `Router.Router.GetHandler` | api/server/router.go:49-62 | the handler of the route, if there is one |
| `Router.Router.ForceAddRouter` | api/server/router.go:81-110 | the recursion ends, touches one endpoint only and does to it what the specification says |
| `Router.Router.AddRouter` | api/server/router.go:64-79 | refused without change for a reserved name |
| `Router.Router.AddAlias` | api/server/router.go:112-141 | refused without change if an alias is taken; otherwise every endpoint of the base goes to the aliases, in any order of the endpoints |
| `Router.AliasesServeEverything` | api/server/router.go:64-141 | after any calls, failing ones included, every endpoint of a name is on each of its aliases |
| `Router.ReachableServes` | api/server/router.go:64-141 | and on everything reached through aliases of aliases |
| `Router.AliasesServeAlike` | api/server/router.go:64-141 | if no call met a route that was there already, by the identical handler |
| `Router.AliasesAreReserved` | api/server/router.go:112-126 | exactly the aliases are reserved, and an alias belongs to one name |
| `RouterErrors.AddRouterOkIff` | api/server/router.go:64-110 | in every reachable state, on a name that is not reserved, it succeeds if and only if nothing reached from the name through aliases serves the endpoint and no alias list on the way repeats a name |
| `RouterErrors.AddAliasOkIff` | api/server/router.go:112-141 | unless an alias is reserved, it succeeds if and only if, for every endpoint of the base, nothing reached from the new aliases serves it and no list repeats a name |
| `Router.SameAfterAliasIff` | api/server/router.go:112-141 | failing or not, base and aliases afterwards serve an endpoint by one handler if and only if every new alias that served it before did so by the handler of the base |
| `Router.AliasSparesOthers` | api/server/router.go:112-141 | an endpoint that the base does not serve is left as it was |
| `RouterErrors.AddRouterServes` | api/server/router.go:64-110 | an endpoint is served afterwards by exactly those that served it, and the name with everything it reaches through aliases |
| `RouterErrors.AddAliasServes` | api/server/router.go:112-141 | an endpoint of the base is served afterwards by exactly those that served it, and the new aliases with everything they reach |
| `Router.TakenAliasIsError` | api/server/router.go:112-141 | in particular an alias that serves an endpoint of the base already, as when a cycle is closed, is an error but is reserved and keeps its handler |
| `PackedNumbers.RoundTrip` | database/helpers.go:62-73 | parsing a packed number gives the number |
| `PackedNumbers.RoundTripBytes` | database/helpers.go:62-73 | packing a parsed number gives the bytes |
| `PackedNumbers.PackedInOrder` | database/helpers.go:62-66 | the bytes are ordered as the numbers are, most significant first |
| `AcceptedIndex.LogIsUnique` | indexer/index.go:130-180 | a database stands for one log at most |
| `AcceptedIndex.LogIsDistinct` | indexer/index.go:130-180 | no container is in the log twice |
| `AcceptedIndex.AppendExtendsLog` | indexer/index.go:153-176 | the three writes append to the log: the maps stay inverse to each other on its positions |
| `AcceptedIndex.LoggedOnce` | indexer/index.go:130-180 | after an accept the container is in the log, what was there stays in place and at most this one comes in |
| `AcceptedIndex.OpenRecoversLog` | indexer/index.go:76-113 | reopening shows the persisted log |
| `AcceptedIndex.RunIsLog` | indexer/index.go:76-180 | through any accepts, failed commits, crashes, restarts and re-deliveries the databases stand for the logs computed from the events alone |
| `AcceptedIndex.SavedLogOnlyGrows` | indexer/index.go:130-180 | the persisted log is only appended to |
| `AcceptedIndex.Index.constructor` | indexer/index.go:76-113 | the index on what was persisted |
| `AcceptedIndex.Index.Accept` | indexer/index.go:130-180 | appended unless there, persisted exactly if the commit goes through |
| `AcceptedIndex.Index.GetContainerByIndex` | indexer/index.go:186-218 | the log entry at a position |
| `AcceptedIndex.Index.GetContainerRange` | indexer/index.go:224-256 | the slice of the log, at most 1024 long; exactly if start plus count passes 2^64 as many empty containers instead |
| `AcceptedIndex.Index.GetIndex` | indexer/index.go:259-264 | the position of a container |
| `AcceptedIndex.Index.GetContainerByID` | indexer/index.go:266-276 | the log entry with an ID |
| `AcceptedIndex.Index.GetLastAccepted` | indexer/index.go:280-299 | the last log entry |
| `Indexer.ServedIndexHasNoGap` | indexer/indexer.go:81-264 | over any runs with any settings, faults and crashes anywhere, a chain indexed while incomplete indices are disallowed has an index that is a prefix of its decided order, at most one ahead of its VM, if and only if its VM never went on, after the indexer had closed, to commit a container its index lacked |
| `Indexer.GaplessIffNothingSlipped` | indexer/index.go:130-180 | in every run, for every chain, the index has no gap if and only if the VM never committed a container the index lacked |
| `Indexer.GapIsServed` | indexer/indexer.go:152-408 | a run that serves a gap: the registration of another chain fails and closes the indexer, the chain commits, and the next run serves its index |
| `Indexer.MarkedIffMissed` | indexer/indexer.go:208-238 | a chain is marked incomplete exactly if an open indexer with indexing off let it run |
| `Indexer.RefusedIffMissed` | indexer/indexer.go:240-250 | with indexing on and gaps disallowed a registration shuts the node down exactly if an open indexer with indexing off let the chain run before |
| `Indexer.IndexedIffTook` | indexer/indexer.go:252-262 | a chain is recorded as indexed exactly if an open indexer with indexing on took it |
| `Indexer.ShutDownIffTook` | indexer/indexer.go:208-238 | with indexing off and gaps disallowed a registration shuts the node down exactly if the chain was ever taken, and then writes nothing |
| `Indexer.IndexStaysUnmarked` | indexer/indexer.go:208-238 | while gaps are disallowed an index without a mark gets none |
| `Indexer.BootedWith` | indexer/indexer.go:81-110 | the indexer of a run knows whether there was an earlier run, and keeps its settings |
| `Indexer.ClosesIff` | indexer/indexer.go:152-327 | a registration closes the indexer exactly if something on its way fails or a gap would be served or made |
| `Indexer.OpenAfter` | indexer/indexer.go:152-327 | otherwise the chain has the indices of its kind, or is marked, and no other chain changes |
| `Indexer.AcceptKeepsGapless` | indexer/index.go:130-180 | the next container extends a gapless index that lacks it and is the last of one that has it |
| `Indexer.IndexAccepts` | indexer/index.go:130-180 | the index used here is the one proved above, on container IDs |
| `Indexer.IndexerObject.constructor` | indexer/indexer.go:81-110 | a run starts knowing whether there was one before, and marks that there is |
| `Indexer.IndexerObject.RegisterChain` | indexer/indexer.go:152-327 | flags, indices and shutdown after a registration, for every point at which it can fail |
| `IdBits.EqualSubsetIsAgreement` | ids/bits.go:21-62 | EqualSubset holds exactly if every bit of the stretch is the same in both IDs |
| `IdBits.FirstDifferenceSubset` | ids/bits.go:67-128 | the least differing bit of the stretch, exactly if there is one |
| `IdBits.Complementary` | ids/bits.go:21-128 | the two are complementary unless the stretch reaches past the end, where both say no |
| `IdBits.MaskBits` | ids/bits.go:41-42 | which bits the two masks hold |
| `IdBits.LowestDifferenceIs` | ids/bits.go:94-95 | the trailing zeros of the masked difference are the lowest masked bit in which two bytes differ |
| `HealthGauges.RegisterAccurateIffSound` | api/health/worker.go:73-121 | from right gauges, registering leaves them right exactly if an ordinary check repeats no tag and an application check brings no new tag while one is failing |
| `HealthGauges.RunCheckKeepsInv` | api/health/worker.go:216-265 | a check result keeps every gauge right |
| `HealthGauges.RegisterIff` | api/health/worker.go:73-121 | which error comes first; a registered check has its tags and fails until it has run; no other check changes |
| `HealthGauges.ResultIsLast` | api/health/worker.go:216-265 | a result is what the check last said, and of no other check |
| `HealthGauges.GaugesStayRight` | api/health/worker.go:73-309 | through sound registrations, refused ones and results, each tag's gauge is the number of failing checks reported for it |
| `HealthGauges.RightThroughoutIffSound` | api/health/worker.go:73-309 | in a run with any registrations and results every gauge has been right all along exactly if no accepted registration was unsound |
| `HealthGauges.UnsoundRun` | api/health/worker.go:272-309 | a run that goes wrong: a second application check brings a tag of its own, the first one passes, and the tag shows zero while a check fails for it |
| `HealthGauges.ZeroIffHealthy` | api/health/worker.go:139-309 | after sound registrations a registered tag's gauge is zero exactly if Results says healthy |
| `HealthGauges.RepeatedTagOvercounts` | api/health/worker.go:289-301 | a repeated tag makes its gauge wrong |
| `HealthGauges.HealthWorker.RegisterCheck` | api/health/worker.go:73-121 | the state after a registration, or the error and no change |
| `HealthGauges.HealthWorker.UpdateGauges` | api/health/worker.go:272-309 | gauges and failing count after a change, in any order of the tags |
| `HealthGauges.HealthWorker.RunOne` | api/health/worker.go:233-264 | the state after a check result |
| `HealthGauges.HealthWorker.Results` | api/health/worker.go:139-166 | exactly the checks under the tags or the application tag, and healthy exactly if none fails |

## Left out

- Sockets, TLS, dialing, timers, message bytes, codecs and signature schemes: which claims verify, which commits and writes go through and which checks fail are parameters.
- The hashes behind shared IDs and the set of seen keys are taken as injective; prefixed databases are taken as separate maps.
- The node layout of `linkeddb`: a trait's list is a sequence without repetition, and `NewIteratorWithStart` is modelled from `database/linkeddb/linkeddb.go`.
- Apply.Memory.Apply: runs alone, as do `Get` and `Indexed`; what they do among other callers is `ConcurrentCalls`, where they are sequences of steps.
- NetworkObject.Network.AuthenticateIPs: judges all claims at one moment; in `PeerNetwork` the verified flags of a `Track` may stem from any earlier moments.
- NetworkObject.Network.Peers: reads all validators at one moment; in `GossipNetwork` every read is a step of its own.
- GossipNetwork.KnownWasHeard: takes transaction IDs to determine their validator.
- Sending, sampling of peers, uptime, throttling and network health.
- GenesisSplit.SplitAllocations: for a total below 2^64, which `FromConfig` has checked before it splits.
- GenesisBuild.FromConfig: address formatting, staking times with the refusal of a validator that has already exited, and the genesis bytes are left out.
- GenesisBuild.OmegaGenesis: weighs and checks the outputs; addresses, messages, end times and the chains are left out.
- URLs in the router are pairs of name and endpoint; two pairs that concatenate to the same text are not considered, nor is the HTTP router underneath.
- AcceptedIndex.Index.Accept: fewer than 2^64 - 1 containers; containers are stored as values, not as marshalled bytes.
- Indexer.ServedIndexHasNoGap: assumes that a chain accepts only after its registration returned, that a VM commits after its index has taken the container, that an index error halts its chain (`snow/acceptor.go:83`), and that a chain's containers are decided in one order; it follows the block index, the other two being made by the same code.
- IdBits.EqualSubsetIsAgreement: for a start that is not negative, bits being counted from zero.
- IdBits.FirstDifferenceSubset: for a start that is not negative.
- IdBits.Complementary: for a start that is not negative.
- HealthGauges.HealthWorker.RunOne: details, durations and the count of contiguous failures are left out.
- `cache/`, `config/`, `node/`, `app/`, `chains/manager.go`, `nat/`, `ipcs/`, `pubsub/`, `trace/`, `staking/`, `message/`, `version/`, `subnets/` and the API clients and services: wiring, I/O or easy members.
