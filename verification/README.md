# Verification of the metadata and storage core

This project models the stateful core of the repository and proves what it promises:

- **pgxsim**: optimistic transactions over a versioned map (`Pgxsim`, `Serializability`).
- **etcdsim**: a revisioned key-value store with guarded transactions and bounded, lossy watch channels (`Etcdsim`,
  `EtcdRuns`).
- **the metadata service**: concurrent put, delete and get calls that retry optimistic transactions and then mirror the
  result to etcd (`MetadataProtocol`, `MetadataTheorems`, `MetadataMirror`, `MetadataService`, `ListPaging`).
- **the consistent-hash ring**: sorted tokens, in-place removal, wrap-around lookup (`RingOrder`, `HashRing`).
- **the ring manager, the watch pipeline and the rebalancer**: a ring and an assignment table rebuilt from the node set,
  persisted in etcd, watched, and turned into plans (`Assignments`, `RingManager`, `WatchPipeline`, `WatcherCurrency`,
  `Rebalance`).
- **the storage service**: fork-join replication of an upload and the download that reads it back (`Replication`,
  `Streams`, `Fanout`, `StorageService`).

Objects that the program mutates are classes whose methods have the program's branches and loops. Each method is proved
against a function of the old state, and the theorems are about those functions. Concurrency is a step relation: `Exec`
runs an arbitrary sequence of actions, one locked region per action, an action that is not enabled changes nothing, and
every theorem about `Exec` is therefore a theorem about every interleaving. Where code outside the lock can act in the
middle of a locked region, the region is split: an etcd transaction sends to one watcher at a time, and receives may fall
between its sends. History variables (logs, committed histories, what a watcher received) are fields of the worlds and
are never read by the modelled steps.

`Prelude` holds Option, Result, string order and labels; `Sorting` holds a sort that promises no more than "sorted and a
permutation", because the program's sort is unstable.

## Findings

- Transactions over several keys are serializable in commit order exactly when no transaction commits after an answer
  it got has gone out of date (`SerializableIff`). Comparing versions guarantees that only under three conditions:
  stored versions are at least 1, a (key, version) pair never names two records, and a repeated read of a key finds the
  version recorded before. Dropping any one of them and keeping the others admits a concrete counterexample
  (`ReusedVersionBreaksSerializability`, `ZeroVersionBreaksSerializability`, `RefetchBreaksSerializability`). The metadata service does reuse versions after
  a delete; it is linearizable nevertheless, because its transactions branch on presence and version alone.
- A walk through ListMetadata pages never returns a key twice, but it is complete only when the first page already holds
  everything: the next token names the first row left out, and the next page starts strictly above it
  (`WalkCompleteIff`, `WalkSkipsARow`).
- An etcd transaction is not all-or-nothing: it fails and yet changes the store exactly when, in the branch that the
  guards choose, an operation that changes something comes before the first unsupported one (`FailsWithEffectIff`,
  `FailedPutStays`). No watcher is told, and the registered watchers of the touched keys lose their complete report for
  good (`FailedCommitGoesUnreported`).
- An upload that fails leaves the files as they were exactly when its stream was malformed or the locator already held
  that payload; with a ring on which this node is no target, every well-formed upload fails and leaves its payload on
  disk (`UploadSegment`, `RefusedUploadStays`).
- The results of an upload do not depend on the order in which its goroutines finish, whatever they return, exactly when
  no target other than this node has the S3 object's name as its ID (`OrderNeverMattersIff`). With such a target, a
  failed S3 copy makes the upload fail or not depending on who finishes last (`ClashWitness`).
- A watching manager shows the writer's state exactly when the ring was not written since the manager's bootstrap or it
  has processed the newest write (`WatcherCurrentIff`). So once it has looked at all it was sent, it is behind exactly
  when the newest write fell between its bootstrap and its subscription (`StaleWatcher`) or was dropped at its full
  buffer (`LossyWatcher`); it stays behind until the next write that reaches it (`CaughtUpWatcher`).

## Model

| member | source | states |
|---|---|---|
| Pgxsim.Store.BeginTx | internal/metadata/pgxsim/pgxsim.go:70-82 | A transaction starts empty and open on this store; any isolation but serializable is refused. |
| Pgxsim.Tx.Get | internal/metadata/pgxsim/pgxsim.go:106-124 | A read sees the transaction's own write or delete first; only a read that reaches the store records a version, 0 standing for absence. |
| Pgxsim.Tx.Put | internal/metadata/pgxsim/pgxsim.go:127-136 | A buffered write replaces an earlier delete of the key; a read-only transaction refuses and keeps its state. |
| Pgxsim.Tx.Delete | internal/metadata/pgxsim/pgxsim.go:139-148 | A buffered delete replaces an earlier write of the key; a read-only transaction refuses and keeps its state. |
| Pgxsim.Tx.Commit | internal/metadata/pgxsim/pgxsim.go:171-201 | All-or-nothing: closed and stale transactions leave the store alone, a valid one installs its deletes and writes, whatever order its maps are walked in. |
| Pgxsim.Tx.Rollback | internal/metadata/pgxsim/pgxsim.go:204-212 | Only an open transaction is rolled back. |
| Pgxsim.Tx.List | internal/metadata/pgxsim/pgxsim.go:151-168 | The first `limit` rows of the sorted prefix listing; every matching row is recorded as read, also those cut off. |
| Pgxsim.SortedListing | internal/metadata/pgxsim/pgxsim.go:154-163 | Sorting the matching rows, gathered in any order, gives the strictly ascending listing; rows need only sit under their own keys. |
| Pgxsim.ListingUnique | internal/metadata/pgxsim/pgxsim.go:151-168 | A store and a prefix have one listing only. |
| Prelude.LexLessMeans | internal/metadata/pgxsim/pgxsim.go:163 | Keys are ordered by their first differing character, a proper prefix first. |
| Serializability.SerializableIff | internal/metadata/pgxsim/pgxsim.go:106-201 | Running the committed transactions one after another in commit order gives the same reads and the same store iff none of them committed with an outdated answer. |
| Serializability.PlainlySerializableIff | internal/metadata/pgxsim/pgxsim.go:106-201 | The committed transactions, carried out one after another directly on the store, access by access and without any buffering, read the same and leave the same store iff none committed with an outdated answer. |
| Serializability.RepeatIsPlain | internal/metadata/pgxsim/pgxsim.go:106-148 | A transaction alone on a store reads its own writes and deletes over the store's, and its commit leaves what carrying its accesses out at once would. |
| Serializability.NeverStale | internal/metadata/pgxsim/pgxsim.go:179-192 | With positive versions that identify records and stable refetches, validation lets no transaction with an outdated answer commit. |
| Serializability.Serializable | internal/metadata/pgxsim/pgxsim.go:106-201 | Under the same hypotheses every run of any number of multi-key transactions is serializable in commit order, also against the reference without transactions. |
| Serializability.ReusedVersionBreaksSerializability | internal/metadata/pgxsim/pgxsim.go:179-192 | A reused (key, version) pair, with every other hypothesis in force, lets a run commit that no serial run in commit order explains. |
| Serializability.ZeroVersionBreaksSerializability | internal/metadata/pgxsim/pgxsim.go:179-186 | A stored version 0, with every other hypothesis in force, is taken for a missing row by validation. |
| Serializability.RefetchBreaksSerializability | internal/metadata/pgxsim/pgxsim.go:117-122 | A second read that finds another version, with every other hypothesis in force, replaces the recorded one, so the first answer is no longer protected. |
| Serializability.RunsStayKeyed | internal/metadata/pgxsim/pgxsim.go:127-201 | In every run the rows of the store and of every write buffer stay under their own keys, which is all a listing asks. |
| Etcdsim.Client.Commit | internal/metadata/etcdsim/etcdsim.go:128-189 | Guards are tried in order up to the first that decides; the chosen branch runs; each effective mutation takes the next revision; an unsupported operation stops it midway. |
| Etcdsim.GuardsMean | internal/metadata/etcdsim/etcdsim.go:132-155 | The guards pass iff every key has the asked mod-revision, 0 standing for absence; they cannot be evaluated iff the first one not to hold is of an unknown kind. |
| Etcdsim.CommitMeans | internal/metadata/etcdsim/etcdsim.go:157-189 | A transaction succeeds iff its guards can be evaluated and its chosen branch has only known operations; it reports whether the guards held, and leaves every key as the last operation on it says. |
| Etcdsim.FailsWithEffectIff | internal/metadata/etcdsim/etcdsim.go:157-182 | A transaction fails and yet changes the store iff the chosen branch holds an effective operation before the first unsupported one; then only revision and keys change, no channel. |
| Etcdsim.FailedPutStays | internal/metadata/etcdsim/etcdsim.go:166-182 | A put followed by an unsupported operation: the transaction fails and the put stays. |
| Etcdsim.Client.NotifyWatchers | internal/metadata/etcdsim/etcdsim.go:319-338 | Every event is offered to every matching watcher and dropped where the buffer is full; the result does not depend on map order, and no send meets a closed channel. |
| Etcdsim.NotifyOne | internal/metadata/etcdsim/etcdsim.go:319-338 | A channel ends up with what offering it the matching events one by one would give, independent of all other watchers. |
| Etcdsim.Client.Get | internal/metadata/etcdsim/etcdsim.go:217-241 | The pair stored under the key, if any, or with the prefix option every pair whose key has the prefix, each once; and the current revision. |
| Etcdsim.Client.Put | internal/metadata/etcdsim/etcdsim.go:245-249 | Always succeeds at the next revision. |
| Etcdsim.PutTxnCommits | internal/metadata/etcdsim/etcdsim.go:128-189 | An unguarded put raises the revision by one and stores the value at that revision, and nothing else changes in the key map. |
| Etcdsim.Client.Watch | internal/metadata/etcdsim/etcdsim.go:291-308 | A new ID, registered with its prefix and an empty open channel. |
| Etcdsim.Client.RemoveWatcher | internal/metadata/etcdsim/etcdsim.go:310-317 | Unregisters that watcher and no other, once or repeatedly. |
| Etcdsim.Client.CloseChannel | internal/metadata/etcdsim/etcdsim.go:301-305 | Only an unregistered watcher's channel is closed, and only once. |
| EtcdRuns.StoreIsReplay | internal/metadata/etcdsim/etcdsim.go:128-189 | In every run the revision counts the mutations, event i carries revision i, and the key map is the replay of the log. |
| EtcdRuns.ReplayAt | internal/metadata/etcdsim/etcdsim.go:167-178 | A replayed key has mod-revision r iff event r wrote it and nothing touched it since; it then has that event's value. |
| EtcdRuns.GuardMeansUntouched | internal/metadata/etcdsim/etcdsim.go:133-155 | A guard r other than 0 passes iff the key was written at r and not written or deleted since; a guard 0 passes iff the key is absent. |
| EtcdRuns.LiveRevisionsDistinct | internal/metadata/etcdsim/etcdsim.go:170-173 | No two live keys share a mod-revision. |
| EtcdRuns.OfferReports | internal/metadata/etcdsim/etcdsim.go:323-337 | One send: the next log entry is heard if it matches and there is room, missed for good if it matches and there is none. |
| EtcdRuns.FailedCommitGoesUnreported | internal/metadata/etcdsim/etcdsim.go:166-189 | In every run, a failed transaction reports nothing: a registered watcher's report stays complete iff it was and no operation applied before the failure touched a key of its prefix. |
| EtcdRuns.WatchersReportTheLog | internal/metadata/etcdsim/etcdsim.go:291-338 | In every run, with any cancellation timing and receives falling between the sends of a commit: no send on a closed channel, no double close, and consumed plus queued events are exactly the matching log entries of the watcher's window, in order, but for those dropped; so all of them iff nothing was dropped. |
| EtcdRuns.ResponsesCarryOne | internal/metadata/etcdsim/etcdsim.go:323-333 | In every run each queued or received response holds one event and a revision no older than the event's. |
| EtcdRuns.CancelledWatchEnds | internal/metadata/etcdsim/etcdsim.go:301-317 | From any point of any run a cancelled watch is unregistered and its channel closed, with what was queued still receivable. |
| EtcdRuns.CommitThenSends | internal/metadata/etcdsim/etcdsim.go:184-189 | If nobody receives meanwhile, the sends of a commit, watchers visited in any order, leave the client as the whole call does. |
| MetadataProtocol.CommitIsAtomic | internal/metadata/service.go:84-112 | A buffered transaction whose version check passes does to the store exactly what the indivisible operation does, even if the row it read was replaced by another of the same version. |
| MetadataProtocol.AtomicMeans | internal/metadata/service.go:89-106 | Each outcome of the indivisible operation is told by the request and the map before and after: stored fields and next version, exact deletion, found record, and when a key counts as missing or its version as mismatched. |
| MetadataProtocol.Invariant | internal/metadata/service.go:78-114 | In every run the store is the replay of the atomic operations in history order, and each call is in the history iff it has taken effect. |
| MetadataTheorems.Linearizable | internal/metadata/service.go:78-192 | In every interleaving of any number of puts, deletes and gets, each finished call took effect exactly once with the outcome it reports, and rejected or exhausted calls not at all; a get finds exactly the record of the last put of its key with no delete since, a put stores its request's fields at the next version, and missing and mismatch are reported exactly where that last put or delete says. |
| MetadataTheorems.StoreHoldsLastTouch | internal/metadata/service.go:78-192 | In every run the store holds under each key what the last put stored, or nothing if a delete came since or there was none. |
| MetadataTheorems.RealTimeOrder | internal/metadata/service.go:68-211 | A call that finished before another began takes effect before it. |
| MetadataTheorems.ReplayCountsPuts | internal/metadata/service.go:85-112 | On the atomic map a key's version is the number of puts since its last delete, and the key is present iff that number is positive. |
| MetadataTheorems.FailureCharged | internal/metadata/pgxsim/pgxsim.go:179-192 | A commit fails validation only if another call's commit moved the key since this attempt's tx.Get. |
| MetadataTheorems.VersionsCountPuts | internal/metadata/service.go:85-112 | The same of the real store in every interleaving. |
| MetadataTheorems.VersionReusedOnlyAfterDelete | internal/metadata/service.go:100-112 | Two puts of a key return the same version only if a delete of it committed between them. |
| MetadataTheorems.RetriesPaid | internal/metadata/service.go:252-268 | Every failed attempt of a call is charged to a commit of another call to its key between that attempt's own tx.Get and its Commit; the windows are disjoint, and a call gives up only after maxRetries of them. |
| MetadataTheorems.ChargesAdd | internal/metadata/service.go:252-268 | Disjoint windows with a foreign commit each mean at least as many foreign commits as windows. |
| MetadataTheorems.ExhaustedOnlyUnderContention | internal/metadata/service.go:252-268 | A call that has returned, with fewer than maxRetries foreign commits to its key between its invocation and that point of the run, did not report a serialization failure. |
| MetadataTheorems.CallsReturn | internal/metadata/service.go:252-268 | A call returns after at most 3 * maxRetries + 2 steps of its own, whatever the others do. |
| MetadataTheorems.RejectedIffNoKey | internal/metadata/service.go:69-75 | A call is rejected iff its key is empty. |
| MetadataMirror.MirrorEffect | internal/metadata/service.go:118-134 | The mirroring transaction writes or deletes one etcd key iff no revision was asked for or it matches; otherwise it changes no key. |
| MetadataMirror.EtcdHoldsCommittedRecords | internal/metadata/service.go:110-136 | Under any concurrency, every value in etcd encodes a record committed to the store for that key earlier. |
| MetadataMirror.SyncHolds | internal/metadata/service.go:110-136 | While writers of a key take turns, each key is in agreement or has exactly the pending mirror that will restore it. |
| MetadataMirror.EtcdFollowsStore | internal/metadata/service.go:187-210 | When writers of a key take turns and ask for no revision, etcd holds the store's record, or nothing iff the store has nothing, for every key with no writer in flight. |
| MetadataService.Service.constructor | internal/metadata/service.go:49-64 | Defaults: five retries, prefix "metadata/". |
| MetadataService.NewService | internal/metadata/service.go:39-65 | Fails iff the write pool or etcd is missing; a missing read pool is the write pool. |
| MetadataService.Service.PutOnce | internal/metadata/service.go:79-114 | One attempt is what the protocol's read, decision, buffering and commit give on the store as it was and as others left it. |
| MetadataService.Service.DeleteOnce | internal/metadata/service.go:168-191 | The same for one delete attempt. |
| MetadataService.AttemptIsSteps | internal/metadata/service.go:79-191 | The steps of the concurrent protocol are that attempt, whatever others do between its read and its commit. |
| MetadataService.AttemptIsAtomic | internal/metadata/service.go:79-191 | An attempt is refused without effect, or is the atomic operation on the store as others left it, or fails because some other commit touched the key in between. |
| MetadataService.Service.Retry | internal/metadata/service.go:252-268 | Whatever others commit between its steps, the loop ends as one atomic operation, or after maxRetries attempts with no effect and at least that many foreign touches of the key. |
| MetadataService.Service.Mutate | internal/metadata/service.go:68-211 | The whole of a put or delete call: argument check, retried transaction, other users of etcd, then the mirror, which runs only for a committed call, conflicts without effect iff the asked revision does not match, and otherwise reports the new revision. |
| MetadataService.Service.GetMetadata | internal/metadata/service.go:140-159 | The record under the key if there is one, missing if not; an empty key is rejected. |
| MetadataService.Service.ListMetadata | internal/metadata/service.go:214-250 | Stored rows of the prefix, strictly ascending, above the token, at most limit (100 by default); without a token nothing is left out but behind a full page, and the next token is the first key left out. |
| MetadataService.UntouchedStays | internal/metadata/pgxsim/pgxsim.go:194-199 | Commits that do not name a key leave its row alone. |
| ListPaging.PageSound | internal/metadata/service.go:226-249 | A page is strictly increasing, within the limit, above its token and below the next one. |
| ListPaging.FirstPage | internal/metadata/service.go:222-249 | Without a token the page is the smallest min(limit, n) rows, and a next token is set iff n > limit. |
| ListPaging.PageExactly | internal/metadata/service.go:226-244 | With a token the page holds, of the listing's first limit + 1 rows, those from the first above the token on, at most limit, and names the next one if any is left. |
| ListPaging.TokensRise | internal/metadata/service.go:239-243 | Tokens of a walk increase strictly under any limits and any store changes. |
| ListPaging.NoKeyTwice | internal/metadata/service.go:226-243 | No walk returns a key twice, under any limits and any store changes between pages. |
| ListPaging.WalkReturns | internal/metadata/service.go:226-249 | On an unchanging store, following tokens request by request returns what the walk as a whole returns. |
| ListPaging.WalkCompleteIff | internal/metadata/service.go:226-243 | On an unchanging store a walk returns every row iff the first page already does. |
| ListPaging.WalkSkipsARow | internal/metadata/service.go:226-243 | With three rows and limit 1 the second row is never returned. |
| HashRing.Ring.constructor | internal/chash/ring.go:22-27 | An empty ring; a count of virtual nodes that is not positive becomes 100. |
| HashRing.Ring.AddNode | internal/chash/ring.go:35-41 | The result is sorted; each token of the node occurs once more for every index below vnodes whose label hashes to it, and no other token's count changes. |
| HashRing.Ring.RemoveNode | internal/chash/ring.go:43-52 | In-place compaction drops exactly the node's tokens and keeps the others in order. |
| HashRing.Ring.Search | internal/chash/ring.go:60 | The index found splits the tokens into those before the hash and those at or after it. |
| HashRing.Ring.Lookup | internal/chash/ring.go:55-76 | Binary search, modular walk, early stop and seen-set name nodes of the ring, each once, as many as asked for or all there are, each the first not yet named from the first token at or after the hash on, around the end. |
| HashRing.Ring.Tokens | internal/chash/ring.go:79-83 | A copy of the ring's tokens in order. |
| RingOrder.ClockwiseSplit | internal/chash/ring.go:60-66 | Cutting sorted tokens at the hash and swapping the halves is the clockwise walk. |
| RingOrder.DedupFacts | internal/chash/ring.go:63-75 | Deduplication keeps every node met, once. |
| RingOrder.DedupOrder | internal/chash/ring.go:65-74 | Each entry of a deduplicated sequence is its first element not among the entries before. |
| Prelude.LabelSpells | internal/chash/ring.go:37 | A label is the node's ID, '#', and the index in decimal without leading zeros. |
| RingOrder.PreferenceWithout | internal/chash/ring.go:43-76 | Dropping a node's tokens from the ring is dropping the node from every preference order. |
| RingOrder.AddKeepsOthers | internal/chash/ring.go:35-41 | Re-sorting after an addition keeps the other nodes' tokens in their old order if they do not collide with one another. |
| RingOrder.AddDisturbsMinimally | internal/chash/ring.go:35-76 | After adding a node every lookup is the old one, or the old one with the new node inserted at one place and cut back. |
| RingOrder.RemoveDisturbsMinimally | internal/chash/ring.go:43-76 | Removing a node leaves every lookup without it alone; any other loses it and gains at its end the next node of the old order, if there is one. No assumption on hashes. |
| RingOrder.AddThenRemove | internal/chash/ring.go:35-52 | Adding a new node and removing it again restores the ring exactly. |
| RingOrder.LookupsNest | internal/chash/ring.go:55-76 | Lookups have no duplicates, and asking for one replica more only extends the answer. |
| RingOrder.LookupMeans | internal/chash/ring.go:55-76 | The first replicas entries of a preference order are the first new nodes along the walk from the split point. |
| RingOrder.SortedUnique | internal/chash/ring.go:40 | Tokens without cross-node collisions have one sorted order only. |
| HashRing.RunHoldsMembers | internal/chash/ring.go:35-52 | After any history of additions and removals the ring is sorted and holds exactly each current member's tokens. |
| HashRing.HistoryHolds | internal/chash/ring.go:35-52 | After any history the ring is sorted and holds, for each node whose last operation added it, one token per index at the hash of its label node#index, and nothing else. |
| HashRing.MembershipDeterminesRing | internal/chash/ring.go:35-52 | Without cross-node collisions two histories with the same members end in the same token sequence. |
| HashRing.SoleMember | internal/chash/ring.go:55-76 | On a ring with one member every lookup prefers that member and nobody else. |
| Assignments.EntryLabelsDistinct | internal/storage/manager.go:176-182 | Labels node#index name one entry each, even when node IDs contain '#'. |
| Assignments.TableUnique | internal/storage/manager.go:184-191 | The strictly ascending table of all entries is unique, hence a function of the node IDs and vnodes alone. |
| Assignments.TableContents | internal/storage/manager.go:173-192 | Every node has one entry per rank, carrying the hash of that rank among its own; labels are distinct and (token, id) ascends strictly. |
| Assignments.TableMeans | internal/storage/manager.go:173-192 | One entry for every node and rank, labelled node#rank, whose token has exactly that rank among the hashes of the node's labels, and no others, ascending by token and then by label. |
| Assignments.RankedMembers | internal/storage/manager.go:175-183 | The counting loop gives each token its rank among its node's tokens. |
| Assignments.OnlyIsByRank | internal/storage/manager.go:168-175 | However ties between nodes were broken, a member's tokens stand on the ring in rank order. |
| Assignments.SortedRankedIsTable | internal/storage/manager.go:173-192 | Sorting the ranked tokens of any ring with these members gives that one table, with no collision-freedom assumed. |
| RingManager.RingManager.constructor | internal/storage/manager.go:61-72 | Default prefix and 128 virtual nodes; empty state at revision 0, before bootstrap. |
| RingManager.RingManager.Bootstrap | internal/storage/manager.go:83-103 | Loads what is stored and remembers its revision; fails without effect iff the value does not decode. |
| RingManager.NewRingManager | internal/storage/manager.go:57-77 | Fails iff there is no client or the stored state does not decode; otherwise a manager that has loaded it. |
| RingManager.RingManager.Rebuild | internal/storage/manager.go:163-193 | Ring and table show exactly the registered nodes; version and nodes stay. |
| RingManager.RingManager.Persist | internal/storage/manager.go:149-161 | One unguarded put of the encoded state at the next version; lastRevision becomes its revision. |
| RingManager.RingManager.UpsertNode | internal/storage/manager.go:107-125 | An effective call replaces the node's descriptor, raises the version by one and leaves etcd holding the encoded state under prefix/ring at lastRevision; an empty ID changes nothing. |
| RingManager.RingManager.RemoveNode | internal/storage/manager.go:128-147 | A known node disappears from the descriptors, with version and etcd as above; an unknown one changes nothing and keeps the version. |
| RingManager.RingManager.Lookup | internal/storage/manager.go:196-203 | The first replicas nodes of the key's preference order on the current ring. |
| RingManager.RingManager.CurrentAssignments | internal/storage/manager.go:206-212 | The table of the current node set with the current version. |
| RingManager.BuildRing | internal/storage/manager.go:168-172 | Adding the sorted IDs to a fresh ring gives exactly those members' tokens. |
| RingManager.BuildTable | internal/storage/manager.go:173-192 | Ranking and sorting the tokens gives the canonical table. |
| RingManager.RankTokens | internal/storage/manager.go:174-183 | Each token is labelled with the number of its node's tokens before it. |
| RingManager.Restart | internal/storage/manager.go:57-103 | A manager started from what another left in etcd has its nodes, version, table and revision and, without cross-node collisions, its ring and every lookup. |
| RingManager.RestartLooksUpAlike | internal/storage/manager.go:163-203 | Without cross-node collisions two managers with the same nodes have the same ring, so every lookup agrees. |
| WatchPipeline.PipelineInv | internal/storage/manager.go:222-271 | In every interleaving of writer, watcher, rebalancer and the rest of etcd, installed states are the writer's, in writing order, and every one is emitted once. |
| WatchPipeline.WriterHoldsLastReport | internal/storage/manager.go:107-147 | After any run the writer's descriptor of a node is that of its last report to be carried out, and the node is unknown iff there is none or it was removed since. |
| WatchPipeline.EventsFit | internal/storage/manager.go:225-257 | The channel to the rebalancer never holds more than eight events, and the watcher waits exactly while it holds eight. |
| WatchPipeline.BootLoadsWriter | internal/storage/manager.go:83-103 | At any point of any run a bootstrap loads exactly the writer's current state. |
| WatchPipeline.PlanFromWriter | internal/storage/rebalance.go:54-79 | Every plan carries the assignment the writer persisted at some revision, at that state's version. |
| WatchPipeline.PlansFollowTheWriter | internal/storage/rebalance.go:37-81 | Executed plans rise strictly in version; each spells out a state the writer persisted, one entry per virtual node of its members with label node#rank, the hash of that rank and its owner; and the watcher is never behind an emitted event. |
| WatcherCurrency.WatcherCurrentIff | internal/storage/manager.go:83-103 | At any point of any run the watcher shows the writer's state iff the ring was not written since its bootstrap or it has processed the newest write. |
| WatcherCurrency.CaughtUpWatcher | internal/storage/manager.go:222-271 | A watcher that has looked at all it was sent is current iff the ring was not written since its bootstrap or the newest write came after its subscription and was not dropped. |
| WatcherCurrency.DrainedWatcher | internal/storage/manager.go:222-271 | A caught-up watcher that lost nothing installed exactly the states written since it subscribed; it is current iff the ring was written since then or not between its bootstrap and its subscription. |
| WatcherCurrency.DrainedPlans | internal/storage/rebalance.go:37-81 | Once its events are executed too, there is exactly one plan for every state written since the subscription, in order. |
| WatcherCurrency.StaleWatcher | internal/storage/manager.go:222-224 | Bootstrap, a write, then the subscription: the watcher has nothing left to do and misses the write. |
| WatcherCurrency.LossyWatcher | internal/metadata/etcdsim/etcdsim.go:331-336 | Nine writes while nothing is received: the ninth meets a full buffer, and the watcher, having worked off everything, stays behind though nothing was written before its subscription. |
| Rebalance.Run | internal/storage/rebalance.go:37-81 | One plan per event, in order, up to and including the first the executor refuses; a plan has its event's version, an ID naming that version, and entry by entry the assignment's ID, token and node. |
| Rebalance.VirtualNodesInjective | internal/storage/rebalance.go:62-72 | A plan loses nothing of the assignment it was built from. |
| Replication.MergeReplicationErrors | internal/storage/replication.go:89-100 | Nothing iff every result succeeded; otherwise exactly the failures. |
| Replication.ValidateReplicationTargets | internal/storage/replication.go:103-113 | Accepts iff the primary is a target. |
| Streams.Assemble | internal/storage/service.go:95-112 | The chunks before the first commit or EOF, joined; a broken stream fails unless a commit came first. |
| Streams.PayloadLaws | internal/storage/service.go:95-112 | A chunk gives its bytes and nothing else gives any; pieces without a commit are joined in order, and nothing counts after a commit. |
| Streams.OpeningMeans | internal/storage/service.go:81-115 | An upload is accepted iff it starts with a header that has a locator and a segment ID and does not break before a commit. |
| Streams.PayloadOfChunks | internal/storage/service.go:95-112 | However the bytes are split into chunks and whatever follows the commit, the payload is the bytes. |
| Streams.OpeningOfChunks | internal/storage/service.go:81-115 | A header, any chunks, then a commit with anything behind it or EOF: the upload carries exactly the joined chunks. |
| Fanout.CopiesDistinctIff | internal/storage/service.go:127-156 | Every copy has its own key in the results map iff the S3 name is not a target's ID. |
| Fanout.CopiesInRingOrder | internal/storage/service.go:178-192 | The replicas are the entries of the replica set at the places that are not this node, in increasing order of place, then the S3 name if both its fields are set. |
| Fanout.WorkersMean | internal/storage/service.go:133-156 | One goroutine for every other target, returning what the transport does for it, and one for S3 if both fields are set. |
| Fanout.FinishFacts | internal/storage/service.go:120-158 | In any finishing order the results hold this node and every goroutine's key, each with something returned under it. |
| Fanout.OrderIrrelevantIff | internal/storage/service.go:130-158 | The results are the same in every finishing order iff goroutines that share a key return the same. |
| Fanout.OrderNeverMattersIff | internal/storage/service.go:127-158 | For all returned outcomes the results are independent of the finishing order, iff no target but this node has the S3 object's name as its ID. |
| Fanout.ClashWitness | internal/storage/service.go:130-173 | A target of the S3 name that succeeds and an S3 copy that fails: no failure is left if S3 finishes first, one if it finishes last. |
| Fanout.ApartResults | internal/storage/service.go:130-158 | If the S3 name is no target's ID, each copy has its own outcome in the results, in every finishing order. |
| Fanout.ApartAcks | internal/storage/service.go:160-209 | And then the acks are one per copy with its outcome, and the summary counts the failed copies. |
| Fanout.ReorderedAcks | internal/storage/service.go:160-169 | The bag of acks does not depend on the order in which results are walked. |
| Fanout.FailuresCounted | internal/storage/service.go:171-173 | The aggregate error counts the failed copies, and is absent iff all succeeded. |
| StorageService.Service.Replicate | internal/storage/service.go:130-158 | The shared map ends as some finishing order of all the goroutines leaves it. |
| StorageService.AcksMean | internal/storage/service.go:117-209 | The acks spelled out: this node's success, each other result with its outcome and text, how recording went, and how many copies failed. |
| StorageService.HoldersMean | internal/storage/service.go:120-123 | The replica set is what a lookup of the segment's ID names, or this node alone on an empty ring. |
| StorageService.Service.Distribute | internal/storage/service.go:120-209 | One ack for self, one per other results key, plus the summaries; PutSegment once iff no result is a failure, with the header's fields, this node as primary, and the other targets in ring order followed by the S3 name as replicas. |
| StorageService.Service.UploadSegment | internal/storage/service.go:79-216 | The whole upload: payload stored under its locator, copies chosen by the ring, acks and metadata as above; a stream that is malformed or breaks before a commit changes nothing, and a failed upload leaves the files alone iff it was malformed or changed nothing. |
| StorageService.RefusedUploadStays | internal/storage/service.go:115-129 | On a ring whose one member is another node every upload fails, and every well-formed one leaves its payload on disk. |
| Streams.Transmit | internal/storage/service.go:229-245 | Non-empty chunks of at most 128 KiB that join to the file, then exactly one EOF message, iff the reading ended with EOF; otherwise chunks of a prefix. |
| StorageService.Service.GetSegment | internal/storage/service.go:219-246 | The same for a stored locator; a missing one fails and sends nothing. |
| StorageService.RoundTrip | internal/storage/service.go:79-246 | What any accepted upload stream carries, ended by commit or EOF, is what a download receives, however reads are split; a failed download has received a prefix. |

## Left out

- Streams.Transmit: read answers that deliver bytes past the end or an EOF before it are not considered; an endless run of empty reads is not either.
- StorageService.RoundTrip: nobody overwrites the locator between the upload and the download.
- RingManager.Restart: assumes decoding inverts encoding, and the same virtual node count on both sides.
- The chained Txn builder of etcd: a transaction is a value.
- MetadataTheorems.Linearizable: reads and writes share one store; a read pool over another store is only in `MetadataService`.
- WatchPipeline.PlansFollowTheWriter: one manager writes and does not watch, one watches and does not write; `applyState` installs whatever arrives, so a manager doing both has no such promise.
- MetadataMirror.EtcdFollowsStore: says nothing while writers of a key overlap or after a revision conflict, because the store commit and the etcd commit are separate steps.
- HashRing.RunHoldsMembers: histories that add a node already on the ring, which would duplicate its tokens.
- HashRing.Ring.AddNode: every call copies to a new array; the reuse of a slice's spare capacity is not modelled.
- ListPaging.PageSound: limits are positive, as they are after defaulting.
- MetadataTheorems.ExhaustedOnlyUnderContention: the retry budget is at least 1, which the constructor ensures.
- Serializability of listing inside a transaction: a listing tracks no absent rows and does not see the transaction's own writes.
- Local steps: begin and get of a call are one step, and so are other steps between two locked regions.
- SHA-1, SHA-256 and JSON are unconstrained functions; JSON is a codec whose decoder inverts it where that is needed.
- Time, UpdatedAt, contexts, deadlines and leases; cancellation may happen at any moment.
- 64-bit overflow of versions, revisions and sizes: they are unbounded integers.
- Strings are sequences of characters compared character by character; nil and empty maps are not told apart.
- Disk failures, temporary files and path cleaning of the file store: it is a map from locator to bytes.
- Errors of sending on a stream; chunks are an abstract sequence of sent messages.
- The etcd write that a metadata store does when asked to record a segment: each request is recorded and answered.
- The handler registry and the Heartbeat and Rebalance calls of the storage service.
- HTTP handlers, commands, gRPC glue, deployment files, S3 stubs.
