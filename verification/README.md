# A verified model of the etcd sharding proxy

The proxy presents several etcd clusters as one. In coordinated mode every value is an
immutable blob on a data shard and one coordinator etcd holds, under a prefixed key, a
reference to it; a write stages the blob and then publishes the reference, a read takes
references from one coordinator snapshot and resolves them one by one. This project models
that protocol with any number of proxies, interleaved at single remote calls, with lost
replies, unavailable shards, crashes, lease expiry and compaction, and proves that all its
users see one ordinary multi-version etcd. It also covers the key and range algebra under the
protocol, the two routers, the stream machines, the legacy delete fan-out and the ID generator.

The main results:

- `Runs.RunRefines`: every run maps, step by step, to a run of one etcd with inline values.
  Staging, decoding, failing and crashing are invisible; a mutation takes effect exactly at its
  coordinator commit. `Runs.Linearizable`: whatever a client is answered is that etcd's answer
  to its own request at that request's single commit, between its begin and its delivery,
  complete and in order, although the blobs were fetched one by one with arbitrary other steps in
  between; `Runs.OwnCommits`: no two answers share a commit, and real-time order is kept.
- `Simulation.RelExecute`: translating a transaction preserves its meaning (branch, error,
  every response, state afterwards). `Abstraction.ValueComparisonNeedsBlobs` shows why
  comparisons by value are refused: no coordinator-only answer can be right.
- `Runs.ReferencesIntact`, `Runs.PagesAddUp`, `Runs.UserMetadataTrue`: over whole histories
  nothing published is lost, moved or changed, the pages of a listing spread over a run add up to
  one snapshot, and the revisions and versions shown to users are true of the history they see.
- `Watch.WatchComplete` and `Watch.ProgressHonest`: a watch stream running beside the protocol,
  its blobs fetched one by one with any other steps in between, gives its client the logical
  store's events of exactly its range, in order of revision, none missing and none twice, and a
  progress notification never overtakes an event.
- `Requests.TxnAnswered`, `Requests.RangeAnswered`, `Requests.PutAnswered`,
  `Requests.DeleteAnswered`, `Requests.LeaseEnded`: what delivered answers and lease ends mean on
  the logical store, in the terms of `Semantics`, which states what etcd promises without using the
  store model. `Requests.CanComplete`: no request in flight gets stuck.
- `Runs.RoutesAgree` and `Runs.ReservedOnce`: the routing record is written at most once, so all
  proxies ever built agree.
- `Proxy.CoordinatedProxy.Txn` and its siblings: the request code itself, as imperative methods
  over the stores, refines the same logical store, and refuses exactly what it should before
  writing anything.

## Layout

| module | content |
|---|---|
| `Wrappers`, `ByteStrings`, `Keys` | result types, lexicographic order, the coordinator keyspace and range translation |
| `Routing` | configuration, constructor checks, `shard`, `mutationShard`, the legacy router |
| `Mvcc`, `MvccFacts` | one etcd: history of snapshots, transactions, leases, compaction, events; facts about it that the results on runs and requests use |
| `Semantics` | what one etcd promises its clients, independently of the store model, and that the model keeps it |
| `Codec` | blob references and routing fingerprint |
| `Simulation`, `Abstraction` | relation between coordinator and logical store, kept by translated operations; the logical store as a function of coordinator and blobs |
| `Protocol`, `Refinement`, `Runs` | the interleaved protocol, its invariant and forward simulation, theorems over whole runs |
| `Requests` | what delivered answers, lease ends and compaction mean to clients; completion of requests in flight |
| `Proxy` | one proxy's request code |
| `Forwarding`, `Watch` | bidirectional streams over all interleavings; the decoding watch stream |
| `KeepAlive`, `Legacy`, `IdGenerator` | legacy keep-alive fan-out, legacy put and delete, lease IDs |

## Assumptions

- A drawn token differs from all tokens drawn before (a guard of the staging step).
- Blob references round-trip and different routes have different fingerprints. `Codec` gives
  concrete encodings with these two properties in place of JSON and SHA-256; no proof uses more
  of them. (Endpoint strings are taken to be valid UTF-8, which JSON needs to keep them apart.)
- Nobody else writes to the clusters, and an endpoint string names the same cluster for ever.
- etcd itself behaves as the "Key-Value API", "Watch API" and "Lease API" sections of the v3.5
  documentation say: one atomic object per cluster, a unary call being a transaction with one
  operation, a revision of zero or less meaning the newest, ties in a sort keeping key order.

## Model

| member | source | states |
|---|---|---|
| `Runs.RunRefines` | docs/coordinated-sharding.md:16-30 | along every run the logical stores are a run of one etcd that starts empty: each step performs exactly the operation it is observed as, and only commits, lease requests, compaction and the one routing record are operations |
| `Runs.Linearizable` | pkg/server/coordinated_proxy.go:157-372 | a delivered result equals the logical store's answer to that very request at its commit: the begin, the only commit since and the delivery belong to one stay of the request in flight, also when ids are reused |
| `Runs.OwnCommits` | docs/coordinated-sharding.md:16-30 | two delivered answers never share a commit, and a request delivered before another began also committed before it |
| `Requests.TxnAnswered` | pkg/server/coordinated_proxy.go:272-372 | a delivered transaction took, at its one commit, the branch that its comparisons choose on the logical store, its operations ran one after the other, each doing what a range, put or delete should, and its writes became one revision; or it was refused for a reason there is (duplicate key, missing key or lease, future or compacted revision), and one that is answered had none |
| `Requests.RangeAnswered` | pkg/server/coordinated_proxy.go:157-184 | a delivered range holds the pair of every key that the logical store has in the range at the commit or the revision asked for, once, and nothing else: an arrangement in the order asked for of exactly those within the revision bounds, cut at the limit, with `more` iff some were cut and the count of the whole range (with a limit, no filter and a sort target other than the key but no order, etcd takes only the first limit + 1 pairs in key order, and the list is of those) |
| `Requests.PutAnswered` | pkg/server/coordinated_proxy.go:224-240 | right after the commit of a delivered put, at the revision it reports, the logical store holds its value and lease, or those it was told to keep, its create revision kept and one version on, and every other key as before; the previous pair reported is the one there was |
| `Requests.DeleteAnswered` | pkg/server/coordinated_proxy.go:250-271 | right after the commit of a delivered delete no key of its range is left and every other key is as before; count and previous pairs are those of exactly the keys removed |
| `Requests.LeaseEnded` | docs/coordinated-sharding.md:32-34 | at the end of a granted lease a key stays iff its record has another lease or none, records that stay are unchanged, there is one new revision iff a key was removed, with a delete event for each, and the lease is no longer granted; an unknown lease changes nothing |
| `Requests.LeasedPutEnds` | docs/coordinated-sharding.md:32-34 | a key of a delivered put with a lease is gone after the end of that lease, or was written again later without it |
| `Requests.NoOrphans` | docs/coordinated-sharding.md:32-34 | in every reachable state the lease of every stored key is granted |
| `Requests.LeaseGranted` | pkg/server/coordinated_proxy.go:376-378 | granting a lease adds it and changes nothing else |
| `Requests.CompactionDone` | pkg/server/coordinated_proxy.go:373-375 | compaction moves the floor below which reads are refused, up only and to a revision reached, and changes no contents |
| `Requests.CanComplete` | pkg/server/coordinated_proxy.go:203-372 | every run with a request in flight extends, by that request's own steps alone, to its delivery, with the recorded answer or, if not yet committed, with what the logical store would answer now |
| `Runs.Reachable` | pkg/server/coordinated_proxy.go:203-372 | the protocol invariant holds in every state of every run, for any number of proxies |
| `Refinement.StepRefines` | pkg/server/coordinated_proxy.go:203-372 | forward simulation: one step keeps the invariant and is one atomic logical operation, or nothing |
| `Refinement.CommitRefines` | pkg/server/coordinated_proxy.go:343-346 | the coordinator commit of a staged request is the client's own transaction on the logical store, reply lost or not |
| `Refinement.DecodeRefines` | pkg/server/coordinated_proxy.go:129-156 | resolving one more pair keeps the partly decoded answer on course for the logical answer at its commit, and succeeds whenever the data shard answers |
| `Refinement.DeliveredIsAnswer` | pkg/server/coordinated_proxy.go:347-372 | a fully decoded result is the recorded logical answer: no pair missing, mixed or out of order |
| `Refinement.EndLeaseRefines` | docs/coordinated-sharding.md:32-34 | expiry or revocation of a lease at the coordinator is the end of that lease on the logical store |
| `Refinement.EndForgets` | pkg/server/coordinated_proxy.go:224-372 | delivering or giving up a request removes it and changes nothing else |
| `Refinement.CrashLoses` | docs/coordinated-sharding.md:26-30 | a crash loses the proxy and its requests in flight, and no revision, blob or request of another proxy |
| `Refinement.StageData` | pkg/server/coordinated_proxy.go:203-223 | staging touches one data shard: the blob is there unless the write failed, also when the reply is lost, and the request goes on only with the reply |
| `Refinement.StepKeepsPast` | pkg/server/coordinated_proxy.go:201-223 | no step changes a reached revision, removes or overwrites a blob, or alters an existing routing record |
| `Runs.PastKept` | docs/coordinated-sharding.md:26-34 | the same between any two moments of a run |
| `Runs.ReferencesIntact` | pkg/server/coordinated_proxy.go:129-156 | every metadata record at every revision reached names a blob on the home shard of its key, and that blob holds the key's logical value of that revision then and at every later moment |
| `Runs.LogicalPastKept` | docs/coordinated-sharding.md:21-22 | the logical history only ever grows |
| `Runs.HistoricalReadsStable` | docs/coordinated-sharding.md:21-22 | a read of a past revision gives the same pairs, count and `more` at any two moments at which it is answered |
| `Runs.PagesAddUp` | docs/coordinated-sharding.md:21-22 | pages of any limit read at one revision at different moments of a run, each continuing after the last key until there is no more, together are the pair of every key of the range stored at that revision, once and in key order, and nothing else |
| `Runs.UserMetadataTrue` | docs/coordinated-sharding.md:18-19 | in every reachable state the user-visible create and mod revisions and versions form a true chronicle of the logical history |
| `Runs.RoutesAgree` | pkg/server/coordinated_proxy.go:77-91 | any two proxies built at any times of one run have identical routes, and the routing record is the same at both times |
| `Runs.ReservedOnce` | pkg/server/coordinated_proxy.go:77-91 | after one constructor call has reached the coordinator no later one writes |
| `Refinement.BuildIs` | pkg/server/coordinated_proxy.go:77-91 | the first constructor call to reach the coordinator writes its fingerprint and a later one changes nothing; a proxy starts iff the reply arrives and there were no routes or the same |
| `Refinement.ConfigOutcome` | pkg/server/coordinated_proxy.go:80-91 | the constructor's transaction writes the fingerprint if there is none, and otherwise changes nothing and returns the one record there is |
| `Runs.AcceptedConfined` | pkg/server/coordinated_proxy.go:292-326 | an accepted transaction has one shard such that every key it changes, whichever branch runs, belongs there |
| `Simulation.RelExecute` | pkg/server/coordinated_proxy.go:272-372 | on related stores the translated transaction takes the same branch, fails with the same error or gives responses that decode to the same, and leaves related stores |
| `Simulation.RelApplyOp` | pkg/server/coordinated_proxy.go:327-342 | one translated operation in the middle of a transaction keeps the stores related, own writes included |
| `Simulation.RelSorted` | pkg/server/coordinated_proxy.go:157-168 | the keys found by a translated range are the prefixed keys of the user's range, all of them, in the same order |
| `Simulation.RelKvDecodes` | pkg/server/coordinated_proxy.go:129-156 | a coordinator pair decodes to the logical pair it stands for, keys-only or not |
| `Simulation.DecodeExact` | pkg/server/coordinated_proxy.go:129-156 | decoding succeeds iff the key has the prefix and, unless only keys are wanted, the value refers to an existing blob under the blob prefix on one of the shards; it strips the prefix, puts in the blob's bytes and leaves the rest; every failure is a loss of data |
| `Abstraction.AbsRelated` | docs/coordinated-sharding.md:16-22 | whenever all references resolve, the logical store computed from coordinator and blobs is related to the coordinator |
| `Abstraction.AbsStable` | docs/coordinated-sharding.md:26-30 | adding blobs never changes the logical store |
| `Abstraction.ValueComparisonNeedsBlobs` | pkg/server/coordinated_proxy.go:281-283 | one coordinator snapshot that stands for two logical ones with different answers to a comparison by value |
| `Abstraction.EventDecodes` | pkg/server/coordinated_proxy.go:422-435 | a coordinator event decodes to the logical event of the user key at that revision, and neither exists without the other |
| `MvccFacts.MetadataTrue` | docs/coordinated-sharding.md:18-19 | a record was written at its mod revision and is unchanged since, its key exists since its create revision and not just before, and its version counts the writes since |
| `Semantics.EventKept` | docs/coordinated-sharding.md:23-24 | a key has an event at a revision iff it was written or removed there, of the right kind and with the pairs before and after |
| `Keys.RangeEmbedding` | pkg/server/coordinated_proxy.go:96-110 | a user key is in the user's range iff its coordinator key is in the translated range, for single keys, ordinary ends and the "no end" sentinel |
| `Keys.RangeConfined` | pkg/server/coordinated_proxy.go:96-110 | a translated range holds only prefixed non-empty user keys of the user's range, and stripping the prefix round-trips |
| `Keys.MetaKeyOrder` | pkg/server/coordinated_proxy.go:100-100 | prefixing keeps the order and is injective |
| `Keys.ConfigKeyUnreachable` | pkg/server/coordinated_proxy.go:96-110 | no translated user range contains the routing record |
| `Routing.ShardIsUniqueOwner` | pkg/server/coordinated_proxy.go:111-118 | on accepted routes each key has exactly one owner and `shard` names it |
| `Routing.FindShard` | pkg/server/coordinated_proxy.go:111-118 | the loop returns the unique owner and never falls through to the panic |
| `Routing.MutationShardExact` | pkg/server/coordinated_proxy.go:119-128 | a mutation range is accepted iff all its keys have the owner of its first key; on refusal that shard's end is a key of the range with another owner |
| `Routing.Validate` | pkg/config/config.go:97-151 | accepts iff exactly one mode is configured, the transport options fit together, and with shards the boundaries are contiguous, ascending and free of the sentinel and each shard has an address |
| `Routing.ValidateTls` | pkg/config/config.go:78-95 | accepts iff certificate and key come together and the listener or backend options fit |
| `Routing.ValidateShards` | pkg/config/config.go:118-150 | the loop over the shards accepts iff boundaries and addresses are valid and shards use transport security only in coordinated mode |
| `Routing.BuildShards` | cmd/proxy/main.go:89-110 | succeeds iff every shard could be dialed, and then fills the array with the normalised boundaries, first start and last end unbounded, and the shards' own addresses and connections |
| `Routing.ConfigChain` | cmd/proxy/main.go:89-110 | a validated configuration always passes the constructor's range checks, and passes all its checks iff the addresses differ from each other and from the coordinator's |
| `Routing.SharedAddressRefused` | pkg/server/coordinated_proxy.go:64-70 | a validated configuration of two shards with one address, whose routes no coordinator accepts |
| `Routing.CheckTopology` | pkg/server/coordinated_proxy.go:49-76 | accepts iff there is a coordinator, every shard has a connection that is not the coordinator's own, and the routes cover the keyspace with distinct endpoints |
| `Routing.ConfigAccepted` | cmd/proxy/main.go:89-113 | shards built from a validated configuration, each with a connection of its own, are accepted by the constructor iff their addresses differ from each other and from the coordinator's, with the configured routes |
| `Routing.GetShardClis` | pkg/server/sharding.go:30-45 | the early exit returns a prefix of the full filter, and all of it iff the shards to be found leave no gap |
| `Routing.ContainsExact` | pkg/server/shard.go:55-74 | a shard of a validated configuration contains a request iff it is the home of the key or owns some key of the range |
| `Routing.LegacyScan` | pkg/server/sharding.go:30-45 | on a validated configuration the shards to be found are the never empty run from the home shard on, so there is no gap |
| `Routing.RoutersAgree` | pkg/server/shard.go:26-74 | the legacy scan of one key is exactly the coordinated owner, and that of a range has one shard iff the coordinated router accepts it as one mutation |
| `Proxy.CheckOp` | pkg/server/coordinated_proxy.go:296-317 | one operation passes iff it is present, flat, well formed and within one shard, and the index returned is that shard |
| `Proxy.ValidateTxn` | pkg/server/coordinated_proxy.go:272-326 | the transaction accepted is the request, comparison by comparison, branch by branch and operation by operation; a request is refused iff it is no such transaction (something missing or nested) or one that compares or sorts by value or mutates more than one shard |
| `Proxy.SingleAccepted` | pkg/server/coordinated_proxy.go:185-271 | a single request is acceptable iff the transaction with it alone is |
| `Proxy.CoordinatedProxy.StagePut` | pkg/server/coordinated_proxy.go:203-223 | adds at most one blob, overwrites none, leaves the logical store alone, and on success returns a request whose reference resolves to the value on the key's home shard |
| `Proxy.CoordinatedProxy.StageAll` | pkg/server/coordinated_proxy.go:327-342 | translates every operation of both branches once, in order; succeeds iff every value was stored; never changes the logical store |
| `Proxy.CoordinatedProxy.DecodePair` | pkg/server/coordinated_proxy.go:129-156 | a success is the decoding of the pair, whichever shards are down; with none down success and failure both are |
| `Proxy.CoordinatedProxy.DecodeAll` | pkg/server/coordinated_proxy.go:351-371 | all or nothing: success means every pair of every response is the logical one |
| `Proxy.CoordinatedProxy.Txn` | pkg/server/coordinated_proxy.go:272-372 | with the transaction that the request is, position by position: refused iff not acceptable, and then nothing changes; a failed staging or a coordinator call that does not take effect changes no coordinator state and adds no referenced blob; otherwise it takes effect as the logical transaction, reply lost or not, and an answer is the logical answer; it is answered if nothing fails outside |
| `Proxy.CoordinatedProxy.Put` | pkg/server/coordinated_proxy.go:185-240 | the same for a single put |
| `Proxy.CoordinatedProxy.DeleteRange` | pkg/server/coordinated_proxy.go:241-271 | the same for a single delete, which touches no blob and is refused iff its range leaves the home shard |
| `Proxy.CoordinatedProxy.Range` | pkg/server/coordinated_proxy.go:157-184 | changes no store; a success is the logical store's answer |
| `Proxy.NewCoordinatedProxy` | pkg/server/coordinated_proxy.go:49-92 | succeeds iff the topology is accepted, the reply arrives and the coordinator holds no routes or the same; writes only the routing record and only if absent |
| `Proxy.StripPrefixes` | pkg/server/coordinated_proxy.go:385-397 | strips every key in place, or reports a key without the prefix |
| `Proxy.LeaseKeysLogical` | pkg/server/coordinated_proxy.go:385-397 | the coordinator's keys of a lease all carry the prefix, and stripped they are the logical keys of the lease |
| `Forwarding.Forwards` | pkg/server/backend_proxy.go:133-192 | in every interleaving requests and responses arrive as gap-free prefixes in order, each response as it decoded at the step that read it; the pump never blocks on the error channel; a nil return means all responses were delivered; if the pump had canceled before the response loop ended its own error is returned |
| `Forwarding.ReturnExact` | pkg/server/backend_proxy.go:159-166 | the call returns the pump's own failure if the pump had reported one at the select, and otherwise exactly what ended the response loop: nil at the backend's end after everything was delivered, the backend's failure, a header's, a client write's, or a failed decoding |
| `Forwarding.NilMeansEof` | pkg/server/backend_proxy.go:182-186 | nil is returned iff the loop read the backend's EOF and the pump had reported nothing |
| `Forwarding.FailuresCount` | pkg/server/backend_proxy.go:136-154 | a failure in receiving, rewriting, sending or closing is recorded for good with its own error, and whatever ends the loop ends it at once |
| `Forwarding.RestsHow` | pkg/server/backend_proxy.go:144-154 | the pump ends without an error only after passing on the half-close or at an EOF from the backend |
| `Forwarding.UndecodableStops` | pkg/server/backend_proxy.go:180-191 | a response that cannot be decoded when read ends the loop with an error; from then on the client has exactly the responses before it |
| `Forwarding.OverHasCause` | pkg/server/backend_proxy.go:157-192 | the response loop is over only if the backend ended, a header or a write to the client failed, a response could not be decoded, moving requests failed, or the call was canceled from outside |
| `Forwarding.HalfCloseKeepsResponses` | pkg/server/backend_proxy.go:131-156 | after a clean half-close the backend has been told and has all the client's requests in order, and while none of these causes occurs the loop goes on: every response taken is delivered or being written |
| `Forwarding.Drains` | pkg/server/backend_proxy.go:180-191 | no response is stranded: a run whose loop is not over extends, by steps of the loop alone, to one in which all decodable responses emitted are delivered |
| `Watch.RequestsForwarded` | pkg/server/coordinated_proxy.go:411-421 | in every run the coordinator gets the client's requests in order: a create as the same watch on a range with exactly the coordinator keys of the user's range, anything else unchanged |
| `Watch.EmptyKeyStops` | pkg/server/coordinated_proxy.go:413-419 | a create request with an empty key ends the pump with an error, and neither it nor anything after it is forwarded |
| `Watch.WatchComplete` | pkg/server/coordinated_proxy.go:405-444 | if the coordinator reports a watch on the range it was asked for in order of revision, none twice or missing, then at every moment the client has, for that watch, a prefix of the report, telling it what was written or removed logically in the range it asked for, in order, none twice or missing |
| `Watch.ProgressHonest` | docs/coordinated-sharding.md:23-24 | a client that has a response emitted after all events up to a revision has been told everything that happened in its range up to that revision |
| `Watch.WatchDelivers` | pkg/server/coordinated_proxy.go:405-444 | with a protocol run going on beside the stream, each response emitted from the coordinator of its moment and each of its blobs fetched at a later moment of its own, the client at every moment has an in-order, gap-free prefix of the responses, each holding the logical store's events, with or without previous pairs event by event |
| `Watch.WatchNeverSticks` | pkg/server/coordinated_proxy.go:422-435 | in such a run a response read while the data shards answer always decodes and goes to the client |
| `Watch.WatchScopeExact` | pkg/server/coordinated_proxy.go:411-421 | the request made of a create request sees the changes of exactly the user keys in the user's range |
| `Watch.EventsDecode` | pkg/server/coordinated_proxy.go:422-435 | a batch of coordinator events decodes, to the logical events at the same changes |
| `Watch.DecodeTimeless` | docs/coordinated-sharding.md:23-24 | events of one moment of a protocol run decode to the logical events however much later each single blob is fetched, whatever happened in between |
| `Watch.BadEventStops` | pkg/server/coordinated_proxy.go:422-435 | a response with an event that cannot be decoded at the moment it is read is not delivered, nor anything after it, while everything before it is |
| `KeepAlive.KeepAliveProxy.SendAll` | pkg/server/proxy_lease.go:133-153 | every shard gets the request before any reply is awaited, or the first shard that cannot be sent to decides the error: that of opening or sending, or after an EOF the shard's own last status |
| `KeepAlive.KeepAliveProxy.ReceiveAll` | pkg/server/proxy_lease.go:154-170 | the result carries the request's ID and is the reply with the least TTL over all shards' replies of this round; otherwise the first bad reply decides the error |
| `KeepAlive.KeepAliveProxy.Run` | pkg/server/proxy_lease.go:92-175 | response n answers request n; sends, receives and responses stay in lockstep; the call ends cleanly iff the client half-closed, with the client's error if it failed, and otherwise at a request whose round fails, for which nothing is sent, with the error of the first thing that went wrong |
| `KeepAlive.HandOffKeepsOrder` | pkg/server/proxy_lease.go:99-118 | in every interleaving the loop has been handed a prefix of the client's requests, in order, short only by the one on offer, and nothing after an end or error |
| `KeepAlive.ClientAnswered` | pkg/server/proxy_lease.go:99-175 | reader and loop together: response n answers the n-th request the client sent |
| `Legacy.KVProxy.Put` | pkg/server/proxy_kv.go:60-63 | writes the home shard only, and the union of the stores gains exactly this pair |
| `Legacy.KVProxy.DeleteRange` | pkg/server/proxy_kv.go:68-99 | in whatever order the shards are called, of the union exactly the keys outside the range stay, and the count is the number of those in it; the pairs reported are the home shard's, complete iff every deleted key lives there, and always when the scan finds one shard |
| `Legacy.FanOut` | pkg/server/proxy_kv.go:70-90 | for every schedule of the calls each response lands at its shard's place and each scanned shard is cleared, no other |
| `Legacy.PairsCompleteExact` | pkg/server/response_filter.go:41-50 | the reported pairs are complete for every content of the shards iff the scan finds a single shard, for a non-empty key iff the coordinated router takes the range as one mutation |
| `Legacy.PairsLost` | pkg/server/response_filter.go:45-49 | two shards holding one key each and a range over both, of which only the first is reported |
| `Legacy.FilterDeleteRange` | pkg/server/response_filter.go:41-50 | adds up all counts, and keeps only the first response's pairs |
| `Legacy.ClearedUnion` | pkg/server/proxy_kv.go:68-99 | clearing the range on every shard clears exactly the range of the union and keeps ownership |
| `Legacy.CountIsUnion` | pkg/server/response_filter.go:41-50 | the shards' counts add up to the number of keys of the range in the union, none counted twice |
| `Legacy.RunConserves` | pkg/server/proxy_kv.go:60-99 | over every run of puts and deletes the shards together are one plain store and each holds only its own keys |
| `IdGenerator.Generator.Next` | pkg/server/id_generator.go:41-45 | issues the next ID of the sequence fixed by prefix and start, counter wrap included |
| `IdGenerator.Generator.NextInt64` | pkg/server/id_generator.go:47-50 | never negative, and the low 63 bits of the next ID |
| `IdGenerator.ConsecutiveDistinct` | pkg/server/id_generator.go:40-54 | any 2^48 consecutive IDs are pairwise distinct, also as non-negative 64-bit numbers |
| `IdGenerator.RestartRepeats` | pkg/server/id_generator.go:30-45 | a generator restarted d milliseconds later, neither suffix wrapping, repeats an earlier ID iff the first issued more than 256*d IDs and the second issued any |
| `IdGenerator.RestartRepeatsOne` | pkg/server/id_generator.go:30-45 | a generator that issued 257 IDs, restarted after one millisecond, first repeats the last of them |
| `IdGenerator.LowBitIsRemainder` | pkg/server/id_generator.go:52-54 | shifting the ones of a word and masking bit by bit gives the remainder modulo 2^n |
| `IdGenerator.IdIsSum` | pkg/server/id_generator.go:43-43 | the bitwise `or` of a member prefix and a masked suffix is their sum |

## What the code does and does not meet

- `Validate` does not compare addresses, so a validated coordinated configuration may still be
  refused by the constructor; `Routing.ConfigChain` gives the exact condition and
  `Routing.SharedAddressRefused` such a configuration.
- The merged response of a fanned-out legacy delete drops the previous pairs of all shards but
  the first; `Legacy.PairsLost` shows it, and `Legacy.PairsCompleteExact` gives the exact condition
  on the request under which they are complete.
- A generator restarted too soon can repeat IDs, although its comment promises uniqueness;
  `IdGenerator.RestartRepeatsOne` shows it and `IdGenerator.RestartRepeats` gives the exact condition.

## Left out

- Concurrency inside `Proxy.CoordinatedProxy`: its methods run one request of one proxy without interruption, while `Protocol` has the same steps interleaved with those of all other proxies. Methods take the environment's choices (drawn tokens, lost replies, unreachable shards) as parameters.
- Updating cloned messages in place: requests and responses are values, so that the clone shields the caller's message is not stated.
- The `Build` step of `Protocol` asks only for covering routes, which allows more runs than the constructor does.
- Serializable reads: the request's `serializable` flag, which the proxy passes on and which lets the coordinator answer from an older revision, is absent; all modelled reads are linearizable.
- etcd limits on transaction size, negative revisions inside a transaction, lease TTLs, and the order of events within one revision: either absent from the model or left free (`Watch.WatchDelivers` holds for any order).
- The `Header` of responses apart from its revision, gRPC metadata and trailers, TLS handshakes, dialing, listeners and configuration loading.
- Unary forwarders of `pkg/server/backend_proxy.go`: each is one atomic call whose reply may be lost.
- A request in flight when its proxy crashes counts as lost either before or after its commit; a commit delayed beyond the crash is a run in which the crash comes later.
- Legacy `Range`, `Txn`, watch, and lease grant and revoke: documented as without ordering or atomicity across shards, and the range merge repeats pairs.
- Failing shard calls in the legacy fan-out: its goroutines share one error variable, so legacy results are for calls that succeed.
- Waiting and liveness: the stream machines state what is delivered and returned, and that the error channel never blocks; not that a peer eventually answers.
- Blob garbage collection, backup, migration, and etcd's consensus.
- Allocation of shard streams and channels in `KeepAlive` is represented by flags and counters; cancellation of the call is the end of the sequence of handed-over requests.
