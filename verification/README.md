# codakv in Dafny

codakv is a versioned key/value store: an in-memory map striped over partitions, each entry under its own lock, behind a stateless proxy that places partitions on nodes. This project models that behaviour in Dafny and proves what it is meant to guarantee, for every input, every interleaving and every run.

The parts, from the specification outwards:

- `AtomicMap`: the store as a client may think of it, a plain map from key to value and version. Everything else is proved against it.
- `History`: the same promise told by calls and replies alone, with no map in it: what a Get answers, when a write is accepted, what it leaves and what a refusal says. It is proved to be the plain map and nothing else.
- `StoreProtocol`, `StoreInvariant`, `Linearizability`, `ConcurrentKeys`, `Completion`: the concurrent store, one lock operation or memory access at a time, with any number of calls in progress. Its invariant, absence of deadlock, a bound on every call, linearizability, listing under concurrent writes, and that a call left alone comes to its end.
- `ClusterLinearizability`: all nodes' stores running at once, as one atomic store.
- `Slices`, `StoreHeap`: the same store as objects, one call at a time: partition maps, entry objects and byte slices, with what may alias what.
- `Bits`, `Routing`, `Rebalance`, `Table`, `Decimal`, `Text`, `RangeText`, `Config`: hashing, the division of partitions among nodes, what moves when a node is added, the routing table, and the texts that configure them.
- `JsonMerge`, `JsonStore`: PATCH, the meaning of a run of PUTs and PATCHes, and the byte store read as a store of JSON values.
- `CasCounter`, `CounterRequests`, `CounterCluster`, `UnguardedCounter`: the compare-and-set client over a lossy network, its requests and responses as texts, whole executions on a cluster of proxies and nodes, and the unguarded loop as a contrast.
- `Node`, `NodeAnswers`, `NodeDocument`, `Cluster`: the checks of a node, what each status means, what a node holds after any run of requests, the proxy's forward, sharding as a refinement of one store, and no silent loss.
- `NodeList`, `Deployment`: the list of nodes as an operator writes it, and the cluster that comes of it.
- `LineMerge`, `ClusterListing`, `Utf8`, `ListingReader`, `BrokenKey`: the proxy's merge of the nodes' key streams, what the merged listing contains, what a reader of its text learns, and an execution that misleads it.

`dafny verify dfyconfig.toml` checks everything. Every lemma carries `{:induction false}`, so each proof rests on its written body alone. Dafny's automatic induction can assume its hypothesis of values of the wrong type, and then proves too much; it is switched off everywhere for that reason.

Where the code and its own documentation disagree, the model follows the code:

- README.md:115-117 says that growing from 3 to 4 nodes moves exactly 25% of the partitions. `RangeFor` moves 513 of 1024 (`Rebalance.ThreeToFourNodes`). Exactly one partition in n + 1 moves if and only if the cluster grows from one node (`Rebalance.ExactShareOnlyFromOneNode`); what does hold for all sizes is that boundaries interlace, that no partition moves further than the next index, and that half of the partitions move up to a correction given exactly by the two remainders (`Rebalance.MovedExactly`).
- An `OWNED_PARTITIONS` override that ends at 18446744073709551615 passes the size check, because its exclusive end wraps to 0, and the node then owns nothing (`Config.LargestOverrideOwnsNothing`). `RangeText.AcceptedText` and `Config.OwnedIsWithinPartitions` give the exact condition.
- The comment on `Keys` promises every key in the listing (internal/store/store.go:221-222), and the nodes do list them all; but a line of the listing is JSON, whose encoder replaces bytes that are not UTF-8, while `checkKey` accepts any bytes. The reader learns exactly the stored keys if and only if all of them are well-formed UTF-8 (`ListingReader.ReaderLearnsKeys`); the keys FF and FE, one byte each, look the same (`ListingReader.BrokenKeysAreMerged`), and a node that was asked to write FF and lists it misleads every reader (`BrokenKey.WriteThenList`, `BrokenKey.ReaderIsMisled`).
- The store's integer printer writes "-" for the least 64-bit integer (`Decimal.Itoa`), since its negation overflows.
- Merging is associative unless the middle value is no object while the outer two are, and the first has a field the last lacks (`JsonMerge.MergeAssociates`).

## Model

| member | source | states |
|---|---|---|
| Linearizability.Linearizable | internal/store/store.go:118-213 | Every execution of the lock-level store, with any number of concurrent calls, has an order of atomic calls on a plain map in which every returned call occurs once with the request it made and the reply it got, replies are the plain map's, each call takes effect at a step of its own between arrival and return, and a call that returned before another arrived comes first |
| Linearizability.FireSimulates | internal/store/store.go:118-213 | Each single step either decides its call with the reply the plain map gives at that instant, and changes the plain map accordingly, or leaves the plain map and all decisions as they were |
| Linearizability.OrderRespectsTime | internal/store/store.go:112-142 | A call that had returned before another arrived precedes it in the order |
| Linearizability.GuardWinsOnceConcurrently | internal/store/store.go:156-205 | In every interleaving at most one of all calls guarding a key with the same version, or with its absence, succeeds |
| Linearizability.StoredVersionCountsWrites | internal/store/store.go:175-205 | In every reachable state the version stored for a key is its number of accepted writes, which were answered 1, 2, 3 and so on; the key exists exactly when there was one |
| Linearizability.AcknowledgedIsPresent | internal/store/store.go:175-205 | In every execution a write that returned with success has its key in the store, and a write without a guard always succeeds |
| Linearizability.RepliesFollowGuards | internal/store/store.go:118-213 | Every execution of the lock-level store has such an order in which, by the replies alone, a Get is answered with what the last accepted write to its key handed out, and writes are accepted or refused exactly as their guards fit that |
| ClusterLinearizability.ClusterLinearizable | internal/proxy/nodecaller.go:1-6 | Every execution of all nodes' stores at once, on a common clock, each asked only for keys of its own disjoint range, has one order of atomic calls on one plain map in which every returned call of every node occurs once with its request and reply, takes effect at a step of its own, and follows every call that had returned, at whatever node, before it arrived |
| ClusterLinearizability.OrderFollowsGuards | internal/proxy/nodecaller.go:1-6 | In the cluster's order, too, every reply is the one that guards and the last accepted write call for |
| ClusterLinearizability.OrderRespectsTime | internal/proxy/nodecaller.go:1-6 | A call that had returned at one node before another arrived at any node precedes it in the cluster's order |
| ClusterLinearizability.CallInShare | internal/node/service.go:183-192 | A call on an owned key is answered by, and changes, the owner's share of the plain map exactly as it would the whole map |
| StoreInvariant.FireKeepsInv | internal/store/store.go:142-213 | Every step keeps the invariant: locks are held by exactly the calls whose position says so, a key is only in the table its hash names, different keys have different entries, and every pointer a call holds is the one in the table |
| StoreInvariant.RunKeepsInv | internal/store/store.go:142-213 | The invariant holds in every reachable state |
| StoreInvariant.RunGrows | internal/store/store.go:19-23 | Entries are never removed or replaced: a pointer once in a table stays there through every execution |
| StoreInvariant.EveryStateIsSafe | internal/store/store.go:149-212 | In every reachable state a pointer in a call's hand is the current one for its key, no call has read its table more than twice, and a call that asks for a lock holds no other |
| StoreInvariant.NoRaces | internal/store/store.go:6-17 | While a call may change a table or an entry, no other call is inside it, to read or to write |
| StoreInvariant.NeverStuck | internal/store/store.go:149-212 | Whenever some call is unfinished, some call can take a step: no deadlock |
| StoreInvariant.CallsAreShort | internal/store/store.go:149-212 | Every Get and Write takes at most 14 steps of its own in any interleaving; the retry loop goes round at most twice |
| Completion.FinishAlone | internal/store/store.go:142-213 | From every reachable state in which all other calls have returned, a Get or Write can run on until it returns |
| Completion.ListAlone | internal/store/store.go:229-246 | From every such state a listing whose consumer goes on can run until it has listed everything |
| ConcurrentKeys.KeysIsFaithful | internal/store/store.go:229-246 | With arbitrary calls interleaved, a listing repeats no key, yields only keys that exist, and when complete has yielded every key present at its start |
| ConcurrentKeys.YieldsOnlyGrow | internal/store/store.go:239-243 | What has been yielded is never taken back: later lists extend earlier ones in every execution |
| ConcurrentKeys.StoppedIsPrefix | internal/store/store.go:239-243 | A consumer that stops early has a prefix of what every execution that is the same up to there, but goes on, has yielded at any later moment |
| ConcurrentKeys.CopyTable | internal/store/store.go:231-237 | Copying one partition adds only keys not listed before, and completes all keys whose hash names that partition or an earlier one |
| AtomicMap.WriteSlot | internal/store/store.go:142-205 | A refused write leaves the slot alone; an accepted one puts its reply's entry there, one version up |
| History.OneCallIsRight | internal/store/store.go:142-205 | A write is accepted if and only if it does not carry both guards, its version guard, if any, is the version its key has, and its absence guard, if any, finds no key; both guards are refused as contradictory and every other refusal is a mismatch naming key, expectation and version; an accepted write leaves the next version with the body, merged only into a value that is there; a Get answers the entry or its absence |
| History.MapIsRight | internal/store/store.go:118-205 | Over every run each reply is the right one for the entry that the last accepted write to the key handed out |
| History.RightIsFromMap | internal/store/store.go:118-205 | Replies are right throughout if and only if they are the plain map's: the promise determines every reply |
| AtomicMap.VersionsAreConsecutive | internal/store/store.go:175-205 | Over every run of calls the accepted writes of a key are answered 1 to n in order, and the stored version is n |
| AtomicMap.GuardWinsOnce | internal/store/store.go:156-174 | No run has two accepted writes to a key that name the same version guard, or two that demand its absence |
| AtomicMap.ConflictReportsCurrent | internal/store/entry.go:84-97 | A mismatch carries version 0 exactly when the key was absent at the decision, and otherwise its version then |
| AtomicMap.RejectedChangesNothing | internal/store/store.go:143-174 | A call that is not an accepted write leaves the whole map as it was |
| StoreHeap.Store.constructor | internal/store/store.go:64-73 | A new store is sound and empty, its partitions all new objects |
| StoreHeap.NewStore | internal/store/store.go:64-73 | Creation succeeds exactly for a valid partition count, with an empty store, and otherwise reports the count |
| StoreHeap.Store.Get | internal/store/store.go:118-134 | Get returns the plain map's entry, or nothing exactly when the key is absent |
| StoreHeap.Store.Write | internal/store/store.go:142-213 | Write changes the contents and answers exactly as the plain map does, and rightly by what its guards ask, allocates every slice and entry it installs, and hands out a new slice |
| StoreHeap.PartitionObject.WriteExisting | internal/store/store.go:155-180 | Guard, computation and bump on an existing entry are the plain map's write, accepted exactly when the guards hold of the entry |
| StoreHeap.PartitionObject.Create | internal/store/store.go:186-205 | The create path is the plain map's write on a missing key; existing entries stay the same objects |
| StoreHeap.ComputeSlice | internal/store/store.go:266-271 | The new value is the merge or the body, in a slice that neither the store nor the caller had; on the merge branch because `JsonMerge.ApplySlice` promises it |
| StoreHeap.PartitionObject.Accept | internal/store/store.go:175-179 | An accepted write installs the computed slice one version up and hands out that slice |
| Slices.Clone | internal/store/store.go:275-279 | A copy with the same bytes in a new slice |
| StoreHeap.Store.Keys | internal/store/store.go:229-246 | Alone, Keys lists exactly the stored keys, each once |
| StoreHeap.Store.Len | internal/store/store.go:250-258 | Len is the number of stored keys |
| StoreHeap.WritesLeaveSlicesAlone | internal/store/store.go:260-271 | Through any sequence of writes every slice a caller holds keeps all its bytes, while the store follows the plain map |
| StoreHeap.WriteThenReuseBuffer | internal/store/store.go:273-279 | A caller may overwrite its body buffer after a write: store and reply still have the bytes that were written |
| Decimal.Itoa | internal/store/store.go:83-103 | For every 64-bit integer the printer writes, within its 20 bytes, a text that reads back as that integer: canonical digits with a sign, and a lone sign for the least |
| Decimal.IntTextReadsBack | internal/store/store.go:83-103 | Every text the printer writes stands for one integer only, over the whole 64-bit range |
| Decimal.WriteDigits | internal/store/store.go:91-97 | The digit loop leaves at least one byte free and the canonical digits in the buffer's tail |
| Decimal.ValueOfPrint | internal/store/store.go:83-103 | Reading the decimal of a number gives the number back |
| Decimal.PrintOfValue | internal/store/store.go:83-103 | Printing the value of a canonical decimal gives the text back, so the form is unique |
| Routing.Partition | internal/routing/routing.go:32-39 | The hash loop with its final mask returns the 64-bit FNV-1a hash modulo the partition count |
| Routing.ValidIsPow2 | internal/routing/routing.go:41-45 | The bit test accepts exactly the powers of two |
| Bits.MaskIsMod | internal/routing/routing.go:38-38 | Masking with a power of two less one is the remainder by it |
| Routing.KnownHashes | internal/routing/routing.go:23-39 | The hash has the published FNV-1a values of the empty text and of "a" |
| Routing.HashLowBits | internal/routing/routing.go:32-39 | Running the whole hash loop modulo the partition count gives the same partition, for every key |
| Routing.DoublingSplits | internal/routing/routing.go:32-39 | Doubling the partition count splits each partition in two and mixes no others |
| Routing.RangesTile | internal/routing/routing.go:61-87 | Ranges are consecutive from 0 to the partition count, every partition is in its owner's range and in no other, sizes differ by at most one with the larger first, and no intermediate value exceeds the partition count |
| Routing.RangeEnds | internal/routing/routing.go:61-82 | RangeFor gives node i the span from its boundary to the next node's |
| Routing.RangeRefused | internal/routing/routing.go:62-70 | A range is given exactly for a position of the cluster and a power of two, and a refusal names the fault there is |
| Routing.NoIdleNode | internal/routing/routing.go:144-146 | Every node owns a partition exactly when there are at most as many nodes as partitions |
| Rebalance.BoundariesInterlace | internal/routing/routing.go:61-82 | Adding a node puts each old boundary between the two new ones around it |
| Rebalance.OwnerMovesByOne | internal/routing/routing.go:61-82 | Adding a node leaves a partition with its owner index or moves it to the next one, and says which |
| Rebalance.MovedIsSlides | internal/routing/routing.go:61-82 | The number of partitions that move is the sum of the boundary shifts Lo(i,n) - Lo(i,n+1) for i = 1 to n |
| Rebalance.MovedExactly | internal/routing/routing.go:72-81 | Twice the number of partitions that move is the partition count plus r(n - r) less r'(n + 1 - r'), r and r' being its remainders by n and n + 1 |
| Rebalance.AboutHalfMove | internal/routing/routing.go:72-81 | At least half the partitions less (n + 1)^2 / 8 and at most half plus n^2 / 8 move |
| Rebalance.ExactShareOnlyFromOneNode | README.md:115-117 | Growing to n + 1 nodes moves exactly one partition in n + 1 if and only if n is 1 |
| Rebalance.ThreeToFourNodes | README.md:115-117 | From 3 to 4 nodes, 513 of 1024 partitions move |
| Table.NewTable | internal/routing/routing.go:137-163 | A table is built exactly for one to partition-count ids and a power of two, and gives every partition the id at its owner's position |
| Table.FillRange | internal/routing/routing.go:154-156 | The inner loop sets the partitions of one range and no others |
| Table.Ranges | internal/routing/routing.go:181-191 | The diagnostic map has exactly the ids, each with the range of its last position |
| Table.TableAgreesWithRanges | internal/routing/routing.go:166-191 | With distinct ids a key is routed to a node exactly when the node's range has the key's partition, and every node is routed to |
| RangeText.ShowRoundTrip | internal/routing/routing.go:92-125 | Parsing the printed form gives the range back if and only if it is not empty, counting as non-empty one whose end wrapped to 0 |
| RangeText.ShownText | internal/routing/routing.go:92-97 | A non-empty range shows its first and last partition with a dash, and only a range that ends where it starts shows as empty |
| RangeText.AcceptedText | internal/routing/routing.go:102-125 | Every accepted text, with spaces or as a single number, means the partitions it names and reprints to the same range, if and only if its upper number is not the largest 64-bit one, with the exact exceptions |
| RangeText.PairRead | internal/routing/routing.go:102-125 | Two numbers with a dash, leading zeros and white space around each included, mean the range from the one to the other; a number too large and a reversed pair are refused |
| RangeText.SingleRead | internal/routing/routing.go:108-111 | A single number means its one partition |
| RangeText.OnlyFigures | internal/routing/routing.go:102-125 | Nothing else is accepted: every accepted text is one such number or two with a dash between them |
| Config.LoadNodes | internal/config/config.go:138-160 | A NODES text is accepted exactly when it has an entry, all entries are id=url and no id repeats; ids and addresses are those of the entries in order, and an error names a real fault |
| NodeList.ReadWritten | internal/config/config.go:142-160 | A list written as id=url entries with white space around every part, slashes after urls and blank entries is accepted exactly if it names a node and none twice, and gives just those ids, in order, each with just its url |
| NodeList.EntryRead | internal/config/config.go:147-156 | One such entry is read as its id and its url |
| NodeList.EntryRejected | internal/config/config.go:147-151 | An entry is refused if and only if it has no equals sign or nothing but white space on one side of the first one |
| Config.StartProxy | internal/config/config.go:129-160 | A proxy starts exactly for a power of two and one to that many usable entries; then ids are distinct, table and RangeFor agree for every key, every node is routed to, and every routed node has an address |
| Config.OwnedIsWithinPartitions | internal/config/config.go:75-99 | An accepted node owns only partitions that exist, and an override owns what it names if and only if its upper number is not the largest 64-bit one |
| Deployment.SlotsShareOut | internal/config/config.go:88-99 | Without an override a position is accepted exactly if it is one of the cluster's and the count is a power of two, and each partition is owned at one position and no other, that of its owner |
| Deployment.SlotsFollow | internal/config/config.go:88-99 | The ranges of the positions follow each other from the first partition to the last |
| Deployment.OverrideIsTaken | internal/config/config.go:75-86 | An override lo-hi is accepted exactly if lo is at most hi and hi is a partition, means just those partitions, and is otherwise refused for the fault it has |
| Deployment.StartedIsWellConfigured | internal/config/config.go:107-110 | Nodes started at positions 0 to n - 1 and a proxy started on the list of them are well configured |
| Deployment.StartCluster | internal/config/config.go:121-160 | A proxy that starts on a list, and empty nodes started at the list's positions, answer every run of requests as one node that owns everything |
| Config.LargestOverrideOwnsNothing | internal/config/config.go:75-86 | The override 0-18446744073709551615 is accepted and owns nothing |
| JsonMerge.ApplySlice | internal/jsonmerge/merge.go:30-51 | The merge of two slices writes through neither and returns a slice nobody else has, on both branches; its bytes are the encoded union of the fields with the delta winning, or the delta's own |
| JsonMerge.Overlay | internal/jsonmerge/merge.go:39-41 | The overwriting loop over fields, in any order, computes the union of the two field maps with the delta winning |
| JsonMerge.AsObjectIsExact | internal/jsonmerge/merge.go:58-68 | A text counts as an object exactly when its value is one; null, which would decode into an empty map, does not |
| JsonMerge.LeadingByteDecides | internal/jsonmerge/merge.go:59-62 | The test for an object skips JSON white space and asks for an opening brace, and nothing more |
| JsonMerge.TextMergesAsValues | internal/jsonmerge/merge.go:30-68 | Merging texts is merging values; a replacing merge keeps the delta's bytes |
| JsonMerge.DocumentFromHistory | internal/jsonmerge/merge.go:30-68 | After any run of accepted PUTs and PATCHes the document is the last write if that is no object, and otherwise each top-level field comes whole from the last write that set it since the last PUT or non-object, nulls included |
| JsonMerge.StoredDocument | internal/store/store.go:266-271 | What a store of JSON values holds for a key after any run of calls is the document its accepted writes describe |
| JsonStore.StoredTextIsDocument | internal/store/store.go:266-271 | What the byte store holds for a key after any run of calls decodes to the document its accepted writes describe; it holds nothing exactly when none was accepted |
| JsonStore.RunAlike | internal/jsonmerge/merge.go:30-51 | Every run of the byte store is, slot by slot and version by version, the run of the store of values |
| JsonStore.EveryAnswerParses | internal/node/service.go:130-134 | Over every run of requests, whatever their bodies, no client is given a value that does not parse |
| JsonStore.HandleKeepsParsing | internal/node/service.go:123-147 | One request leaves only text that parses in the store |
| JsonMerge.MergeAssociates | internal/jsonmerge/merge.go:30-51 | Merging is associative if and only if it is not object, non-object, object with a field of the first missing in the last |
| CasCounter.CounterCountsIncrements | test/conformance/suite.go:179-217 | For any number of guarded increments over a network that loses or delays requests and loses replies, in every reachable state value equals version, no increment is applied twice, acknowledged ones are applied once, and acknowledged <= version <= acknowledged + failed + pending |
| CasCounter.AllAcknowledgedNoneLost | test/conformance/suite.go:171-179 | If every increment was acknowledged, value and version are the number of increments |
| CasCounter.LosingTakesRivals | test/conformance/suite.go:180-216 | In every reachable state a call has met at most as many conflicts as the counter's version, so it can run out of its 500 attempts only in a run of more than 500 increments, after 500 were applied |
| CasCounter.AloneIsAcknowledged | test/conformance/suite.go:182-216 | An increment that runs alone over a good network reads, writes once and is acknowledged, and the counter has gone up by one |
| CasCounter.OnlyExhaustionFails | test/conformance/suite.go:204-216 | A call whose client never gives up fails only by running out of attempts, never by a conflict before that |
| CasCounter.FinishedMeansCounted | test/conformance/suite.go:171-217 | In a run of up to 500 increments of which none was given up, once all have finished all are acknowledged and the counter is their number |
| CasCounter.LateWriteApplies | internal/proxy/nodecaller.go:60-64 | A run in which a write arrives after its client gave up, and is applied |
| CasCounter.StepKeepsInv | test/conformance/suite.go:182-215 | Every step of any client or of the network keeps the counter's invariant |
| CounterRequests.ForwardServesCounter | internal/proxy/nodecaller.go:60-89 | What a correctly configured cluster does with the client's texts over a good, dead or reply-losing link is what the counter machine does, and what the client reads off the response, number and version included, is the machine's reply; refused requests change nothing and are heard as neither success nor conflict |
| CounterRequests.NodeServes | internal/node/handler.go:92-130 | A node serves the spelled-out request as the counter machine serves the request, and its response reads as the machine's reply, or it refuses without effect |
| CounterRequests.GuardsReadBack | internal/node/handler.go:218-248 | The guards the client prints are parsed as it meant them, unless the version is too large, which is refused |
| CounterCluster.ClusterRefinesCounter | test/conformance/suite.go:179-217 | Every execution of clients, proxies, links and nodes, with other keys written and anything read through any proxies, is an execution of the counter machine |
| CounterCluster.ClusterCountsIncrements | test/conformance/suite.go:179-217 | In every reachable state of every such execution the owner's slot for the key is the text of its own version number, lies between the acknowledged increments and those plus failed and pending ones, and is their number when all are acknowledged; with at most 500 increments no call runs out of attempts |
| CounterCluster.AloneIsAcknowledged | test/conformance/suite.go:182-216 | On the cluster, an increment that runs alone over good links is acknowledged at its first attempt, and the owner's slot holds the next number at the next version |
| CounterCluster.ActsAlike | test/conformance/suite.go:190-214 | What the client does with a response text is what the machine's client does with the reply, or giving up |
| UnguardedCounter.ValueFallsBehindWhenStale | test/conformance/suite.go:219-236 | Without guards value never exceeds version, and is below it if and only if a write based on an outdated reading was applied |
| UnguardedCounter.TwoWritersLoseOne | test/conformance/suite.go:219-236 | A run in which two increments succeed and the counter is 1 at version 2 |
| Node.HandleSlots | internal/node/service.go:123-147 | A request touches no key but its own, and only by being accepted; then the key is owned, one version up, and the response shows the stored value and version |
| NodeAnswers.OtherCountIsRefused | internal/node/handler.go:191-206 | A request that declares another partition count, and not 0, is answered 421 and changes nothing; an unreadable declaration 400; any other declaration makes no difference |
| NodeAnswers.KeyCheckDecides | internal/node/service.go:176-194 | A key is admitted if and only if it is not empty, not too long and owned, and is otherwise answered 404, 414 or 421 for just that fault |
| NodeAnswers.GetAnswers | internal/node/service.go:111-120 | A read changes nothing and answers 200 with exactly what is stored, 404 if an admitted key is absent, or the fault of the key |
| NodeAnswers.GuardsMean | internal/node/handler.go:215-250 | Guards are taken if and only if each is given at most once, the version is a 64-bit number in digits, the flag is true, 1, false or 0, and they do not contradict each other; then they mean what they say |
| NodeAnswers.StoreReplySaid | internal/node/handler.go:274-303 | A write is answered 200 with what it left, a mismatch 409 with the version there is and none if there is none, a contradiction 400 |
| NodeAnswers.PutAnswers | internal/node/handler.go:92-130 | A PUT or PATCH succeeds if and only if it has no fault and its guard holds; then its key alone has the next version and the body, merged into the old value if it is a PATCH of a key that was there, as the response shows; it conflicts exactly when the guard fails, and otherwise its status names a fault it has |
| NodeDocument.NodeHoldsDocument | internal/node/service.go:123-147 | After any run of requests on a node that starts empty, a key's value decodes to the document of its PUTs and PATCHes answered with 200, each in its own mode, its version is their number, and it is there exactly if there was one |
| NodeDocument.PatchMerges | internal/node/handler.go:88-90 | A PATCH answered with 200 leaves the merge of the stored value with its body |
| Node.HandleKeepsSound | internal/node/service.go:176-194 | A node only ever holds keys its own checks accept, at versions above 0 |
| Node.ConflictNamesCurrentVersion | internal/node/handler.go:291-303 | A refused request changes nothing, and a conflict names the current version exactly when the key exists |
| Cluster.ShardingIsTransparent | internal/proxy/handler.go:55-82 | For every node count up to the partition count and every sequence of single-key requests, proxy and nodes give the same responses as one node owning everything |
| Cluster.OtherCountNeverServes | internal/proxy/nodecaller.go:79-82 | A proxy whose partition count differs from the reached node's never gets a success or a stored change out of it: the answer is 421, or 503 if it is lost |
| Cluster.UnreachableIsSaid | internal/proxy/handler.go:59-67 | A node that is unknown or out of reach is answered 503, and nothing happens |
| Cluster.OneRequest | internal/proxy/handler.go:55-82 | One request through the proxy gets the single node's response and keeps the cluster's contents equal to the single node's |
| Cluster.RouteToHome | internal/routing/routing.go:166-168 | The proxy routes each key to the node whose range has its partition |
| Cluster.EmptyClusterMatches | internal/proxy/handler.go:55-82 | Freshly started, cluster and single node hold the same |
| Cluster.NoSilentLoss | internal/node/service.go:151-194 | With a shared partition count and disjoint ranges, and proxies configured in any way: after a success for a key every later read of it finds it at that version or later, is refused as misdirected or too long, or does not get through; it is never told the key is missing |
| Cluster.ForwardKeepsSeparate | internal/node/handler.go:191-206 | No request through any proxy puts a key on a node that does not own it |
| Cluster.OneHomePerKey | internal/node/service.go:183-192 | Each key is stored on at most one node |
| LineMerge.WholeLinesInOrder | internal/proxy/handler.go:89-145 | Under every scheduling, at every moment the response is whole lines plus at most the text of one, each node's lines a prefix of its stream in order; at the end it is an interleaving of the complete streams |
| LineMerge.ScanRendered | internal/node/handler.go:136-165 | Scanning newline-terminated lines gives back exactly those lines |
| LineMerge.ScanSent | internal/proxy/handler.go:132-138 | Of any text the scanner takes the lines without their line feeds and carriage returns, but for empty ones, and an unfinished last line |
| LineMerge.NeverStuck | internal/proxy/handler.go:99-120 | Until all streaming goroutines have returned, one of them can move |
| LineMerge.EveryScheduleEnds | internal/proxy/handler.go:122-145 | Every scheduling of the goroutines is over within a number of steps fixed by the streams |
| ClusterListing.ClusterListing | internal/proxy/handler.go:89-145 | With stores written to concurrently, any scheduling of the goroutines and no failing stream, the response is whole lines, one for each item of a listing in which no key occurs twice, each is attributed to the node that holds it and is its only owner, each node's keys are in its order, and every key present when its node began to list occurs |
| ListingReader.ResponseNamesKeys | internal/proxy/handler.go:89-145 | For any encoder, the lines of the response are those of the keys the nodes list, and a line repeats if and only if the encoder gives two different listed keys the same line |
| ListingReader.LosslessLines | internal/node/handler.go:149-150 | With an injective encoder and distinct ids no line repeats, and a line is there exactly for what its node lists |
| ListingReader.ReaderLearnsKeys | internal/node/handler.go:149-150 | Reading the response tells exactly which keys are on which node, a line for each, if and only if every listed key is well-formed UTF-8; then every key present when its node began to list is told with its owner, and nothing is told that is not there |
| ListingReader.StoredKeysDecide | internal/node/service.go:176-182 | The listing is read exactly if every key stored at its end is well-formed, as it is when no write ever asked for another, and is misread if some key stored at its beginning is not |
| ListingReader.BrokenKeysAreMerged | internal/node/handler.go:149-150 | Two different keys of one broken byte each read as the same key |
| BrokenKey.WriteThenList | internal/store/store.go:142-246 | For every key there is an execution of a node that is asked to write that key and no other, and then lists it |
| BrokenKey.ReaderIsMisled | internal/node/handler.go:149-150 | When a node that was asked to write only the key FF lists it, the reader is told of a key that was never written and not of FF |
| Utf8.SeenAsItIs | internal/node/handler.go:149-150 | Replacing broken bytes leaves a text as it is if and only if it is well-formed UTF-8 |
| Utf8.ValidIsEncoded | internal/node/handler.go:149-150 | A text counts as well-formed if and only if it is the encoding of some sequence of Unicode scalar values |
| ClusterListing.HoldsOnlyWritten | internal/store/store.go:186-205 | In every execution a store holds only keys it was asked to write |
| ClusterListing.HoldsOnlyItsRange | internal/node/service.go:176-194 | A store that is only asked to write keys of a range holds only keys of that range, in every execution |

## Left out

- Version wrap-around: versions are unbounded, so fewer than 2^64 writes per key are assumed. A guard that names a version of 2^64 or more is refused, as its text is (`CounterRequests.GuardsReadBack`). `CounterCluster.IsRun` takes fewer than 2^63 - 1 increments, so that the client's 64-bit counter does not wrap.
- JSON parsing and encoding: a parameter of the model, with the laws it must obey stated where they are used (`JsonMerge.Codec.Lawful`, which speaks only of field maps that come from decoded texts, `ClusterListing.AllFramed`, `ListingReader.ReadsRepaired`, `CounterRequests.ReadsBack`); the unreachable encoding failure in `Apply` is not modelled.
- StoreHeap.Store.Write: has no retry branch, because one call at a time cannot meet it; it is in `StoreProtocol`, where calls interleave.
- StoreHeap.Store.constructor: the partition slice is a constant sequence of partition objects, since it is never assigned again.
- ClusterListing.ClusterListing: assumes that no stream fails, because a stream cut off in the middle of a line still emits the fragment as a line. `LineMerge.WholeLinesInOrder` covers failing streams, with their error lines.
- Go's memory model and lock fairness: a lock is readers or one writer, and each lock operation or access under a lock is one step.
- HTTP mechanics: mux patterns, escaping, timeouts, flushing, logging, health and diagnostics endpoints, 405 answers, bodies that cannot be read.
- Reading the environment, integer and duration parsing, commands and deployment files.
- Invalid UTF-8 in configuration text.
- Replication, quorums and anti-entropy, which are design only.
- Statistical claims about hash spread and load.
- A size limit on merged values: the code checks only the incoming body, so there is none to prove.
