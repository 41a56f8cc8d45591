# Verified core of the Astrate platform

A Dafny model of the parts of Astrate where correctness is hardest, with proofs.
`dafny verify dfyconfig.toml` checks the whole project.

| files | what they model |
|---|---|
| EngineOps, EnginePrev, EngineBatch, EngineShard, EngineMeaning, EngineIntake | the ingestion shard: routing, validation outcome, batching, retries and splits, acknowledgments, previous-value tracking, change events, and what a run leaves in the tables |
| FlowGraph, FlowKahn, FlowSplice, FlowComposite, FlowNames, FlowRun | pipelines: Kahn's algorithm in its three places, inlining of composite blocks, building and running the stage list |
| FlowRouter | the flow router as a state machine over all interleavings of Submit, Drain and lane workers |
| SchemaPath, SchemaTrie, SchemaCompile, SchemaInterface, SchemaMeaning | interface endpoints: parsing, the linked endpoint trie, acceptance, compilation, matching, minor upgrades |
| BsonBytes, BsonCodec, BsonWire | the `{v, t}` BSON codec, its wire form, and the payload format sniffer |
| SessionStore, SessionReplay, SessionQueue | the persistent inflight queue, its replay order, and whole runs of it |
| Wrappers | the optional value all of them share |
| Introspection, Topics, Limiter | introspection events, topic rules of broker and engine, the pairing rate limiter |

Conventions:

- Code that updates state is a class or a method with loops, proved against a specification function
  or relation; pure code is functions. Concurrent code is a state machine whose runs are arbitrary
  sequences of steps.
- The environment is a parameter. A finite script of verdicts says which store round trips and waits
  succeed; a run that outlives its script finds the store down and shutdown requested, so every finite
  run is some script. Which operations the database refuses is a fixed set. The block behaviour of a
  pipeline is a function from state and message to state and messages. Clocks are arguments.
- Map iteration is an arbitrary choice at every step, so nothing proved depends on its order.
- Characters stand for bytes where the source works on byte strings.

Where a property does not hold for all inputs, the exact condition is proved, with an input that breaks it:

- path_created and path_removed events alternate on a path exactly when no purge fell between two
  changes (`EnginePrev.ReportedAlternateIff`, `EnginePrev.PurgeBreaksAlternation`).
- Names made by inlining composites stay unique exactly when no sibling is called like a block inside a
  composite (`FlowNames.NamesUniqueIff`, `FlowNames.DottedNamesCollide`).
- A drained lane has processed everything sent to it exactly when it was started or nothing was sent
  (`FlowRouter.UnstartedLaneKeepsItsMessages`, `FlowRouter.DrainLosesUnstarted`).
- A pipeline that fails to build leaves earlier blocks running exactly when, in topological order, the first
  block that cannot be built has an empty or unknown type and is not the very first; with only known types
  nothing is left running (`FlowRun.Instantiate`, `FlowRun.TypedLeavesNothing`,
  `FlowRun.UnknownTypeLeavesRunning`).
- The snapshot taken from the chain is byte for byte the one a store lookup gives exactly unless a pending
  unset left its own rendering behind; the events fired are the same either way
  (`EnginePrev.SnapshotIsSerial`, `EnginePrev.UnsetLeavesBytes`, `EnginePrev.ChainFiresSerially`).
- Two endpoints rejected as overlapping share a path exactly when no literal over 256 bytes faces a
  placeholder (`SchemaPath.AmbiguousIff`, `SchemaPath.OverlapWithoutPath`).
- An accepted interface compiles exactly when endpoints with a common prefix name the next placeholder
  alike (`SchemaMeaning.AcceptedCompilesIff`, `SchemaMeaning.RenamedPlaceholderDoesNotCompile`).
- Replay by the low 16 bits of the creation time keeps the queue order, whatever sort is used, exactly when
  the low bits rise along the queue; for queues spanning less than 65536 seconds, exactly when the queue
  lies in one 65536-second window (`SessionReplay.ReplayOrderKeptIff`, `SessionReplay.BoundarySwaps`).
- The broker allows a topic the engine resolves exactly when it is at most 512 bytes and its path is more
  than a bare slash (`Topics.BrokerAndEngineAgree`, `Topics.BareSlashIsRefused`).

The documentation of `Trie.Add` calls overlap checking the parser's business; the parser accepts
placeholder names that `Trie.Add` then refuses. The comment on `prevSnap` promises that two operations
in one flush see each other exactly as a serial processor would, which holds of the events but not of the
raw bytes. The comment on `stopAll` promises that a partially built pipeline leaks nothing, which holds
only for failing constructors. The model follows the code in all three places.

## Model

| member | source | states |
|---|---|---|
| `EngineOps.ReplayIsIdempotent` | internal/engine/batch.go:75-121 | replaying property operations over a table that already holds some of their writes gives the same table as applying them once |
| `EngineOps.ReplayOutside` | internal/engine/batch.go:127-169 | tables that differ only on keys an operation list writes agree again once it is applied |
| `EngineBatch.RetryIsInvisible` | internal/engine/batch.go:75-121 | failed commit attempts leave no trace in the final books |
| `EngineBatch.SettlesAppend` | internal/engine/batch.go:86-94 | settling two consecutive slices is settling their concatenation |
| `EngineBatch.Batcher.Ack` | internal/engine/batch.go:171-185 | an acknowledgment is released at most once, and for a committed message only after a commit attempt that covered it |
| `EngineBatch.Batcher.MarkBroken` | internal/engine/batch.go:193-200 | an operation whose row conversion fails is flagged, consumed and acknowledged once |
| `EngineBatch.Batcher.WriteProperties` | internal/engine/batch.go:127-160 | one pass writes live property operations in arrival order and collects the datastream operations; on failure only touched keys differ |
| `EngineBatch.Batcher.Commit` | internal/engine/batch.go:127-169 | success applies exactly the live operations once and makes the slice durable; failure stores no datastream row |
| `EngineBatch.Batcher.Compact` | internal/engine/batch.go:177-185 | the in-place compaction keeps exactly the live operations in order |
| `EngineBatch.Batcher.Finalize` | internal/engine/batch.go:175-189 | acknowledges every committed operation once and feeds the live ones to the observers in order |
| `EngineBatch.Batcher.FlushOps` | internal/engine/batch.go:75-121 | whatever the pattern of failures, refusals and splits, the slice is settled: each operation has a fate its nature explains, committed ones reach observers and rows once in arrival order, the property table is the serial one unless something was abandoned, and nothing is abandoned without shutdown |
| `EngineBatch.Batcher.Split` | internal/engine/batch.go:86-94 | committing a poisoned slice one operation at a time settles it as a whole |
| `EngineBatch.Batcher.Flush` | internal/engine/batch.go:61-72 | the pending batch is settled and its previous-value chain forgotten |
| `EnginePrev.SnapshotIsSerial` | internal/engine/data.go:361-439 | the captured previous value is what a processor committing every operation immediately would read, and equal in its bytes exactly unless an unset is pending |
| `EnginePrev.LatestIsNewest` | internal/store/datastreams.go:244-251 | the sample a lookup of a series answers has its newest timestamp |
| `EnginePrev.ChainFiresSerially` | internal/engine/engine.go:227-282 | the chained snapshot fires exactly the value_change, path_created, path_removed and value_change_applied events of the serial one |
| `EnginePrev.UnsetLeavesBytes` | internal/engine/data.go:361-439 | set, unset, set in one batch: the last operation keeps the text "null" where a lookup leaves nothing |
| `EnginePrev.EventsAreSerial` | internal/engine/engine.go:227-282 | over any history the events of a watched key are those of a processor that commits every operation at once |
| `EnginePrev.FiresByReadings` | internal/engine/engine.go:227-282 | a first value fires a change, a creation and an applied change; another value the two changes unless it decodes to the same; an unset of a value a removal, with the changes unless the value was null; each event carries the old and the new value |
| `EnginePrev.EventsAreDifferences` | internal/engine/engine.go:227-282 | over any history the events of a watched key are the differences between its consecutive readings |
| `EnginePrev.ChainGrows` | internal/engine/data.go:361-439 | the in-batch chain stays the reading of the store plus the pending operations |
| `EnginePrev.ChangesAlternate` | internal/engine/engine.go:227-282 | on a watched properties path creations and deletions alternate, starting from whether the path exists |
| `EnginePrev.ReportedAlternateIff` | internal/engine/engine.go:227-282 | the reported path_created and path_removed events strictly alternate exactly when no purge wiped the path between two changes |
| `EnginePrev.PurgeBreaksAlternation` | internal/engine/control.go:83-111 | a set, purge, set history reports two creations in a row |
| `EngineShard.AccountedFlush` | internal/engine/batch.go:61-121 | a flush keeps every taken message in exactly one of settled or pending, each with a fate that fits it |
| `EngineShard.SerialFlush` | internal/engine/router.go:347-356 | a flush that abandons nothing turns the pending part of a fault-free run into store state |
| `EngineShard.SerialAccept` | internal/engine/data.go:305-334 | accepting one operation extends the serial processor's run by that operation |
| `EngineShard.SerialPurge` | internal/engine/control.go:83-111 | a purge with an empty batch is a purge of the serial processor's state |
| `EngineShard.Shard.TrackPrevious` | internal/engine/data.go:361-439 | the snapshot comes from the chain, else from the store; a failed lookup leaves the operation untracked |
| `EngineShard.Shard.FlushShard` | internal/engine/router.go:347-356 | afterwards the batch is empty, the timer disarmed, order and conservation kept |
| `EngineShard.Shard.Handle` | internal/engine/data.go:153-203 | introspection, control and capabilities messages are handled with the batch flushed |
| `EngineShard.Shard.RunHandler` | internal/engine/data.go:165-203 | handlers run only with the batch empty; a handled purge deletes exactly what its list does not keep; a message is given up only at shutdown |
| `EngineShard.Shard.RunPurge` | internal/engine/control.go:83-111 | a property survives exactly when it belongs to another realm or device, or to an interface the device does not own, or is listed; its value is kept, and the serial correspondence too |
| `EngineShard.Shard.AcceptData` | internal/engine/data.go:305-334 | the message joins the batch with its snapshot, and the run still refines the serial processor if nothing went wrong with its operations |
| `EngineShard.Shard.Turn` | internal/engine/router.go:306-345 | one loop turn takes one message, keeps the batch below its cap and the timer armed while a batch waits |
| `EngineShard.Shard.ShardPass` | internal/engine/router.go:306-345 | over any sequence of arrivals, deliveries, timer events, closing and cancellation, order, conservation and acknowledgment are kept, and unless an operation was refused, broken, untracked or abandoned the shard refines the serial processor; a loop that ends on its closed channel leaves no message unsettled |
| `EngineShard.CleanIsBlameless` | internal/engine/data.go:205-334 | whatever the batching, timers and outages: if every data message converts, is taken by the database and has its lookup, and shutdown did not come, nothing went wrong with any operation |
| `EngineShard.BlamelessRunIsSerial` | internal/engine/router.go:306-345 | such a run leaves the tables of the serial processor, pending operations aside, shows the observers its operations in order, fires for every watched key exactly the differences between its consecutive readings, and creations and removals take turns |
| `EngineShard.Shard.Finish` | internal/engine/router.go:306-345 | when the channel is closed and empty the last flush settles every message that ever arrived |
| `EngineMeaning.MessageMeans` | internal/engine/data.go:305-334 | by the fields of a message: a set leaves its value under its key, an unset removes the key, a sample is one row with its key, value and timestamp at the end of the individual or object table, and what does not convert changes nothing |
| `EngineMeaning.LastMessageDecides` | internal/engine/data.go:205-334 | whatever the batching, timers and outages of a clean run, the last message addressing a property decides: a set leaves its value, an unset or a purge that does not list it leaves nothing |
| `EngineMeaning.UnaddressedStays` | internal/engine/data.go:205-334 | a property no message addresses stays as it was at the start of the run |
| `EngineMeaning.TablesHoldCommittedSamples` | internal/engine/batch.go:127-169 | in every run, with failures and refusals, the datastream tables are the rows of the committed samples: key, value and timestamp of their messages, in arrival order, each once |
| `EngineIntake.RoutingKeepsDevices` | internal/engine/router.go:218-253 | all messages of a device go to one shard in submission order |
| `EngineIntake.DeviceOrder` | internal/engine/router.go:218-253 | the operations of a device reach the commit observers as a subsequence of its submission order |
| `EngineIntake.DeviceOrderFromIntake` | internal/engine/router.go:218-253 | the same order result for a shard fed from the bounded channels |
| `EngineIntake.Intake.Submit` | internal/engine/router.go:218-236 | a message is enqueued exactly when the engine is open and its channel has room; a full channel drops only QoS 0 messages and makes others wait; drops are counted by cause |
| `FlowGraph.ForwardIsAcyclic` | internal/flow/factory.go:157-200 | a graph whose connections all point forward in some order has no cycle |
| `FlowGraph.StuckHasCycle` | internal/flow/factory.go:180-199 | blocks that all wait for each other contain a cycle |
| `FlowKahn.CountDegrees` | internal/flow/factory.go:157-172 | in-degrees and successor lists count every connection, multi-edges included |
| `FlowKahn.TopoOrder` | internal/flow/factory.go:157-200 | succeeds exactly on acyclic graphs, and then returns a permutation of the blocks with every connection forward, sources first, blocks in the order in which they become ready, and those made ready by one block in declaration order |
| `FlowKahn.OrderIsUnique` | internal/flow/factory.go:157-200 | readiness and declaration leave no choice: the order is a function of the graph |
| `FlowKahn.Validate` | internal/flow/pipeline.go:47-156 | accepts exactly non-empty, well-formed, acyclic pipelines with an id; the source and sink checks never fail |
| `FlowKahn.ValidateStored` | internal/store/pipelines.go:46-98 | the store's validator accepts the same definitions whatever order it visits ready blocks in |
| `FlowSplice.ChainOrderIsUnique` | internal/flow/factory.go:157-200 | a linear pipeline has one topological order |
| `FlowSplice.SpliceTopological` | internal/flow/composite.go:95-129 | splicing ordered parts into an ordered graph gives the concatenated order as a topological order |
| `FlowSplice.SpliceChain` | internal/flow/composite.go:95-129 | splicing chains into a chain gives the chain of the chains |
| `FlowSplice.SpliceWellFormed` | internal/flow/composite.go:95-129 | splicing keeps names unique and connections between declared blocks |
| `FlowComposite.FlatNodesAreBuiltin` | internal/flow/composite.go:55-130 | no resolvable composite is left after expansion |
| `FlowComposite.CheckInnerGraph` | internal/flow/composite.go:136-156 | accepts exactly unique non-empty names and connections between them |
| `FlowComposite.MoveEnds` | internal/flow/composite.go:118-125 | connections into a composite move to its first block, connections out of it to its last, others stay |
| `FlowComposite.ExpandNode` | internal/flow/composite.go:59-117 | what replaces one node and where it is entered and left, or the first check it fails: lookup, composite inside itself, depth 32, missing or empty body |
| `FlowComposite.Expand` | internal/flow/composite.go:55-130 | terminates for every resolver; with dot-free bodies fails exactly where some node cannot be expanded, with the first such reason in declaration order, and never at the second cycle check; keeps well-formedness and acyclicity; a linear pipeline becomes the chain of its stages |
| `FlowNames.NamesUniqueIff` | internal/flow/composite.go:102-111 | expanded names are unique exactly when no sibling clashes with a composite's inner name, at any level |
| `FlowNames.DottedNamesCollide` | internal/flow/composite.go:102-111 | a composite "a" with block "b" beside a block "a.b" |
| `FlowRun.RunSplits` | internal/flow/graph.go:47-64 | a stage list does not care how its input is batched, even with stateful blocks |
| `FlowRun.RunAppend` | internal/flow/graph.go:47-64 | running two stage lists in turn is running their concatenation |
| `FlowRun.ExpansionPreservesMeaning` | internal/flow/composite.go:55-130 | the expanded stages give the same messages, block states and failures as running each composite as one block |
| `FlowRun.Run` | internal/flow/graph.go:47-64 | the nested loops compute the stage-list semantics, failing exactly when it fails; sources alone return the message and keep their states; one other block returns what its step returns |
| `FlowRun.SourcesPass` | internal/flow/graph.go:47-64 | a list of sources lets every message through and changes no state |
| `FlowRun.OneBlockSteps` | internal/flow/graph.go:47-64 | one block that is not a source does to a message exactly what its step says |
| `FlowRun.SourcesAreSkipped` | internal/flow/graph.go:47-64 | running a list is running it without its sources: same messages, failures and states |
| `FlowRun.Instantiate` | internal/flow/factory.go:105-142 | succeeds exactly when the pipeline is valid and every block can be built; it builds in topological order up to the first block that cannot be built, names why, and leaves the built ones running exactly when that block has no known type and is not the first |
| `FlowRun.TypedLeavesNothing` | internal/flow/factory.go:121-140 | with only known types a failed build leaves nothing running |
| `FlowRun.UnknownTypeLeavesRunning` | internal/flow/factory.go:123-129 | a two-block chain whose second type is unknown leaves the first block running |
| `FlowRun.BuildsTheStages` | internal/flow/factory.go:105-142 | building an expanded linear pipeline yields its stage list |
| `FlowRun.RunExpanded` | internal/flow/composite.go:24-42 | expand, build and run one message: the outcome of the pipeline with composites taken as single blocks |
| `FlowRouter.LaneOf` | internal/flow/router.go:235-247 | the loop computes the 64-bit FNV-1a hash reduced to a lane |
| `FlowRouter.FnvVectors` | internal/flow/router.go:235-247 | the hash has the published FNV-1a values of the empty string and of "a" |
| `FlowRouter.Reachable` | internal/flow/router.go:124-212 | lock, lane and log invariants hold in every state of every interleaving |
| `FlowRouter.NothingSentAfterQuit` | internal/flow/router.go:164-178 | once quit is closed no lane ever receives another message |
| `FlowRouter.DrainIsComplete` | internal/flow/router.go:164-212 | after Drain returned nil, every started lane has processed every accepted message exactly once, in order, and no other |
| `FlowRouter.UnstartedLaneKeepsItsMessages` | internal/flow/router.go:109-114 | when Drain returns nil a lane has processed all it was sent exactly if it was started or nothing was sent |
| `FlowRouter.DrainLosesUnstarted` | internal/flow/router.go:109-114 | a run in which Drain returns nil while an accepted message is still in the buffer of a lane that was never started |
| `FlowRouter.KeyOrder` | internal/flow/router.go:124-160 | of two accepted messages with one key, one submitted after the other returned is never processed first |
| `FlowRouter.OutcomesAreJustified` | internal/flow/router.go:124-160 | a message is refused only by a closed router and dropped only under its QoS overflow policy |
| `FlowRouter.DroppedWhenFull` | internal/flow/router.go:135-157 | a dropped message met a lane holding as many messages as it can, QoS 0 under its own overflow policy and the others under theirs |
| `SchemaPath.ValidIdentifier` | pkg/interfaceschema/parse.go:530-547 | the scan accepts exactly identifiers |
| `SchemaPath.SplitEndpoint` | pkg/interfaceschema/parse.go:473-502 | the loop parses exactly the well-formed endpoints of up to 64 levels, trailing slashes refused |
| `SchemaPath.PrintParses` | pkg/interfaceschema/parse.go:473-526 | every valid pattern is what its printed form parses to |
| `SchemaPath.ParsePrints` | pkg/interfaceschema/parse.go:473-526 | an endpoint that parses prints back to itself |
| `SchemaPath.NormalIsInjective` | pkg/interfaceschema/parse.go:649-664 | two endpoints have the same canonical text exactly when they differ only in placeholder names |
| `SchemaPath.AmbiguousIff` | pkg/interfaceschema/parse.go:554-593 | two endpoints match a common path exactly when they overlap at every level and no literal over 256 bytes faces a placeholder |
| `SchemaPath.OverlapWithoutPath` | pkg/interfaceschema/parse.go:554-593 | a placeholder beside a literal over 256 bytes counts as overlapping though no path matches both |
| `SchemaTrie.SearchIsSound` | pkg/interfaceschema/trie.go:124-151 | what the backtracking search returns belongs to a pattern that matches |
| `SchemaTrie.SearchIsComplete` | pkg/interfaceschema/trie.go:124-151 | the search finds a match whenever there is one |
| `SchemaTrie.EndpointTrie.Add` | pkg/interfaceschema/trie.go:71-108 | the in-place walk is the table insertion, with the same refusals and the same nodes left behind by a refused one |
| `SchemaTrie.EndpointTrie.MatchNode` | pkg/interfaceschema/trie.go:124-151 | matching over linked nodes is the search over the table |
| `SchemaTrie.EndpointTrie.Match` | pkg/interfaceschema/trie.go:113-119 | short and unrooted paths never match; others are searched from the root |
| `SchemaCompile.InsertIff` | pkg/interfaceschema/trie.go:71-108 | adding an endpoint succeeds exactly when it is new and names no placeholder differently, and adds just it |
| `SchemaCompile.BuildIff` | pkg/interfaceschema/compile.go:70-95 | a list of endpoints can be added exactly when no two coincide or disagree on a placeholder name |
| `SchemaInterface.CompareLevels` | pkg/interfaceschema/parse.go:567-582 | the level loop decides overlap and identity |
| `SchemaInterface.CheckEndpointUniqueness` | pkg/interfaceschema/parse.go:560-593 | accepts exactly pairwise non-overlapping endpoints; a duplicate or conflict names an offending pair |
| `SchemaInterface.CheckObjectAggregation` | pkg/interfaceschema/parse.go:599-622 | accepts exactly a shared prefix, literal keys and uniform attributes |
| `SchemaInterface.CheckInterface` | pkg/interfaceschema/parse.go:248-339 | accepts exactly the structurally valid interfaces |
| `SchemaInterface.Compile` | pkg/interfaceschema/compile.go:47-106 | succeeds exactly when identifiers resolve, endpoints parse, cohere, and object keys are distinct literals; the trie then holds exactly the declared endpoints and the key table exactly the object keys |
| `SchemaMeaning.LookupIsScan` | pkg/interfaceschema/trie.go:113-151 | for every path the trie answers what a linear scan of the declared endpoints answers |
| `SchemaMeaning.MatchGivesMapping` | pkg/interfaceschema/compile.go:70-95 | a declared endpoint with its placeholders filled in matches to the attributes of that mapping under its stored endpoint identifier, 0 when there are none |
| `SchemaMeaning.MatchComesFrom` | pkg/interfaceschema/trie.go:113-151 | a path that matches is some declared endpoint filled in |
| `SchemaMeaning.LeafGivesMapping` | pkg/interfaceschema/compile.go:85-102 | the key table of an object gives each literal key the attributes and identifier of its mapping, and has no other key |
| `SchemaMeaning.OrderIsIrrelevant` | pkg/interfaceschema/trie.go:71-151 | declaration order does not change what a path matches |
| `SchemaMeaning.AcceptedCompilesIff` | pkg/interfaceschema/compile.go:47-106 | all endpoints of an accepted interface go into one trie, and it compiles given its identifiers, exactly when placeholder names agree |
| `SchemaMeaning.RenamedPlaceholderDoesNotCompile` | pkg/interfaceschema/trie.go:79-90 | two placeholder names side by side are accepted and do not compile |
| `SchemaMeaning.ObjectsCompile` | pkg/interfaceschema/compile.go:47-106 | object-aggregated interfaces always compile |
| `SchemaMeaning.AnyLeafWillDo` | internal/engine/data.go:453-459 | for every prefix every object key gives the same answer |
| `SchemaMeaning.ObjectPathOk` | internal/engine/data.go:453-459 | the check accepts exactly the declared prefix filled in, whichever key is tried |
| `SchemaMeaning.CheckMinorUpgrade` | pkg/interfaceschema/compat.go:32-88 | classifies each rejection and accepts exactly the additive upgrades |
| `SchemaMeaning.UpgradeKeepsPaths` | pkg/interfaceschema/compat.go:23-88 | every path the old version matches is matched by the new one with the same attributes |
| `SchemaMeaning.UpgradeIsTransitive` | pkg/interfaceschema/compat.go:32-88 | upgrades compose |
| `SchemaMeaning.UpgradeIsIrreflexive` | pkg/interfaceschema/compat.go:44-51 | no version upgrades itself, and no two versions upgrade each other |
| `BsonBytes.LeRoundTrip` | pkg/payload/bson.go:213-225 | little-endian fields read back |
| `BsonBytes.ParseDocBack` | pkg/payload/bson.go:219-228 | a written document parses to its elements, its length prefix being its exact size |
| `BsonCodec.FinishDoc` | pkg/payload/bson.go:219-228 | terminates and back-patches, refusing sizes over the int32 range |
| `BsonCodec.FinishIsDoc` | pkg/payload/bson.go:219-228 | header, hole and elements finish as one element holding the nested document |
| `BsonCodec.FinishNested` | pkg/payload/bson.go:219-228 | the patched bytes are the destination followed by one element holding the whole nested document, or nothing exactly when that document exceeds the int32 range |
| `BsonCodec.CollectKeys` | pkg/payload/bson.go:321-325 | the key order does not depend on map iteration |
| `BsonCodec.AppendScalar` | pkg/payload/bson.go:231-282 | appends exactly the element of a scalar, refusing what may not be sent |
| `BsonCodec.AppendSlice` | pkg/payload/bson.go:297-312 | appends exactly the array document of up to 1024 elements |
| `BsonCodec.AppendObject` | pkg/payload/bson.go:317-343 | appends exactly the embedded document in key order; empty objects, bad keys and nested objects are refused |
| `BsonCodec.AppendElement` | pkg/payload/bson.go:231-293 | appends exactly the recursive serialisation of any value |
| `BsonCodec.Encode` | pkg/payload/bson.go:184-200 | the back-patched bytes are the recursive serialisation of value and timestamp, and are sniffed as BSON |
| `BsonCodec.Detect` | pkg/payload/sniff.go:22-41 | the scanning loop classifies as documented |
| `BsonCodec.TextIsNotBson` | pkg/payload/sniff.go:17-20 | text without a zero byte is never taken for BSON |
| `BsonCodec.DecodedFits` | pkg/payload/bson.go:60-131 | whatever the bytes, a decoded value has its declared type, is within the caps on arrays, strings and times, and holds only finite doubles |
| `BsonCodec.DecodedObjectFits` | pkg/payload/bson.go:137-173 | whatever the bytes, a decoded object is not empty, has only declared keys, and each value fits the type of its leaf |
| `BsonCodec.DecodedEnvelopeFits` | pkg/payload/bson.go:31-56 | whatever the bytes, a decoded timestamp is a whole millisecond within the representable years |
| `BsonCodec.EntriesIff` | pkg/payload/bson.go:149-172 | the entry loop succeeds exactly when keys are declared leaves without repetition and every value decodes, and then holds exactly these |
| `BsonCodec.DecodeObject` | pkg/payload/bson.go:137-173 | succeeds exactly on a non-empty document of distinct declared keys whose values decode; the result has exactly those keys and values |
| `BsonCodec.ScalarBack` | pkg/payload/bson.go:60-131 | each scalar decodes at its declared type to itself, times to the millisecond |
| `BsonWire.WireForm` | pkg/payload/bson.go:231-282 | element type and value bytes of every scalar, in numbers |
| `BsonWire.EnvelopeForm` | pkg/payload/bson.go:184-200 | `v` first, then `t` as a datetime; arrays are of type 4, objects of type 3 |
| `BsonWire.LittleEndian` | pkg/payload/bson.go:213-225 | four and eight bytes are read least significant first |
| `BsonWire.IndexKeys` | pkg/payload/bson.go:297-312 | array keys are the indexes in decimal without leading zeros |
| `BsonWire.KeyOrderIs` | pkg/payload/bson.go:321-325 | object keys are ordered lexicographically by bytes |
| `BsonWire.OthersFail` | pkg/payload/bson.go:60-131 | which element types each declared type is read from, and of what size; every other pair fails |
| `BsonWire.Int32Forms` | pkg/payload/bson.go:60-131 | a 32-bit integer decodes as integer, long and double to itself or its conversion |
| `BsonWire.Int64Forms` | pkg/payload/bson.go:60-131 | a 64-bit integer decodes as long to itself, as integer exactly where it fits, as double exactly where the conversion is exact |
| `BsonWire.DoubleForms` | pkg/payload/bson.go:60-131 | a double decodes to itself exactly when finite, as integer exactly when it is one |
| `BsonWire.TextForm` | pkg/payload/bson.go:60-131 | a string decodes exactly when it is UTF-8 of at most 65536 bytes |
| `BsonWire.BlobForm` | pkg/payload/bson.go:60-131 | a binary decodes to its bytes whatever its subtype |
| `BsonWire.OtherForms` | pkg/payload/bson.go:60-131 | booleans, and datetimes exactly within the representable years |
| `BsonWire.ArrayIff` | pkg/payload/bson.go:60-131 | an array decodes exactly when each element does, to the elements in order |
| `BsonWire.DetectIff` | pkg/payload/sniff.go:22-41 | a payload is BSON exactly when it starts with its own length and ends in zero, else JSON exactly when its first byte that is not white space is an opening brace |
| `BsonCodec.PayloadRoundTrip` | pkg/payload/bson.go:31-343 | every payload that can be sent decodes to its value and timestamp |
| `SessionStore.PrefixIsOwner` | internal/broker/sessionstore.go:457-470 | with NUL-free identifiers a key has a client's prefix only if it is that client's |
| `SessionStore.NulBreaksOwnership` | internal/broker/sessionstore.go:457-470 | an identifier with a NUL can own another client's key |
| `SessionStore.KeysAreDistinct` | internal/broker/sessionstore.go:465-470 | different client and packet identifiers have different keys |
| `SessionStore.PrefixIsExact` | internal/broker/sessionstore.go:501-523 | dropping a client removes exactly its own records |
| `SessionStore.Store.OnQosPublish` | internal/broker/sessionstore.go:211-240 | a new message goes to the end of the queue, a resent one keeps its place |
| `SessionStore.Store.OnQosComplete` | internal/broker/sessionstore.go:243-250 | a completed or dropped message leaves the queue, the rest keeps its order |
| `SessionStore.Store.OnSessionEstablish` | internal/broker/sessionstore.go:257-286 | only the client's expired messages are pruned |
| `SessionStore.Store.DropClient` | internal/broker/sessionstore.go:501-523 | exactly the keys under the client's prefix disappear |
| `SessionStore.Store.Discard` | internal/broker/sessionstore.go:511-523 | the discarded messages leave, the rest keeps its order |
| `SessionStore.Store.PruneExpired` | internal/broker/sessionstore.go:322-345 | exactly the expired messages are dropped at restart |
| `SessionReplay.SortGroup` | internal/broker/sessionstore.go:404-408 | the in-place insertion sort is the stable sort by sequence number |
| `SessionReplay.SortIsQueueOrder` | internal/broker/sessionstore.go:387-421 | sorting by sequence number restores the order of first queueing whatever order records are read in |
| `SessionReplay.ClampFacts` | internal/broker/sessionstore.go:409-417 | creation times become strictly increasing, never move back, and nothing else changes |
| `SessionReplay.ClampIsLeast` | internal/broker/sessionstore.go:409-417 | no creation time is moved further than strictly rising times must |
| `SessionReplay.NormalizeInflightOrder` | internal/broker/sessionstore.go:392-421 | each client gets its own records, sorted and clamped |
| `SessionReplay.StoredInflightMessages` | internal/broker/sessionstore.go:322-350 | after a restart each client's replay list is its live unexpired messages in order of first queueing |
| `SessionQueue.Take` | internal/broker/sessionstore.go:211-250 | every step on the keyed store is the same step on a plain list: new messages at the end, resent ones in place, completed, dropped and expired ones gone |
| `SessionQueue.ExpiryDecides` | internal/broker/sessionstore.go:257-345 | a message without expiry outlives every restart and resume; one with an expiry outlives a restart exactly when its time is not reached; a resume of a session with nothing queued drops nothing |
| `SessionQueue.Live` | internal/broker/sessionstore.go:322-421 | after any sequence of steps and a restart, each client's replay list is its part of the list those steps make, clamped |
| `SessionReplay.ReplayOrderKeptIff` | internal/broker/sessionstore.go:387-391 | every sort of the clamped queue by the low 16 bits keeps its order exactly when they rise along it; within a 65536-second span, exactly when it lies in one window |
| `SessionReplay.KeptIffRising` | internal/broker/sessionstore.go:387-391 | distinct records come through every sort by the low bits unchanged exactly when the bits rise |
| `SessionReplay.BoundarySwaps` | internal/broker/sessionstore.go:387-391 | two messages a second apart across a window boundary swap |
| `Introspection.FireAdded` | internal/engine/introspection.go:77-83 | replaying the added events adds exactly the newly declared pairs |
| `Introspection.FireRemoved` | internal/engine/introspection.go:84-88 | replaying the removed events removes exactly the dropped pairs |
| `Introspection.GainAndLose` | internal/store/devices.go:225-239 | the newly declared and dropped pairs lead from the old set to the new |
| `Introspection.Compare` | internal/store/devices.go:225-239 | the loop returns exactly the pairs no longer declared and merges them into the old ones |
| `Introspection.Device.UpdateIntrospection` | internal/store/devices.go:225-246 | the row is replaced; exactly the pairs no longer declared are returned and merged into the old ones |
| `Introspection.Device.HandleIntrospection` | internal/engine/introspection.go:52-90 | replaying the message's events on the old pairs gives the new ones; a store failure changes and fires nothing |
| `Introspection.Device.HandleAll` | internal/engine/introspection.go:35-90 | the events of any sequence of introspections reconstruct the current pairs, and every name ever declared is current or old |
| `Topics.MatchInterface` | internal/engine/topics.go:85-97 | the loop finds the longest declared prefix at a slash boundary |
| `Topics.FirstSegmentWins` | internal/engine/topics.go:79-97 | with slash-free names that is the first segment |
| `Topics.PublishIff` | internal/broker/aclhook.go:50-75 | within 512 bytes a device may publish to its root, its capabilities, the two control topics and non-empty paths under its declared device-owned interfaces, and to nothing else |
| `Topics.SpecialTopics` | internal/engine/topics.go:42-75 | the engine takes the root for introspection, capabilities for capabilities, and the two control topics for control with their subpath |
| `Topics.UnderBase` | internal/engine/topics.go:42-75 | whatever follows the root of a device is split off unchanged |
| `Topics.AllowedIsResolved` | internal/broker/aclhook.go:50-75 | an allowed publish is the introspection, capabilities, a permitted control message, or data resolved to a declared device-owned interface |
| `Topics.BrokerAndEngineAgree` | internal/broker/aclhook.go:50-75 | a topic the engine resolves is allowed exactly when within the length cap and its path is more than a slash |
| `Topics.BareSlashIsRefused` | internal/broker/aclhook.go:69-72 | the converse fails for a path that is a bare slash |
| `Limiter.Limiter.constructor` | internal/pairing/ratelimit.go:35-50 | non-positive parameters are replaced |
| `Limiter.Limiter.Allow` | internal/pairing/ratelimit.go:54-79 | refill and take on one key, tokens within [0, burst], a request a full refill after the last is allowed |
| `Limiter.AllowAll` | internal/pairing/ratelimit.go:54-79 | in any interleaving of keys, each key is answered as if it were alone |
| `Limiter.WindowBound` | internal/pairing/ratelimit.go:54-79 | requests allowed in any window are at most burst plus rate times its length |
| `Limiter.BurstIsAllowed` | internal/pairing/ratelimit.go:54-79 | the first `burst` requests of a fresh key are all allowed |
| `Limiter.FilledSinceFull` | internal/pairing/ratelimit.go:54-79 | a request finds the burst plus all that was refilled less what was allowed since the bucket was last full |
| `Limiter.RefusalMeansSpent` | internal/pairing/ratelimit.go:54-79 | a refusal means less than one token was left of burst and refill since some earlier request |
| `Limiter.PatientIsAllowed` | internal/pairing/ratelimit.go:54-79 | waiting a full refill is always enough |

## Left out

- Panics and restarts of shard goroutines, metrics, logging, tracing.
- The validation of a data message before it becomes an operation (interface lookup, decoding, type checks) is an input of the shard model: each message carries its outcome.
- Shard routing by hash: the engine model takes the device-to-shard map as given; the same FNV-1a loop is modelled for the flow router.
- EngineIntake.Intake.Submit: a sender blocked on a full channel shows up as an answer to try again; who is woken first is not modelled.
- EnginePrev.SnapshotIsSerial: for datastreams it assumes that timestamps rise strictly in arrival order, because the store reads the newest timestamp, in no particular order among equal ones, and the chain the latest arrival.
- The typed columns of datastream rows: whether a row converts is a fact of the operation.
- FlowRun.Run: which block an error names is not modelled, only whether the run fails.
- Fan-out and fan-in at run time: the source flattens such graphs in topological order; meaning is stated for linear pipelines.
- SubstituteConfig: a library gives each composite its decoded body per node configuration.
- FlowRouter.DrainIsComplete: a Drain that returns by timeout promises nothing.
- The order in which a write lock makes waiting readers queue.
- SchemaInterface.CheckInterface: the interface name pattern, length bounds and per-type attribute rules are not modelled, because they do not bear on endpoints.
- Decoding of interface JSON, legacy aliases, descriptions, the interface name pattern, per-type attribute defaults.
- Error texts and the order in which several violations are reported.
- BsonCodec.ScalarBack: conversions between doubles and integers are parameters of the decoder, because they are platform arithmetic; values decoded at their own type do not use them.
- The BSON driver is modelled one level deep for the nine element types the codec uses; other element types and the old binary subtype are not.
- The JSON profile of payloads.
- Subscriptions are stored and dropped but not restored; retained messages and client records are not modelled further.
- SessionStore.Store.DropClient: the cursor is taken to visit every key under the prefix.
- Parsing of the introspection payload, and the debounced refresh of the broker's cache.
- Topics.AllowedIsResolved: the subscribe and delivery sides of the access rules are not modelled.
- Limiter.WindowBound: real arithmetic, no eviction of the key, a clock that does not go back.
- TLS, certificates, HTTP endpoints, the dashboard, triggers and their delivery, container blocks.
