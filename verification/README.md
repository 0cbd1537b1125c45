# Verified models of golang_simple_server

Dafny models of the stateful parts of the repository, and proofs of what they promise. `dafny verify dfyconfig.toml`
checks everything. Every theorem is about the models here; where the code and its own comments disagree, the models
follow the code.

| part | files | form |
|---|---|---|
| WebSocket (RFC 6455, sections 5.2 to 5.5) | `FrameCodec` bytes and frames, `Messages` frames and messages, `Connection` the objects, `WriterPump` the send side | parse and encode functions, classes `Conn` and `StreamReader`, step system |
| Key-value store | `KvLog` log, snapshot and replay, `LruList` the recency list, `Eviction` its loops, `KvStore` the store | journal of values, pointer maps, classes `Shard` and `KVStore` |
| Router | `RouteSpec` greedy matching over a plain set of templates, `RouterTree` the trie, `Router` strings, tables, lookup | specification functions, classes `Node`, `Tree`, `Router` |
| Webhook delivery | `Retry` backoff, `DelayHeap` the timer heap, `Delivery` one task, `Webhook` the engine, `DeliveryPages` listing | loops, classes `DelayScheduler`, `Service`, `MemStore`, step system |
| Publish/subscribe | `PubSub` every channel operation interleaved, `Broker` the objects | step system, classes `Subscriber`, `InProcPubSub` |
| Rate limiter, deduper | `RateLimit`, `Dedup` | event traces, classes `RateLimiter`, `TokenBucket`, `Deduper` |

How the pieces connect:

- A method that changes state is proved against a function of the old state; theorems about runs are then lemmas about
  that function or about a step system. `Conn.ReadFrame` is `ParseFrame`, `StreamReader.Read` is a `ReadStep`,
  `KVStore` methods are `Journal` steps, recorded in the ghost field `steps`, `Tree.MatchRoute` is `Greedy`,
  `Router.AddRoute` is one registration of `RegisterAll`, `RateLimiter.Allow` and `Deduper.SeenBefore` are one event, and
  every call of `InProcPubSub` is a run of the machine in `PubSub`, recorded in the ghost field `history`. Laws beside
  these functions, and clauses of the methods that do not name them, say what they compute.
- Goroutines are interleaved in step systems: `WriterPump` (one step a frame, as `writeMu` makes it), `Webhook` (one step
  an access to store, queue or heap, and one to count a send or a refusal; only the counters of one HTTP answer go with
  it) and `PubSub` (one step a channel operation or a counter).
- Clocks, jitter, new ids, HTTP answers, the routing hash and the case folding of ids are parameters.

## Findings

Places where a promised or expected property is false of the code, with the condition under which it holds.

- `moveToFront` (kv.go:365-366) puts the tail of the list on a fresh entry of a non-empty list, so eviction takes the
  newest entry. It keeps the list if and only if the entry is linked already or the list is empty
  (`LruList.AsWrittenExactly`, `LruList.NewestIsEvicted`). `KVStore` has a constant `guardFresh`: false is the code as
  written, true skips the unlinking of an unlinked entry. The log theorems hold for both.
- The eviction loops of `Set` (kv.go:440-447) test global counters and evict from one shard, so they need not end, and
  the shard stays locked. On every list that the code can come to, as written or with the guard, they end if and only if
  deducting its victims makes room (`Eviction.LoopsEndExactly`, `KvStore.KVStore.MakeRoom`, `KvStore.KVStore.Set`): a
  tail with others behind it counts twice and nothing else, any other tail once and then all in front of it. On lists in
  order, which the guard keeps, that is: if and only if the other shards alone leave room for the entry
  (`Eviction.OrderedLoops`), hence with a single shard exactly for entries within the memory limit. Inputs that never
  end: as written, one shard (`Eviction.OneShardCanHang`), and what that loop leaves of it
  (`Eviction.ForgottenCanHang`); with the guard too, two shards (`Eviction.OtherShardCanHang`) and an entry above the
  limit (`Eviction.TooLargeHangs`).
- At the very instant of a snapshot the files show what the store shows if and only if the channel repeats every entry
  that expires just then (`KvLog.AtTheSnapshotInstantExactly`, `KvLog.ExpiringAtTheSnapshotIsLost`).
- A full log channel drops entries (kv.go:847-867). Over all runs, with any drops and snapshots, the files show the store
  if and only if for every key the entries kept have the same last effect to show as all changes
  (`KvLog.FilesTellExactly`); a dropped deletion brings the key back (`KvLog.DroppedDeletionComesBack`), and a
  snapshot taken while the channel has nothing new makes up for all drops before it (`KvLog.SnapshotRestores`).
- The delay before jitter is not always `min(base * 2^(attempt-1), max)` as retry.go:35 says: it is one nanosecond more
  exactly when the doubled value is one short of the maximum (`Retry.DelayExactly`, input `Retry.OneTooLong`); never
  for an even maximum.
- Greedy matching finds every template that matches, for templates with wildcards in last place only, if and only if no
  prefix has a variable continuation beside another one (`RouteSpec.CompleteExactly`, input `RouteSpec.LiteralHidesParameter`). Whatever is registered, it records every
  value if and only if no segment of the request is `:` or `*` (`RouteSpec.ValuesKeptExactly`, input
  `RouteSpec.SpelledVariableLosesItsValue`).
- `insertChild` (router.go:298) makes two bytes of a first byte from 0x80 on, so that places in `indices` are no longer
  places among the children, and reads the first byte of an empty segment. A registration panics exactly if the first
  key that has no node is empty or has its place behind all children, or a later one is empty
  (`RouterTree.Tree.Add`, `Router.Router.AddRoute`). For keys that start as UTF-8 does that is, over the plain set of
  templates: a key that is not there yet is empty, or starts with 0xC3 or more beside one that starts beyond ASCII
  (`Router.Router.StuckMeansCrowded`, `Router.SecondPanicsExactly`): "/über" after "/élan", and "/élan" after "/¢" but
  not the other way round (`Router.AccentsPanic`); for other keys it is not (`RouterTree.OthersLoseTheirPlace`).
- An unfinished delivery has a task if and only if none was refused by the queue, lost on the way from the heap
  (delay_heap.go:114) or dropped because its target was missing or disabled (service.go:322-324); nothing ever takes up
  one that has none (`Webhook.HasTaskExactly`).
- Cleanup of idle buckets is invisible if and only if the rate times the idle time reaches the capacity, or nothing is
  ever allowed (`RateLimit.InvisibleExactly`), and exactly then the rate bound holds (`RateLimit.RateBoundExactly`).
- A nil `NextAt` in a patch (service.go:391, 403) does not clear the stored time (store_mem.go:142): a final delivery
  still has a time for its next attempt if and only if it took more than one (`Webhook.FinalKeepsTimeExactly`, input
  `Webhook.SuccessWithNextAttempt`).
- Following `next_cursor` yields each delivery once if and only if the last id of every page, trimmed
  (webhook_out.go:222), is not empty and folds like no earlier id and like its own (`DeliveryPages.PagesExactly`, inputs
  `DeliveryPages.CaseMattersToPages` and `DeliveryPages.SpaceMattersToPages`).
- `WriteMessage` accepts any opcode, and the peer gets what was accepted if and only if all of it was text or binary
  (`WriterPump.AllArriveExactly`, input `WriterPump.PongIsNoMessage`).
- The `drop_oldest` counter counts every eviction, also one that found the channel emptied by its reader, so with
  readers running it can exceed the messages lost (`PubSub.CountersAccount`, input `PubSub.DropThatWasNone`); `Close`
  leaves the subscriber gauges as they are (`PubSub.CloseLeavesGauges`).
- With a wall clock that goes back a key is let through again within its time to live if and only if some sweep since
  its last call to be let through found it expired (`Dedup.SeenExactly`, input `Dedup.ClockBackForgets`).
- A 64-bit payload length with the top bit set is negative after conversion (ws.go:188), passes the limit test and
  panics, the error `NegativeLength` here: exactly for inputs of fourteen bytes or more whose second byte is 0xFF and
  whose third is 0x80 or more (`FrameCodec.NegativeLengthExactly`, input `FrameCodec.NegativeLengthHappens`).

## Model

| member | source | states |
|---|---|---|
| FrameCodec.FrameRoundTrip | pkg/net/websocket/ws.go:161-221 | every allowed frame, masked with any key, in any length form that can hold its length and with any reserved bits, is read back unchanged, and exactly its bytes are consumed |
| FrameCodec.AcceptedIsEncoding | pkg/net/websocket/ws.go:161-221 | whatever is accepted is such an encoding of the frame returned, followed by the bytes left |
| FrameCodec.AcceptedExactly | pkg/net/websocket/ws.go:161-221 | reading answers a frame and a rest if and only if the input is an encoding of that allowed frame followed by that rest |
| FrameCodec.NegativeLengthExactly | pkg/net/websocket/ws.go:184-195 | the panic on a negative length happens exactly for inputs of at least fourteen bytes that announce a masked 64-bit length with the top bit set |
| FrameCodec.NegativeLengthHappens | pkg/net/websocket/ws.go:184-195 | a fourteen-byte input that does |
| FrameCodec.ManyRoundTrip | pkg/net/websocket/ws.go:161-221 | for every list of frames and choices of the sender, repeated reading of the concatenated encodings returns those frames and consumes every byte |
| FrameCodec.BigEndianRoundTrip | pkg/net/websocket/ws.go:175-191 | a length that fits in k bytes survives writing and reading |
| FrameCodec.FromBigEndianRoundTrip | pkg/net/websocket/ws.go:175-191 | and so does any byte string that is read as a number |
| FrameCodec.MaskIsInvolutive | pkg/net/websocket/ws.go:206-208 | unmasking with the same key undoes masking |
| FrameCodec.XorIsBitwise | pkg/net/websocket/ws.go:206-208 | a bit of an unmasked byte is set if and only if it is set in one of masked byte and key byte and not in the other |
| FrameCodec.ErrorsExactly | pkg/net/websocket/ws.go:161-221 | the answer for every input that holds no allowed frame, by its bytes: ended before the header, in the length, before the key or in the payload, not masked, too long, a control frame that is fragmented or too long |
| FrameCodec.RfcExamples | pkg/net/websocket/ws.go:161-265 | the examples of RFC 6455 section 5.7: the masked "Hello" is read as "Hello", and the server writes the bytes given there, for the three length forms |
| FrameCodec.ServerFormIsShortest | pkg/net/websocket/ws.go:238-254 | no other form that can hold the length is as short as the one chosen |
| FrameCodec.ServerRoundTrip | pkg/net/websocket/ws.go:224-265 | a client reads a written frame back and consumes exactly its bytes |
| FrameCodec.ServerWireRoundTrip | pkg/net/websocket/ws_test.go:176-220 | a client that reads all the bytes written finds exactly the frames written, in order, and leaves whatever is no frame after them |
| FrameCodec.CutIsNoFrame | pkg/net/websocket/ws.go:256-264 | a written frame cut short anywhere is not read as a frame |
| Messages.FragmentsReceived | pkg/net/websocket/ws.go:456-484 | a receiver of RFC 6455 section 5.4 makes exactly the message of its fragments, from any offset on |
| Messages.FragmentsExactly | pkg/net/websocket/ws.go:456-484 | a message is cut every 64 KiB and nowhere else, the first frame has its opcode and the others that of a continuation, and only the last has FIN |
| Messages.ControlsAreInvisible | pkg/net/websocket/ws.go:304-316 | control frames anywhere between fragments change nothing for the receiver |
| Messages.ReadsDeliverTheMessage | pkg/net/websocket/ws.go:283-345 | whatever the buffer sizes, the chunks up to the first error are exactly the bytes of the message, that error is its ending, and it comes after at most one read per byte |
| Messages.DrainFollowsReceiver | pkg/net/websocket/ws.go:297-343 | in mid-message the reader completes the same message at the same frame as the receiver |
| Messages.DrainEnds | pkg/net/websocket/ws.go:297-343 | a message that is cut off: the reader gives exactly the bytes that the receiver holds, then the error that ended the connection; a close ends it with end of file and a new data frame with an error of its own |
| Messages.DrainSkips | pkg/net/websocket/ws.go:304-322 | in mid-message, pings, pongs and unknown opcodes take nothing away from what follows, and only pings are answered |
| Messages.TruncatedMessageTells | pkg/net/websocket/ws.go:283-395 | opening and reading the first message of a stream that breaks off in the middle of it |
| Messages.OpenSkips | pkg/net/websocket/ws.go:354-395 | before a message everything but data frames and closes is skipped; then come the error that ended the connection, the end of file of a close, or the message |
| Messages.ClientFindsReplies | pkg/net/websocket/ws.go:304-316 | the client finds in the bytes of the replies one pong for each ping and one close for each close, in order, with their payloads, and nothing else |
| Messages.ReadOneFollowsReceiver | pkg/net/websocket/ws.go:354-395 | opening and reading one message takes what the receiver takes up to its next message, and replies to the control frames on the way |
| Messages.ServerFollowsReceiver | pkg/net/websocket/ws.go:283-395 | over every protocol-conforming run without a close, the server reads exactly the messages the receiver assembles, in order, sends exactly the replies due, and leaves frames that complete no further message |
| Messages.FragmentedMessageReadsBack | pkg/net/websocket/ws.go:283-395 | a message cut into fragments, with any pings and pongs between them, is read as that message and then end of file |
| Messages.WireDecodes | pkg/net/websocket/ws.go:161-221 | any masked encodings of frames decode to those frames, so the message theorems hold of bytes |
| Connection.Conn.ReadFrame | pkg/net/websocket/ws.go:161-221 | frame or error and the bytes left are those of the parse function, error for error |
| Connection.Conn.ReadLength | pkg/net/websocket/ws.go:175-191 | the three length forms, read into buffers |
| Connection.Conn.ReadBody | pkg/net/websocket/ws.go:193-220 | limit, key, payload and control checks in the order of the code |
| Connection.Conn.Unmask | pkg/net/websocket/ws.go:206-208 | the array unmasked in place is the masked payload, and every byte is told bit by bit from what it was and from its key byte |
| Connection.Conn.WriteFrame | pkg/net/websocket/ws.go:224-265 | the header filled byte by byte and the payload are the server encoding, appended to the output |
| Connection.Conn.PumpMessage | pkg/net/websocket/ws.go:456-484 | the fragment loop writes the encodings of exactly the message's fragments |
| Connection.Conn.ReadMessageStream | pkg/net/websocket/ws.go:354-395 | the first data frame or the right error, replies written, and a reader whose pending bytes are the rest of the message |
| Connection.StreamReader.Pull | pkg/net/websocket/ws.go:297-343 | one frame taken from the connection keeps what is pending, its bytes and its ending, and the replies due; an unfinished reader keeps knowing its opcode, so a new data opcode is an error |
| Connection.StreamReader.Read | pkg/net/websocket/ws.go:283-345 | one read takes a chunk off what is pending, or reports the ending that `DrainEnds` and `DrainFollowsReceiver` tell once nothing is left, and writes the replies due |
| WriterPump.StepKeepsInv | pkg/net/websocket/ws.go:401-490 | accepting any opcode, rejecting, taking, writing a fragment, pings, replies, failing after any byte of a frame and closing all keep: accepted is taken then queued, and, while only text and binary were accepted, the wire holds whole runs then part of one |
| WriterPump.FramesNeverInterleave | pkg/net/websocket/ws.go:442-490 | in every interleaving with text and binary messages the data frames on the wire are the whole fragment runs of the messages taken, in queue order, then a proper prefix of at most one more |
| WriterPump.PeerReceivesPrefix | pkg/net/websocket/ws.go:442-490 | at every moment the peer has received, without protocol error, a prefix of the accepted text and binary messages and of the next one; once the queue of an open connection is drained and no write has failed, all of them |
| WriterPump.ClientBytesCarryPrefix | pkg/net/websocket/ws.go:224-265 | and exactly the same, the partial message included, from the bytes on the wire, also when the last frame was cut short |
| WriterPump.AllArriveExactly | pkg/net/websocket/ws.go:401-490 | once everything is written to an open connection without failure, the peer holds what was accepted if and only if all of it was text or binary |
| WriterPump.PongIsNoMessage | pkg/net/websocket/ws.go:401-409 | a run in which a message with the opcode of a pong does not arrive |
| KvLog.ReplayPerKey | pkg/store/kv/kv.go:789-830 | what replay leaves for a key is the effect of the last log entry for it |
| KvLog.LogKeepsRecoverable | pkg/store/kv/kv.go:837-867 | a logged change keeps the files able to recover the store, also on top of a snapshot, whatever is still in the channel |
| KvLog.WriteKeepsRecoverable | pkg/store/kv/kv.go:245-275 | moving an entry from channel to file keeps that |
| KvLog.SuffixIsSettled | pkg/store/kv/kv.go:775-833 | replaying any suffix of entries that the store already shows changes nothing |
| KvLog.LoggedIsKept | pkg/store/kv/kv.go:837-867 | logged changes for which the channel has room are all in it, in order, after what was there, and none is dropped |
| KvLog.SnapshotKeepsRecoverable | pkg/store/kv/kv.go:632-712 | a snapshot that empties the log keeps that, although older entries are still in the channel |
| KvLog.FilesRecoverTheStore | pkg/store/kv/kv.go:715-833 | after any run without a drop since the files last had all there was, snapshot plus log recover what the store shows, at every time after the last snapshot; without a snapshot, every value, expiry and version |
| KvLog.AtTheSnapshotInstantExactly | pkg/store/kv/kv.go:666-671 | at the snapshot's own instant they do so if and only if the channel repeats every entry that expires just then, whatever was dropped before |
| KvLog.ExpiringAtTheSnapshotIsLost | pkg/store/kv/kv.go:666-671 | a store in which the entry is visible in memory and gone from the files |
| KvLog.SnapshotRestores | pkg/store/kv/kv.go:632-712 | a snapshot taken while the channel has nothing new makes the files recover the store, whatever was dropped before |
| KvLog.FilesTellExactly | pkg/store/kv/kv.go:837-867 | over all runs with any drops and snapshots, the files show the store after the last snapshot if and only if for every key the entries kept have the same last effect to show as all changes; without a snapshot they hold it exactly if the effects are the same |
| KvLog.DroppedDeletionComesBack | pkg/store/kv/kv.go:862-866 | when the channel is full, a deletion is dropped and brings the key back, with or without a snapshot |
| LruList.RemoveIsRemove | pkg/store/kv/kv.go:400-413 | on a list that represents a recency order, removal leaves the order without that entry |
| LruList.RemoveTailDropsLast | pkg/store/kv/kv.go:381-394 | the tail is the least recently used entry, and removing it drops the last |
| LruList.MoveToFrontIsFront | pkg/store/kv/kv.go:354-379 | a linked entry moves to the front and all others keep their order; with the guard, a fresh one too |
| LruList.AsWrittenExactly | pkg/store/kv/kv.go:354-379 | as written, the list keeps representing the order if and only if the entry is linked or the list empty |
| LruList.NewestIsEvicted | pkg/store/kv/kv.go:354-418 | two insertions from empty make the newest entry the tail, and evicting twice loses track of a stored one |
| LruList.SamePrefix | pkg/store/kv/kv.go:354-418 | the pointers represent one order only |
| LruList.RemoveKeepsKnit | pkg/store/kv/kv.go:396-413 | removing any entry, linked or not, from any list that the code as written can come to keeps its pointers in agreement |
| LruList.MoveToFrontKeepsKnit | pkg/store/kv/kv.go:354-379 | and so does moving any entry, linked or fresh, to the front |
| Eviction.KeepIsLongestFittingPrefix | pkg/store/kv/kv.go:440-447 | what eviction keeps is a prefix of the recency order that fits, and a prefix fits if and only if it is no longer: the evicted suffix is the shortest that makes room |
| Eviction.LoopsEndExactly | pkg/store/kv/kv.go:381-447 | on every list that the code can come to, wherever its tail is, the loops end if and only if deducting every victim makes room, and then within that many rounds |
| Eviction.OneShardCanHang | pkg/store/kv/kv.go:440-447 | as written, with one shard and an entry within the limit, the loop evicts one entry twice and never ends |
| Eviction.ForgottenCanHang | pkg/store/kv/kv.go:440-447 | on what those evictions leave, a list that no order spells out, the loop does not end either |
| Eviction.OtherShardCanHang | pkg/store/kv/kv.go:440-447 | with room taken by another shard the loop never ends, with or without the guard |
| Eviction.TooLargeHangs | pkg/store/kv/kv.go:440-447 | an entry above the memory limit never fits, even in an empty store |
| Eviction.OrderedLoops | pkg/store/kv/kv.go:440-447 | on a list in order the loops end if and only if what is stored elsewhere leaves room, within one round per entry, and keep exactly the longest prefix that fits |
| KvStore.Shard.MoveToFront | pkg/store/kv/kv.go:354-379 | the in-place updates of the two maps, head and tail are the list operation |
| KvStore.Shard.Delete | pkg/store/kv/kv.go:396-413 | the same for removal |
| KvStore.KVStore.constructor | pkg/store/kv/kv.go:147-184 | an empty store satisfies all invariants, with no steps behind it |
| KvStore.KVStore.DeleteFromShard | pkg/store/kv/kv.go:396-418 | map, list and both counters after a deletion |
| KvStore.KVStore.EvictLRU | pkg/store/kv/kv.go:381-394 | as written and with the guard, the list and both counters are those of one eviction at the tail, whose deletion is logged in the channel if there is room, and nothing from an empty list; on a list in order it takes the last entry |
| KvStore.KVStore.EvictForRoom | pkg/store/kv/kv.go:440-447 | the two loops are evictions one after the other, up to the first point with room and not beyond |
| KvStore.KVStore.MakeRoom | pkg/store/kv/kv.go:440-447 | on whatever list there is, the loops end if and only if deducting the victims makes room; on a list in order, which the guard keeps, if and only if the other shards alone leave room, and then they keep exactly the longest fitting prefix |
| KvStore.KVStore.NothingElsewhere | pkg/store/kv/kv.go:440-447 | on lists in order, which the guard keeps, a single shard has nothing elsewhere, so `Set` ends whenever the entry is within the memory limit |
| KvStore.KVStore.FilesTell | pkg/store/kv/kv.go:715-867 | of the store itself, whatever was dropped: the files show what it shows if and only if the entries kept have the same last effects to show as all changes; if none were dropped, they do |
| KvStore.KVStore.Set | pkg/store/kv/kv.go:422-476 | the new record, version, size and expiry; within both limits, after the fewest evictions that make room; unless read-only every change is logged, evictions first and the new record last, and all of them are in the channel if it has room; its loops end exactly as `MakeRoom` says; on lists in order, which the guard keeps, the new entry in front of exactly what eviction keeps |
| KvStore.KVStore.Get | pkg/store/kv/kv.go:478-538 | value, not found or expired with the clock read twice; expired entries go, with a logged deletion, and nothing else is logged; hits move to the front, hit and miss counters |
| KvStore.KVStore.Delete | pkg/store/kv/kv.go:540-561 | removes exactly that key from view, list, order and counters, with one logged deletion that is in the channel if it has room, or reports that it is missing |
| KvStore.KVStore.CleanExpired | pkg/store/kv/kv.go:322-351 | leaves exactly the unexpired entries; unless read-only every deletion is logged, and in the channel if it has room |
| KvStore.KVStore.AppendLog | pkg/store/kv/kv.go:837-867 | a change and its log entry are one step of the journal: logged in the channel if it has room, else dropped, or not logged at all by a read-only store |
| KvStore.KVStore.WriteWal | pkg/store/kv/kv.go:245-293 | one entry from channel to file: one write step of the journal |
| KvStore.KVStore.Snapshot | pkg/store/kv/kv.go:632-691 | the shards' unexpired entries, and no others, go to the file and the log file is emptied: one snapshot step of the journal |
| KvStore.KVStore.LoadData | pkg/store/kv/kv.go:715-833 | loading rebuilds exactly snapshot then log, with list and counters right |
| KvStore.KVStore.ReplayWal | pkg/store/kv/kv.go:775-833 | replay into the shards is replay of the journal, with list and counters right |
| RouteSpec.GreedySound | pkg/router/router.go:409-444 | below any node reached, the values fill the variables of the rest of the template, substituting them gives the request back, and the template matches it |
| RouteSpec.ValuesGiveRequestBack | pkg/router/router.go:409-444 | for every request that spells no variable key, substituting the values into the template found gives the request path |
| RouteSpec.ValuesMissingExactly | pkg/router/router.go:415-419 | the values fall short of the variables of the template found exactly where the request spells their keys |
| RouteSpec.ValuesKeptExactly | pkg/router/router.go:409-444 | all values are recorded, whatever templates are registered, if and only if no segment of the request is the key of a variable |
| RouteSpec.SpelledVariableLosesItsValue | pkg/router/router.go:447-455 | a request that spells one is matched without its value |
| RouteSpec.FoundMatches | pkg/router/router.go:409-444 | a template found matches the request in the declarative sense |
| RouteSpec.CompleteExactly | pkg/router/router.go:409-444 | for templates with wildcards in last place only: matching without backtracking finds exactly the matching templates, for all plain requests, if and only if no prefix has a variable continuation beside another |
| RouteSpec.LiteralHidesParameter | pkg/router/router.go:413-426 | a request that a registered template matches and the router does not find |
| RouteSpec.ValuesAt | pkg/router/router.go:409-444 | of the template found, the value of each parameter is the segment at its place, and that of a wildcard everything from its place on |
| RouteSpec.PrefersLiterals | pkg/router/router.go:413-426 | at every place the template found has the literal segment if some template goes on with it, else the parameter if some template does |
| RouterTree.Tree.FindChild | pkg/router/router.go:249-285 | the child with that key, if and only if there is one |
| RouterTree.Tree.InsertChild | pkg/router/router.go:288-302 | the new child is added and no other, with the index bytes aligned to the children; or the panic, exactly if there is no first byte or its place in the index bytes lies behind all children |
| RouterTree.PlaceIsRight | pkg/router/router.go:288-302 | for keys that start as UTF-8 does, the place found in the index bytes is the place among the children, unless the byte is 0xC3 or more and some child lies beyond ASCII, when it is behind all of them |
| RouterTree.OthersLoseTheirPlace | pkg/router/router.go:288-302 | two first bytes that start no UTF-8 character together, where the second has no place |
| RouterTree.Tree.NodesArePrefixes | pkg/router/router.go:187-210 | the trie has a node for a path exactly if some registered template starts with it |
| RouterTree.Tree.Visit | pkg/router/router.go:188-210 | one round of registration reaches or makes the child and counts the route there, or panics exactly if there is no child and no place for one |
| RouterTree.Tree.StuckExactly | pkg/router/router.go:288-302 | for keys that start as UTF-8 does, registration finds a place for every key if and only if the plain set of templates leaves one |
| RouterTree.Tree.Add | pkg/router/router.go:170-219 | a new template is added to the plain set with its handler and parameter names, a duplicate is refused, an insertion without a place panics, each exactly when it should; every node's priority stays the number of routes at or below it |
| RouterTree.Tree.MatchRoute | pkg/router/router.go:409-444 | handler, values and parameter names are those of greedy matching over the plain set of templates |
| Router.CompileTemplate | pkg/router/router.go:477-501 | the segments of a path, in order, with kind and parameter name |
| Router.JoinSplit | pkg/router/router.go:342 | joining the parts of a path gives the path |
| Router.SplitJoin | pkg/router/router.go:432 | and splitting joined parts gives the parts |
| Router.TrimExactly | pkg/router/router.go:342 | trimming takes slashes from both ends, all of them, and nothing else |
| Router.TemplateTells | pkg/router/router.go:477-501 | a part that starts with a colon is a parameter and one that starts with an asterisk a wildcard, named by the rest of it; any other part stands for itself |
| Router.NameAt | pkg/router/router.go:477-501 | the names of a template are those of its parameters and wildcards, in order |
| Router.BindExactly | pkg/router/router.go:357-364 | a name is bound exactly if it stands at a place that has a value, and then to the value at its last such place |
| Router.ParamsTell | pkg/router/router.go:347-364 | if a template with distinct names is found for a plain request, every parameter is answered with the segment at its place and the wildcard with everything from its place on |
| Router.ServeTells | pkg/router/router.go:312-364 | over plain tables: the own route of the method that is found, else the one found for any method, else not found; the root has no such fallback once the method has a table |
| Router.BindFinds | pkg/router/router.go:357-364 | with distinct names, every variable's value is found under its name |
| Router.Router.AddRoute | pkg/router/router.go:152-222 | exactly one route more in the table of its method, or the panic that applies (frozen, duplicate, empty segment or key without a place) and no route more, for every path |
| Router.Router.StuckMeansCrowded | pkg/router/router.go:152-222 | while all keys start as UTF-8 does, the panic for want of a place depends on the templates registered alone |
| Router.Router.Freeze | pkg/router/router.go:93-98 | no more routes, and the ones there are stay |
| Router.Router.Lookup | pkg/router/router.go:312-364 | over the registered routes: an own route of the method that is found gives handler and values; if none is found, the route found for any method does; not found only if neither is; the root has no fallback once the method has a table |
| Router.TablesAreTheSet | pkg/router/router.go:152-222 | after any sequence of successful registrations the tables hold exactly those routes |
| Router.OrderDoesNotMatter | pkg/router/router.go:152-222 | and so do not depend on the order of registration |
| Router.SecondPanicsExactly | pkg/router/router.go:288-302 | beside one registered segment another one, both starting as UTF-8 does, panics if and only if they differ, both lie beyond ASCII, and the new one starts with 0xC3 or more |
| Router.AccentsPanic | pkg/router/router.go:288-302 | two pairs of paths that panic, one of them in one order only |
| Retry.BackoffDelay | pkg/net/webhookout/retry.go:36-49 | the doubling loop computes the exponential rule, plus one nanosecond exactly if the doubled value is one short of the maximum, and never exceeds 64 bits |
| Retry.DelayExactly | pkg/net/webhookout/retry.go:34-49 | the delay is that of the rule if and only if the doubled value is not one short of the maximum, and never off by more than one |
| Retry.OneTooLong | pkg/net/webhookout/retry.go:34-49 | a base, a maximum and an attempt with a nanosecond too much |
| Retry.EvenLimitIsExact | pkg/net/webhookout/service.go:527-532 | with an even maximum, such as whole milliseconds, it is the rule |
| Retry.DelayMonotone | pkg/net/webhookout/retry.go:34-49 | later attempts never wait less, and none more than the maximum |
| Retry.NextBackoff | pkg/net/webhookout/retry.go:34-53 | the time from now is the delay times the jitter, rounded down, and so between half and one and a half delays |
| DelayHeap.RootIsMinimum | pkg/net/webhookout/delay_heap.go:23-28 | the root of the heap is due no later than any other item |
| DelayHeap.DelayScheduler.Up | pkg/net/webhookout/delay_heap.go:21 | sifting up restores the heap, keeps the items and every index |
| DelayHeap.DelayScheduler.Down | pkg/net/webhookout/delay_heap.go:22 | so does sifting down |
| DelayHeap.DelayScheduler.Schedule | pkg/net/webhookout/delay_heap.go:49-57 | exactly one item more, heap and indices right |
| DelayHeap.DelayScheduler.Pop | pkg/net/webhookout/delay_heap.go:111 | takes an item that is due no later than any other, and only that |
| DelayHeap.DelayScheduler.FlushDue | pkg/net/webhookout/delay_heap.go:98-116 | ends after at most one round per item; what was taken plus what is left is what there was; taken in order of time, nothing early, nothing due left at the last clock reading |
| Delivery.VerdictExactly | pkg/net/webhookout/service.go:362-404 | with the limit of target or configuration: success exactly for 2xx answers; a retry exactly below the limit after a transport error, 5xx, 408, or 429 where target or configuration ask for it; death exactly for other failures at the limit |
| Delivery.Service.UpdateDelivery | pkg/net/webhookout/store_mem.go:128-167 | all other deliveries stay, and of this one every field the patch leaves out |
| Delivery.Service.HandleTask | pkg/net/webhookout/service.go:316-405 | in every branch: unchanged without delivery or enabled target, dead without payload, else the status and the counters that attempt, limit, answer and the 429 setting call for, written out from target and configuration; a retry is scheduled exactly for the next attempt stored, which lies within the backoff |
| Webhook.WorkMovesTasks | pkg/net/webhookout/service.go:302-405 | a step of a worker moves a task, loses it, or settles it with a final status, and makes none |
| Webhook.StepMovesTasks | pkg/net/webhookout/delay_heap.go:98-116 | a step of anybody keeps the number of tasks and losses of a delivery, but for its creation and its final status |
| Webhook.OnlyTheHolderWrites | pkg/net/webhookout/service.go:316-405 | only the worker that holds a delivery's task changes the delivery |
| Webhook.AtMostOneTask | pkg/net/webhookout/service.go:167-204 | in every reachable state a delivery has at most one task across queue, heap and all hands, and one only while pending or retrying |
| Webhook.HasTaskExactly | pkg/net/webhookout/service.go:266-324 | in every reachable state an unfinished delivery has a task if and only if none was refused, lost on the way from the heap, or dropped for want of an enabled target; a finished one has none |
| Webhook.NeverHandledTwice | pkg/net/webhookout/service.go:302-314 | no two workers are busy with the same delivery |
| Webhook.FinalIsForever | pkg/net/webhookout/service.go:387-404 | a delivery that is success, failed or dead never changes again in any run |
| Webhook.CountersMatchTheStore | pkg/net/webhookout/service.go:316-405 | whenever no worker is in mid-task, the counters are exactly the numbers of deliveries in each final status and of attempts |
| Webhook.EnqueuedAndDropped | pkg/net/webhookout/service.go:266-300 | in every reachable state enqueued and dropped, with what is about to be counted, are all deliveries but those being enqueued and the refused replays, which no counter shows |
| Webhook.AttemptsAreBounded | pkg/net/webhookout/service.go:362-371 | if no target ever allows more than M retries, no delivery is attempted more than max(1, M) times |
| Webhook.FinalKeepsTimeExactly | pkg/net/webhookout/service.go:387-404 | in every reachable state a final delivery still has a retry time if and only if it took more than one attempt |
| Webhook.SuccessWithNextAttempt | pkg/net/webhookout/store_mem.go:142-144 | a run in which a delivery is answered 503, retried and answered 200, and keeps a time for its next attempt |
| Webhook.TaskRuns | pkg/net/webhookout/service.go:316-405 | a worker that is not interrupted brings the engine to the state that the whole method promises |
| DeliveryPages.Insert | pkg/net/webhookout/store_mem.go:205-210 | keeps the list sorted by (created, id) and adds exactly that record |
| DeliveryPages.ListingIsUnique | pkg/net/webhookout/store_mem.go:187-210 | a store and a filter determine the listing |
| DeliveryPages.LessExactly | pkg/net/webhookout/store_mem.go:205-210 | ids are in lexicographic order: at the first difference the smaller character decides, and a prefix comes first |
| DeliveryPages.MemStore.CreateDelivery | pkg/net/webhookout/store_mem.go:111-126 | one record more, under its own id and with the time of its creation, and no other touched |
| DeliveryPages.MemStore.ListDeliveries | pkg/net/webhookout/store_mem.go:176-230 | the page after the cursor of the sorted listing; every record of it is stored and has the target, event and status asked for and lies within the times; at most as many as the limit in force, in order; without a cursor, what is missing is not asked for or comes after a full page |
| DeliveryPages.PagesExactly | pkg/core/webhook_out.go:222-258 | following the last id of each page, trimmed as the handler does, until a page is empty yields exactly the listing if and only if the last id of every page leads back to its place |
| DeliveryPages.DistinctIdsAreEnough | pkg/net/webhookout/service.go:536-540 | non-empty ids without outer space that differ when folded are enough for every page size, within one request a record |
| DeliveryPages.CaseMattersToPages | pkg/net/webhookout/store_mem.go:212-222 | two ids that fold alike for which the walk never ends |
| DeliveryPages.SpaceMattersToPages | pkg/core/webhook_out.go:222 | an id with a space before it for which the walk never ends |
| PubSub.DeliverBalances | pkg/pubsub/pubsub.go:169-254 | every stage of a delivery changes the counters, and what is still to be counted, exactly as it changes what the subscription has to show |
| PubSub.StepKeepsInv | pkg/pubsub/pubsub.go:79-254 | every step of publishers, readers and cancellations keeps books, registry, jobs and order |
| PubSub.CountersAccount | pkg/pubsub/metrics.go:42-59 | in every interleaving and every state the counters of a topic, with what publishers have yet to count, account for every delivery; when all is counted, the plain balances hold exactly as far as no eviction found the channel empty and no second send found it full |
| PubSub.CalmCountersAreExact | pkg/pubsub/pubsub.go:169-254 | in runs whose deliveries nobody disturbs: delivered minus drop_oldest is received plus buffered, and deliveries to open subscriptions are delivered plus the three other drops |
| PubSub.DropThatWasNone | pkg/pubsub/pubsub.go:183-197 | a run in which drop_oldest counts a drop although no message is lost |
| PubSub.LinesStayInOrder | pkg/pubsub/pubsub.go:115-150 | whatever the interleaving, what a subscription received followed by its buffer has each publisher's messages in order and none twice, only of its topic, and the buffer stays within its size |
| PubSub.GaugeIsRegistry | pkg/pubsub/pubsub.go:102-112 | until `Close` the gauge is the number of open subscriptions, which are those in the registry |
| PubSub.CloseLeavesGauges | pkg/pubsub/pubsub.go:53-77 | after `Close` the gauge is right only where it was zero |
| Broker.InProcPubSub.Subscribe | pkg/pubsub/pubsub.go:79-113 | a new subscription to the topic, registered and counted, or none if closed or without topic; positive buffer sizes and known policies are kept, others become 16 and drop-oldest; one step of the machine |
| Broker.InProcPubSub.DeliverOldest | pkg/pubsub/pubsub.go:176-197 | the oldest message makes room, and both counters are counted once |
| Broker.InProcPubSub.Deliver | pkg/pubsub/pubsub.go:169-254 | one undisturbed delivery under each policy: the channel takes the message if it has room; a full one loses its oldest message for it, refuses it, or is closed; each counter of the topic changes as the case says |
| Broker.InProcPubSub.RemoveSubscriber | pkg/pubsub/pubsub.go:153-167 | registry and gauge after a removal, nothing if it is not there |
| Broker.InProcPubSub.Publish | pkg/pubsub/pubsub.go:115-150 | every registered subscription of the topic gets the message once, its channel as the policy says, all others are left alone; the counters of the topic are charged with exactly these deliveries, those of others not; the run recorded so far is continued |
| Broker.InProcPubSub.Cancel | pkg/pubsub/pubsub.go:25-33 | closed, out of the registry and the gauge one less, the channel still to be read; nothing the second time; one step of the machine |
| Broker.InProcPubSub.Close | pkg/pubsub/pubsub.go:53-77 | one step of the machine: all subscriptions end, the registry is empty, the counters and gauges stay |
| Broker.DeliveryRuns | pkg/pubsub/pubsub.go:169-254 | an undisturbed delivery, its counting included, is a run of the machine |
| Broker.InProcPubSub.CountersTell | pkg/pubsub/metrics.go:42-59 | between calls the counters tell exactly what was kept and what was offered |
| RateLimit.AllowedArePaid | pkg/middleware/ratelimit.go:56-81 | allowed calls of a key are paid for by the tokens at the start and those earned since |
| RateLimit.RateBound | pkg/middleware/ratelimit.go:56-116 | if rate times idle time reaches the capacity: after any history, with cleanup, the calls of a key allowed in any later window number at most capacity plus rate times its length |
| RateLimit.RateBoundExactly | pkg/middleware/ratelimit.go:56-116 | the rate bound holds of all windows of all runs if and only if rate times idle time reaches the capacity, or the capacity is below one |
| RateLimit.BurstExactly | pkg/middleware/ratelimit.go:72-78 | n calls at one instant are all allowed if and only if the tokens cover n, and then leave n tokens less |
| RateLimit.SameAnswers | pkg/middleware/ratelimit.go:100-116 | if idling refills, the limiter with cleanup gives the same answers as one that never deletes buckets |
| RateLimit.InvisibleExactly | pkg/middleware/ratelimit.go:100-116 | cleanup shows in no run if and only if rate times idle time reaches the capacity, or the capacity is below one |
| RateLimit.RateLimiter.GetBucket | pkg/middleware/ratelimit.go:82-97 | the bucket of the key, a full one if there was none; no two keys share one |
| RateLimit.RateLimiter.Allow | pkg/middleware/ratelimit.go:56-81 | answer and buckets are those of one call event |
| RateLimit.RateLimiter.Cleanup | pkg/middleware/ratelimit.go:104-115 | exactly the buckets idle for too long are gone |
| Dedup.SeenExactly | pkg/net/webhookin/dedup.go:31-52 | whatever the clock does, a key is reported as seen if and only if its last let-through call came less than the time to live before and no sweep since found it expired |
| Dedup.SweepingIsInvisible | pkg/net/webhookin/dedup.go:31-52 | while the clock does not go back, only the last let-through call counts |
| Dedup.ClockBackForgets | pkg/net/webhookin/dedup.go:38-46 | with a clock that goes back a swept key is let through again |
| Dedup.Deduper.SeenBefore | pkg/net/webhookin/dedup.go:31-52 | answer and items are those of one call |

## Left out

- KvStore.KVStore.Set: takes a bound on the rounds of its eviction loops, since they need not end; `done` tells whether they did, and the contract says exactly when they do.
- KvStore.KVStore.Get: reads the clock twice but is one step; a change by another goroutine between its two locks is not modelled.
- KvStore.KVStore.Snapshot: only without a change to the store while it runs; the code gives no guarantee otherwise.
- KvStore.KVStore.LoadData: the version counter, which the code does not restore, plays no part in it.
- Retry.BackoffDelay: negative configured durations are not modelled.
- Retry.NextBackoff: the jittered product is an exact real; its rounding, and an overflow when it is converted back, are not modelled.
- Delivery.Service.HandleTask: HTTP status, error text, duration and response snippet of a patch are not kept; an overflow of configured milliseconds when they are made nanoseconds is not modelled.
- Webhook.AtMostOneTask: a queue of size 0 hands a task directly to a worker; its runs are those of size 1 in which the task is taken at once. The policies for a full queue (queue.go) differ only in how long they wait, which is arbitrary here.
- DelayHeap.DelayScheduler.FlushDue: handing items to the queue, which may lose one when it is full, is in `Webhook`; liveness of `Run` is not claimed, since the code can stop flushing when the head is already due.
- WriterPump.FramesNeverInterleave: the theorem is about runs that accept only text and binary messages, since others do not arrive as messages at all; a queue of size 0 is one of size 1 whose message is taken at once.
- RouterTree.Tree.Add: the trie after a panic of `insertChild` and the middlewares of a node are not modelled.
- Router.Router.AddRoute: groups that share trees with their parent, the list of routes and the registrars are not modelled.
- Broker.InProcPubSub.Publish: the total of published messages and the contents of messages are not modelled; a message is known by its publisher and its number.
- PubSub.GaugeIsRegistry: the moment between a subscription's closed flag and its removal from the registry is not seen, since `Cancel` is one step.
- PubSub.CountersAccount: a cancellation between the closed check and the send of a delivery, where the code would send on a closed channel, is not modelled.
- RateLimit.RateLimiter.Allow: tokens are reals, and a call is atomic, though the code updates a bucket outside the lock.
- DeliveryPages.MemStore.ListDeliveries: the library sort is written as insertion in place.
- Sockets, TLS, handshake, JSON, CRC, gzip, fsync and file names: log and snapshot are sequences and maps of records.
- `pongMonitor`, the hub and its rooms: a timer, and map updates that add only easy members.
- Concurrency limiter, middleware chains, CORS, body limit, static files and configuration: settled by reading one function.
- Tokens, passwords and signatures: foreign cryptography.
- URL and address checks of webhook targets: library calls.
- Listing of targets and matching of event names: the engine creates deliveries for any target.
