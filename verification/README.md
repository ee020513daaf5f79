# A Dafny model of the file storage server

The repository's final project is a file storage server: clients talk to it over a socket, files live in a bounded
in-memory cache with locks, and messages can be compressed. This project models its server side and the library it
shares with the clients, in four parts, and proves what they are for.

**The Huffman codec** (`Bits`, `Sequences`, `Huffman*`). `HuffmanCompress.Compress` follows `compress_data` step by step over arrays:
counting, sorting, the two-queue merge, the stack walk that fills the code table, the size prediction, and the bit
writer for header, tree and content. `HuffmanDecompress.Decompress` follows `decompress_data`: the header, the tree
rebuilt with the stack of fathers, and the three decoding runs. The main results are the round trip for every input
but INT_MAX equal bytes (`HuffmanCodec.CompressThenDecompress`), the code length limit (`HuffmanCompress.BuildTree`: no tree gets higher than 53,
so every code fits its 128 bits), the exact size prediction (`HuffmanCompress.WriteStream`), and optimality: among
the trees the coded form can carry, the one built gives a shortest content exactly when all 256 byte values occur or not
more than one does (`HuffmanCompress.BestTreeIff`).

**The file store** (`CircQueue`, `Store*`, `Cache`, `Reservoir`, `FileSystem`). `Store` states every operation as one
atomic step on a sequence of entries from the least to the most recently used. `FileSystem` is the store in memory: the hash
table, the doubly linked list with its head and tail, one queue of waiting clients per file, and the queue of
notifications; each of its methods is proved to make the step of `Store`. What the steps do is then proved about them:
`StoreEffects` says of each operation, by keys, what is found afterwards, in which order, what is handed out and with
which result; `StoreRecency` that over any run the store forgets the least recently used files first
(`StoreRecency.OrderIsRecency`, `StoreRecency.EvictsLeastRecent`). The other `Store...` modules prove the limits, that
each client told to wait is answered once and in order, and what cleaning up after a client leaves behind.

**The server** (`Protocol`, `Session`, `Handler`, `HandlerEffects`, `Worker`, `Service`, `Server`, `ServerAnswers`,
`ServerQueues`, `ServerSessions`, `ServerDepartures`, `ServerRuns`). `Session` is a client's table of opened files. `Handler` is what a
worker does with one request and `Worker` does it on the objects in memory; `HandlerEffects` proves, for each kind of
request, what it does to the files and to the session and what the answer is. `Service` creates these objects and serves whole runs of requests with them: their
state stays that of the runs of `StoreHistory`, and of the handler's steps for the clients of a session table.
`Server` is the protocol between the select thread, the workers and the lock thread as a state machine over client
descriptors: over every run each live descriptor is in exactly one place and every request is answered exactly once.
`ServerAnswers` proves that the answers a client gets are its own, in order (`ServerAnswers.AnswersInOrder`), and
`ServerQueues` that the queues between the threads lose nothing and keep the order.
`ServerSessions` proves when a session lists every file its client owns or waits for, so that hanging up frees them all,
and `ServerDepartures` what clients leave behind that are gone in another way. `ServerRuns` holds runs from the server's
start that show what goes wrong otherwise.

**The wire format** (`NetFormat`, `NetStream`). Messages are laid out and read back over a stream that may split
every read and write as it likes, with or without compression: each field arrives with its own bytes, null when it has
none (`NetStream.Exchange`).

Files are identified by the hash of their names only, as in the program: modulo the table size in the store, in
full in a session. The hash function is a parameter.

## Where the code differs from what it documents or intends

- `fs_append` (progetto-finale/server/src/file_system.c:418-432) adds the length of the name to the byte counter and takes away the
  length of the old content, where it should add the appended length. Each append puts the counter off by the length
  of the new content less that of the name. The model keeps the code's arithmetic: `StoreLocks.AppendCountsIff` gives the
  exact case in which an append counts right, `StoreLocks.AppendMiscounts` an input for which it does not, and
  `StoreHistory.CountersOverRuns` what the counter is after any run. What is ejected is decided by the counter the code
  keeps, and the results about it are stated about that counter. Two things follow.
- The byte counter can end over its limit with nothing cached, and then no file is ever held again
  (`StoreLimits.OverLimitIsStuck`, `StoreLimits.StuckForever`). It takes appends under a name that shares the key of a
  shorter one: `StoreLimits.CollisionBreaksLimit` is a run from the empty store, `StoreLimits.AppendKeepsLimitIff` the exact
  condition for one append, `StoreHistory.CountersOverRuns` for a run, and no other operation does it
  (`StoreLimits.KeepsLimit`). In runs whose appends use the name of the file, or one as short, it never happens
  (`StoreLimits.LimitOverRuns`).
- The files can exceed the byte limit while the counter does not: `StoreLimits.GrowthExceedsLimit` is a run from the empty
  store that leaves almost twice the limit cached, and `StoreLimits.AppendFilesFitIff` the exact condition for one append.
- `compress_data` with INT_MAX equal bytes: the comparison then takes unused symbols for equal to the used one, and
  the merge can read past its tree: `HuffmanDictionary.OverlongRunBreaks` gives the sort result with one leaf,
  `HuffmanBuild.OneLeafBreaks` shows that the merge then finds no second root, and `HuffmanDictionary.OverlongRunExists`
  that there is such an input. `HuffmanDictionary.SortWorksIff` shows that this is the only one.
- The unused leaf of weight 0 makes the code longer than needed whenever more than one byte value occurs but not all do
  (`HuffmanCompress.BestTreeIff`).
- A worker tests the open flags for equality with the lock flag (progetto-finale/server/src/server.c:439) while the handler tests one bit
  (progetto-finale/server/src/server.c:759). For other flags, such as 6, a client that waits is answered as well:
  `Server.AskKeepsInvIff` is the exact condition and `ServerRuns.OtherFlagsSplitClient` a run.
- An open request with the lock flag that has to wait, or that succeeds when the session is full, leaves a lock the session does
  not list (progetto-finale/server/src/server.c:768-796). `ServerSessions.AskCoversIff` is the exact condition,
  `ServerRuns.WaitingOpenIsNotRecorded` a run, and `ServerRuns.LockOutlivesClients` what it leads to.
- A request that cannot be read and a full work queue close the descriptor without cleaning up
  (progetto-finale/server/src/server.c:412-418, 561-566): locks and session stay, and the next client with that descriptor has them.
  `ServerDepartures.GoneLeavesNothingIff` is the exact condition and `ServerRuns.BrokenLeavesLock` a run.
- Closing a session that does not exist is answered with success, because the error code passed on is 0
  (progetto-finale/server/src/server.c:720-729): `Handler.CloseAnswersIff` and, at an input, `Handler.ClosesNothing`.
- A file whose removal is refused is closed all the same (progetto-finale/server/src/server.c:983-990):
  `Handler.RemovalAgreesIff` and, in a run, `ServerRuns.RefusedRemovalCloses`.
- A file inserted that is larger than the byte limit is ejected at once (progetto-finale/server/src/file_system.c:714-744):
  `StoreInvariant.NewestStaysIff` and `StoreStakes.InsertedIsOwned` are the exact conditions.
- The diagram in progetto-finale/common/include/net.h:67-93 shows fields of four bytes for sizes and offsets; the code
  writes `size_t`, eight bytes.

## Model

| member | source | states |
|---|---|---|
| Bits.BitWriter.WriteBit | progetto-finale/common/src/huffman_encoding.c:472-483 | the buffer holds all bits written before and then this one; whole bytes reach the stream while it has room |
| Bits.BitWriter.WriteByte | progetto-finale/common/src/huffman_encoding.c:485-490 | the eight bits of the value's low byte are appended, highest first |
| Bits.BitWriter.Flush | progetto-finale/common/src/huffman_encoding.c:280-283 | with the last partly filled byte the stream is exactly the packed bits |
| Bits.BitReader.ReadBit | progetto-finale/common/src/huffman_encoding.c:451-462 | the next bit of the stream, one position further; past the end the bits of the last byte are served again |
| Bits.BitReader.ReadByte | progetto-finale/common/src/huffman_encoding.c:464-470 | the byte whose bits are the next eight served |
| Bits.UnpackOfPack | progetto-finale/common/src/huffman_encoding.c:451-490 | reading a packed stream bit by bit gives back the written bits |
| Bits.PackOfUnpack | progetto-finale/common/src/huffman_encoding.c:451-490 | each byte of a byte string is what its eight bits pack to |
| HuffmanTree.PrefixFree | progetto-finale/common/src/huffman_encoding.c:149-192 | no symbol's code is a prefix of another's |
| HuffmanTree.PathIsCode | progetto-finale/common/src/huffman_encoding.c:399-426 | with distinct leaves a path that ends at a leaf is the code of its symbol, so decoding finds it |
| HuffmanTree.EncodeUnique | progetto-finale/common/src/huffman_encoding.c:394-427 | contents of one length with the same bits are the same, whatever bits follow |
| HuffmanTree.TreeBitsUnique | progetto-finale/common/src/huffman_encoding.c:235-266 | the preorder form of a tree determines the tree and where it ends |
| HuffmanTree.HeaderUnique | progetto-finale/common/src/huffman_encoding.c:225-231 | the header determines padding, leaf count and original size |
| HuffmanTree.FourBytes | progetto-finale/common/src/huffman_encoding.c:333-337 | the four size bytes put together again give the size |
| HuffmanTree.CodedUnique | progetto-finale/common/src/huffman_encoding.c:217-283 | a coded stream stands for one tree and one text only |
| HuffmanDictionary.CountFrequencies | progetto-finale/common/src/huffman_encoding.c:83-93 | entry i is byte i with the number of its occurrences |
| HuffmanDictionary.Qsort | progetto-finale/common/src/huffman_encoding.c:95-96 | some permutation sorted by cmp_dict_entries, in place |
| HuffmanDictionary.FindFirst0 | progetto-finale/common/src/huffman_encoding.c:98-105 | one more than the first unused position, 256 when there is none |
| HuffmanDictionary.SortedDictionary | progetto-finale/common/src/huffman_encoding.c:83-105 | for every outcome of the sort: used symbols first in ascending order, then at most one unused leaf, no byte twice, weights adding up to the data size |
| HuffmanDictionary.OverlongRunBreaks | progetto-finale/common/src/huffman_encoding.c:443-449 | with INT_MAX equal bytes a sort result exists that leaves one leaf only |
| HuffmanDictionary.OverlongRunExists | progetto-finale/common/src/huffman_encoding.c:443-449 | for every byte there is such an input |
| HuffmanDictionary.SortWorksIff | progetto-finale/common/src/huffman_encoding.c:95-105 | every outcome of the sort leaves at least two leaves if and only if the data is not INT_MAX equal bytes |
| HuffmanBuild.SecondPickIff | progetto-finale/common/src/huffman_encoding.c:129-132 | a round finds its second root if and only if the first pick leaves one |
| HuffmanBuild.OneLeafBreaks | progetto-finale/common/src/huffman_encoding.c:107-132 | with one leaf the first pick empties both queues and no second root exists, so the merge reads past its tree |
| HuffmanBuild.ForestStep | progetto-finale/common/src/huffman_encoding.c:121-138 | a round keeps all old slots and their trees and adds the tree of the two roots taken; both queues stay consistent |
| HuffmanBuild.WeightStep | progetto-finale/common/src/huffman_encoding.c:121-138 | a round keeps the sum of the roots' weights |
| HuffmanBuild.BagStep | progetto-finale/common/src/huffman_encoding.c:121-138 | a round keeps the leaves below the roots, each once |
| HuffmanBuild.OneParentStep | progetto-finale/common/src/huffman_encoding.c:121-138 | after a round every slot that is no longer a root is the child of exactly one merged node |
| HuffmanHeight.PickIsLightest | progetto-finale/common/src/huffman_encoding.c:124-132 | until the unused leaf is taken, the root taken is no heavier than any other, of either queue |
| HuffmanHeight.TwoLightest | progetto-finale/common/src/huffman_encoding.c:121-132 | until the unused leaf is taken, a round takes the two lightest roots, the lighter first |
| HuffmanHeight.SortedStep | progetto-finale/common/src/huffman_encoding.c:121-138 | the queue of merged nodes stays in ascending order |
| HuffmanHeight.RegularStep | progetto-finale/common/src/huffman_encoding.c:121-138 | weights stay at least Fibonacci numbers of the heights |
| HuffmanHeight.LastRegularStep | progetto-finale/common/src/huffman_encoding.c:121-138 | the round that takes the unused leaf leaves only roots of height at most 45 |
| HuffmanHeight.FifoStep | progetto-finale/common/src/huffman_encoding.c:121-138 | after the unused leaf is taken, roots are merged in order of creation, generation by generation, within height 53 |
| HuffmanMerge.MergeStep | progetto-finale/common/src/huffman_encoding.c:118-139 | one round keeps the whole invariant: forest, queues, weights, leaves, one parent each, height bounds and costs |
| HuffmanOptimal.MergeBound | progetto-finale/common/src/huffman_encoding.c:120-138 | a lower bound for the merged weights plus the weight of the merge bounds every assignment of code lengths that satisfies Kraft's inequality |
| HuffmanCost.LiftStep | progetto-finale/common/src/huffman_encoding.c:118-139 | with all leaves used, the merges so far are paid for in every such bound |
| HuffmanCost.AccountedStep | progetto-finale/common/src/huffman_encoding.c:118-139 | the merged nodes are exactly the inner nodes below the roots |
| HuffmanShortest.InnerIsContent | progetto-finale/common/src/huffman_encoding.c:194-198 | the weights of the inner nodes add up to the number of content bits |
| HuffmanShortest.ShortestContent | progetto-finale/common/src/huffman_encoding.c:107-143 | the content has as many bits as the merged nodes weigh, and no code lengths do better when all byte values occur |
| HuffmanShortest.NoTreeIsBetter | progetto-finale/common/src/huffman_encoding.c:107-143 | when all byte values occur, no code tree that covers the data gives a shorter content |
| HuffmanShortest.UnusedLeafCostsIff | progetto-finale/common/src/huffman_encoding.c:98-105 | a tree with one unused leaf gives a shortest content, among the trees the coded form can carry, if and only if not more than one byte value occurs |
| HuffmanCompress.InitTree | progetto-finale/common/src/huffman_encoding.c:107-114 | slots up to first0 hold the leaves |
| HuffmanCompress.BuildTree | progetto-finale/common/src/huffman_encoding.c:107-143 | the loop ends with the root in slot 2*first0-2 and weight dataSize; every leaf is below it once, every other node is a child once, height at most 53, cheapest when all leaves are used |
| HuffmanCompress.FillTable | progetto-finale/common/src/huffman_encoding.c:145-192 | the table holds each leaf symbol's root path with zero bits behind it and nothing else; the stack stays within 256 entries and the codes within 128 bits |
| HuffmanCompress.EstimateSize | progetto-finale/common/src/huffman_encoding.c:194-198 | the predicted number of bits is that of header, tree and content |
| HuffmanCompress.WriteHeader | progetto-finale/common/src/huffman_encoding.c:225-231 | flag and padding, leaf count minus one and the four size bytes |
| HuffmanCompress.WriteTree | progetto-finale/common/src/huffman_encoding.c:235-266 | the preorder form of the tree, with a stack that stays within 256 indexes |
| HuffmanCompress.WriteContent | progetto-finale/common/src/huffman_encoding.c:268-279 | the codes of the data bytes in order |
| HuffmanCompress.BuildCodes | progetto-finale/common/src/huffman_encoding.c:83-192 | for every input but the overlong run: a tree with a leaf for every byte, its table, and as many content bits as the merged nodes weigh |
| HuffmanCompress.BestTreeIff | progetto-finale/common/src/huffman_encoding.c:98-143 | no tree the coded form can carry gives a shorter content if and only if all byte values occur or not more than one does |
| HuffmanCompress.WriteStream | progetto-finale/common/src/huffman_encoding.c:199-292 | a buffer of the predicted size is filled exactly by the packed header, tree and content |
| HuffmanCompress.Compress | progetto-finale/common/src/huffman_encoding.c:68-293 | the result is the coded stream of a code tree for the data, or the raw one when coding would be longer; nothing for empty data |
| HuffmanDecompress.UpdateFathers | progetto-finale/common/src/huffman_encoding.c:364-376 | the inner loop ends, closes every father that is complete and leaves the next leaf its place |
| HuffmanDecompress.StoreLeaf | progetto-finale/common/src/huffman_encoding.c:359-363 | the leaf's byte is the one the preorder form has there |
| HuffmanDecompress.RebuildTree | progetto-finale/common/src/huffman_encoding.c:341-382 | the array holds the tree that was written, in preorder, and the reader stands right behind its bits; the stack of fathers stays within 256 slots |
| HuffmanDecompress.DecodeBit | progetto-finale/common/src/huffman_encoding.c:410-415 | one content bit further: the decoded bytes and the place in the tree are those of the prefix read |
| HuffmanDecompress.DecodeContent | progetto-finale/common/src/huffman_encoding.c:391-427 | alignment bits, main loop and padding loop together read exactly the content bits and decode exactly the data |
| HuffmanDecompress.ReadHeader | progetto-finale/common/src/huffman_encoding.c:329-337 | leaf count and original size as written |
| HuffmanDecompress.Decompress | progetto-finale/common/src/huffman_encoding.c:295-439 | a raw stream gives its text, a coded stream the text it codes, empty input nothing |
| HuffmanCodec.StreamUnique | progetto-finale/common/src/huffman_encoding.c:68-439 | a stream, raw or coded, stands for one text |
| HuffmanCodec.AtMostOneByteMore | progetto-finale/common/src/huffman_encoding.c:202-214 | a compressed stream is a stream of its data and at most one byte longer |
| HuffmanCodec.CompressThenDecompress | progetto-finale/common/src/huffman_encoding.c:68-439 | decompressing what compressing gave returns exactly the data |
| CircQueue.CircQueue.constructor | progetto-finale/server/src/circ_queue.c:5-31 | an empty queue of the given capacity |
| CircQueue.CircQueue.TryPop | progetto-finale/server/src/circ_queue.c:33-49 | the oldest item leaves, or there is none |
| CircQueue.CircQueue.TryPush | progetto-finale/server/src/circ_queue.c:51-66 | the item becomes the youngest exactly when there is room |
| Cache.FSCache.MoveToTop | progetto-finale/server/src/file_system.c:676-696 | the list stays one doubly linked list with head and tail, the entry is its newest and the others keep their order |
| Cache.FSCache.Unlink | progetto-finale/server/src/file_system.c:195-203 | the list without the entry, linked on both sides |
| Cache.FSCache.DropTail | progetto-finale/server/src/file_system.c:727-743 | the list without its oldest entry |
| StoreInvariant.EjectCountIsLeast | progetto-finale/server/src/file_system.c:714-744 | the byte limit drops the shortest oldest-first run that brings the counter within the limit, or everything |
| StoreInvariant.NothingLost | progetto-finale/server/src/file_system.c:714-768 | what is ejected followed by what stays is what was there, both limits hold afterwards unless nothing is left, and the two limits never both eject in one call |
| StoreInvariant.NewestStaysIff | progetto-finale/server/src/file_system.c:714-768 | the file just written survives if and only if it fits the byte limit alone, by what the counter says |
| StoreInvariant.LimitIffDrift | progetto-finale/server/src/file_system.c:714-744 | between operations the byte counter is within its limit if and only if it would be with nothing cached |
| StoreInvariant.BalanceKeepsDrift | progetto-finale/server/src/file_system.c:714-768 | ejecting keeps the distance between the byte counter and the true size |
| StoreSteps.ApplyKeepsInv | progetto-finale/server/src/file_system.c:132-574 | every operation of a client that does not wait keeps distinct keys, the exact slot count, the slot limit, the byte counter within its limit unless nothing is cached, and the lock bookkeeping |
| StoreLocks.DriftOfRequest | progetto-finale/server/src/file_system.c:132-574 | no operation but a successful append moves the byte counter away from the true size, and an append by exactly the length of the new content less that of the name |
| StoreLocks.AppendCountsIff | progetto-finale/server/src/file_system.c:418-432 | a successful append keeps an exact counter exact if and only if the new content is as long as the name |
| StoreLocks.AppendMiscounts | progetto-finale/server/src/file_system.c:418-432 | three characters appended to an empty file: the counter shows 2 bytes where there are 4 |
| StoreLocks.ApplyConserves | progetto-finale/server/src/file_system.c:205-222 | whoever waits after an operation waited before or was just told to, and whoever stops waiting is notified |
| StoreHistory.RunsKeepInv | progetto-finale/server/src/file_system.c:132-574 | over every run in which waiting clients stay silent the invariant with its full history holds |
| StoreHistory.CountersOverRuns | progetto-finale/server/src/file_system.c:698-768 | after any such run keys are distinct, the slot count is exact and within its limit, and the byte counter is the size of all files less the errors of the appends; it is within its limit if and only if these errors do not exceed the limit below zero, otherwise nothing is cached; the files are within the limit when the errors are not above zero |
| StoreLimits.KeepsLimit | progetto-finale/server/src/file_system.c:132-574 | every operation but an append keeps the byte counter within its limit |
| StoreLimits.AppendKeepsLimitIff | progetto-finale/server/src/file_system.c:415-432 | a successful append keeps it if and only if its error, with the errors so far, does not exceed the limit below zero |
| StoreLimits.LimitOverRuns | progetto-finale/server/src/file_system.c:698-768 | after any run whose appends use names no longer than those of the files, the byte counter is within its limit |
| StoreLimits.OverLimitIsStuck | progetto-finale/server/src/file_system.c:698-768 | with the byte counter over its limit nothing is cached and no request changes the store |
| StoreLimits.StuckForever | progetto-finale/server/src/file_system.c:698-768 | nor does any run of requests |
| StoreLimits.CollisionBreaksLimit | progetto-finale/server/src/file_system.c:415-432 | a run from the empty store, with two names of one key, that ends with nothing cached and the byte counter over its limit |
| StoreLimits.AppendFilesFitIff | progetto-finale/server/src/file_system.c:415-432 | after a successful append the files are within the byte limit if and only if no stretch of newest files is over it by no more than the counter is too low; so they are when it is not too low |
| StoreLimits.GrowthExceedsLimit | progetto-finale/server/src/file_system.c:415-432 | a run from the empty store that ends with the byte counter at 6 and files of almost twice the limit |
| StoreHistory.EveryWaitIsAnsweredOnce | progetto-finale/server/src/file_system.c:451-574 | after any such run every wait has had exactly one notification, except the current one, whose client stands in one queue, once |
| StoreHistory.GrantsFollowArrivals | progetto-finale/server/src/file_system.c:541-563 | locks are granted in the order of arrival, the rest still waits in that order, and a file without owner has no waiters |
| StoreHistory.GrantedIsOwner | progetto-finale/server/src/file_system.c:544-557 | a client told it has the lock owns the file at that instant |
| StoreHistory.GoneMeansGone | progetto-finale/server/src/file_system.c:205-222 | every other notification says that the file is gone, to a client that waited for a file no longer cached |
| StoreClean.UnlockLookup | progetto-finale/server/src/file_system.c:533-574 | unlocking touches only the given key, and only when the client owns it: the first waiter becomes owner, or nobody |
| StoreClean.CleanLookup | progetto-finale/server/src/file_system.c:601-620 | cleaning gives up exactly the listed files the client owns, each to its first waiter or to nobody with nobody waiting; every other file is as before |
| StoreClean.CleanFreesListed | progetto-finale/server/src/file_system.c:601-620 | after cleaning the client owns a file if and only if it did before and the session does not list it |
| StoreClean.CleanKeepsInv | progetto-finale/server/src/file_system.c:601-620 | cleaning keeps the invariant and notifies everybody who stops waiting |
| StoreStakes.ApplyGains | progetto-finale/server/src/file_system.c:132-574 | nobody comes to own or wait for a file but the client that asks for it |
| StoreStakes.GivenUp | progetto-finale/server/src/file_system.c:175-245 | unlocking or removing, allowed or refused, leaves a client that does not wait without a stake in the file |
| StoreStakes.RemoveCases | progetto-finale/server/src/file_system.c:175-245 | a removal takes the file out exactly for its owner, and says so |
| StoreStakes.InsertedIsOwned | progetto-finale/server/src/file_system.c:132-173 | a file created with its lock belongs to its creator if and only if it fits the byte limit alone, by what the counter says |
| StoreEffects.TouchEffect | progetto-finale/server/src/file_system.c:247-280 | a look-up succeeds exactly for a cached key; its entry, as it was, is then the newest and all others keep their order; a refusal changes nothing |
| StoreEffects.LockEffect | progetto-finale/server/src/file_system.c:451-498 | a free file, or one of the client itself, is owned by it and is the newest; otherwise the client is the last in the queue, with everything else in place, or is refused when the queue is full; each case with its result |
| StoreEffects.UnlockEffect | progetto-finale/server/src/file_system.c:533-574 | for the owner of a file: the first waiter owns it and alone is told, or nobody owns it; the file is the newest; anybody else is refused and nothing changes |
| StoreEffects.RemoveEffect | progetto-finale/server/src/file_system.c:175-245 | for the owner of a file: it is gone, the others keep their order, both counters go down by it and each waiter is told, in order; anybody else is refused and nothing changes |
| StoreEffects.SettleEvicts | progetto-finale/server/src/file_system.c:698-810 | the fewest oldest files are dropped that bring the rest within both limits, all if nothing less does; exactly they are handed out, in order, and exactly their waiters are told, in order |
| StoreEffects.ToldInOrder | progetto-finale/server/src/file_system.c:777-804 | the waiters of dropped files are told file by file, each queue in its order |
| StoreEffects.InsertEffect | progetto-finale/server/src/file_system.c:132-173 | a key that is not cached gets the new file on top of all others, locked or not, and the limits are enforced; a cached key is refused and nothing changes |
| StoreEffects.ModifyEffect | progetto-finale/server/src/file_system.c:351-397 | the owner of a cached file within the limit gets the new name and content on top of all others, with its waiters, and the limits are enforced; each refusal has its result and changes nothing |
| StoreEffects.AppendEffect | progetto-finale/server/src/file_system.c:399-449 | the old content followed by the new one is on top of all others, with name, owner and waiters kept, and the limits are enforced by the counter the code keeps; each refusal has its result and changes nothing |
| StoreEffects.InsertByKey | progetto-finale/server/src/file_system.c:132-173 | inserting succeeds if and only if the key is not cached; the new file is then found if and only if it fits the limit alone by the counter, every other key finds what it found or its file was handed out |
| StoreEffects.ModifyByKey | progetto-finale/server/src/file_system.c:351-397 | writing succeeds if and only if the key is cached, the client owns it and the new file is within the limit; the key then finds exactly the new file, with owner and waiters, if and only if it fits the limit alone by the counter; every other key finds what it found or its file was handed out |
| StoreEffects.AppendByKey | progetto-finale/server/src/file_system.c:399-449 | appending succeeds if and only if the key is cached, free or owned by the client, and the sum is within the limit; the key then finds the old content followed by the new one if and only if it fits the limit alone by the counter; every other key finds what it found or its file was handed out |
| StoreEffects.HandedOut | progetto-finale/server/src/file_system.c:777-808 | the files a write hands out, followed by those still cached, are the files there were with the written one on top, in order |
| StoreEffects.NothingHandedOut | progetto-finale/server/src/file_system.c:132-574 | every other operation and every refusal hands out nothing |
| StoreRecency.StepOrder | progetto-finale/server/src/file_system.c:676-696 | after an operation one file is nearer to the old end than another only if it was so before or the other was just used, and never if it was just used itself |
| StoreRecency.OrderIsRecency | progetto-finale/server/src/file_system.c:132-574 | after any run from the empty store, of two cached files the one nearer to the old end was last used earlier |
| StoreRecency.EvictsLeastRecent | progetto-finale/server/src/file_system.c:714-768 | in any run a file that leaves the cache without being removed was last used before every file that stays |
| StoreRecency.JustReadStays | progetto-finale/server/src/file_system.c:247-280 | in a full store with more than one file, a file just read survives the next new one, and exactly the oldest of the others is handed out |
| Reservoir.Qsort | progetto-finale/server/src/file_system.c:322-323 | some sorted permutation |
| Reservoir.Sample | progetto-finale/server/src/file_system.c:309-323 | whatever rand returns, n different places of the cache in ascending order |
| FileSystem.FileSystem.constructor | progetto-finale/server/src/file_system.c:83-105 | an empty cache over an empty table, both of them new |
| FileSystem.FileSystem.Lookup | progetto-finale/server/src/file_system.c:639-645 | the table slot of a key holds exactly the listed entry of that key, or null |
| FileSystem.FileSystem.DistinctByTable | progetto-finale/server/src/file_system.c:639-649 | cached files have distinct keys |
| FileSystem.FileSystem.MoveToTopOf | progetto-finale/server/src/file_system.c:676-696 | the structure stays valid and the file becomes the most recently used one |
| FileSystem.FileSystem.EjectBytes | progetto-finale/server/src/file_system.c:714-744 | the loop drops as many of the oldest entries as the byte limit asks for, from list, table and counters |
| FileSystem.FileSystem.TellAll | progetto-finale/server/src/file_system.c:775-804 | the ejected files are handed out in order and every client waiting for one of them is notified, in order |
| FileSystem.FileSystem.UpdateCacheSize | progetto-finale/server/src/file_system.c:698-810 | counters, ejections, ejected files and notifications are those of the step |
| FileSystem.FileSystem.InsertFile | progetto-finale/server/src/file_system.c:132-173 | makes the insert step: state, result, ejected files, notifications |
| FileSystem.FileSystem.RemoveFile | progetto-finale/server/src/file_system.c:175-245 | makes the remove step and never ejects, so its null output arguments are not written |
| FileSystem.FileSystem.Obtain | progetto-finale/server/src/file_system.c:247-280 | makes the look-up step and returns the cached file |
| FileSystem.FileSystem.ObtainN | progetto-finale/server/src/file_system.c:284-349 | all files newest first for n = 0, otherwise min(n, slotUsed) different files oldest first; nothing changes, in particular not the order |
| FileSystem.FileSystem.ModifyFile | progetto-finale/server/src/file_system.c:351-397 | makes the modify step |
| FileSystem.FileSystem.AppendFile | progetto-finale/server/src/file_system.c:399-449 | makes the append step |
| FileSystem.FileSystem.LockFile | progetto-finale/server/src/file_system.c:451-498 | makes the lock step: owner, waiting at the end of the queue, or refusal when the queue is full |
| FileSystem.FileSystem.Exists | progetto-finale/server/src/file_system.c:500-530 | makes the look-up step |
| FileSystem.FileSystem.InnerUnlock | progetto-finale/server/src/file_system.c:533-574 | makes the unlock step of a key |
| FileSystem.FileSystem.Unlock | progetto-finale/server/src/file_system.c:576-599 | makes the unlock step of a name's key |
| FileSystem.FileSystem.CleanSession | progetto-finale/server/src/file_system.c:601-620 | makes the clean-up step over the listed hashes |
| FileSystem.FileSystem.TakeNotification | progetto-finale/server/src/server.c:605-614 | the oldest notification leaves the queue, if there is one, and nothing else changes |
| Session.AddIsUpdate | progetto-finale/server/src/session.c:152-186 | adding succeeds exactly for a new file while there is room for it, and adds one pair to the map of flags, listed last |
| Session.RemIsDelete | progetto-finale/server/src/session.c:188-223 | removing succeeds exactly for an opened file, takes it out of the map and keeps the order of the others |
| Session.RemUndoesAdd | progetto-finale/server/src/session.c:152-223 | closing the file just opened gives back the session |
| Session.WritableIff | progetto-finale/server/src/session.c:225-246 | writing is allowed exactly for files opened with both flags |
| Session.ClientSession.CreateSession | progetto-finale/server/src/session.c:34-59 | an empty session unless there is one already |
| Session.ClientSession.DestroySession | progetto-finale/server/src/session.c:101-122 | no session, and an error when there was none |
| Session.ClientSession.HasOpenedFile | progetto-finale/server/src/session.c:124-150 | whether the hash is listed, or that there is no session |
| Session.ClientSession.AddFileOpened | progetto-finale/server/src/session.c:152-186 | the arrays afterwards hold the abstract session with the file added |
| Session.ClientSession.RemFileOpened | progetto-finale/server/src/session.c:188-223 | the arrays afterwards hold the abstract session without the file |
| Session.ClientSession.RemoveAt | progetto-finale/server/src/session.c:204-213 | the shift to the left takes out exactly one file and keeps the others in order |
| Session.ClientSession.CanWriteIntoFile | progetto-finale/server/src/session.c:225-246 | the answer of the abstract session |
| Handler.HandleKeepsInv | progetto-finale/server/src/server.c:686-1029 | any request keeps the store in order, makes wait exactly the requester it tells to, and notifies whoever stops waiting |
| Handler.WaitsIff | progetto-finale/server/src/server.c:768-780 | a client is told to wait exactly when it asks for the lock of a file the session lets it ask for, another client owns the file and its queue has room |
| Handler.HandleKeepsSession | progetto-finale/server/src/server.c:686-1029 | sessions keep at most sixteen distinct files |
| Handler.CloseAnswersIff | progetto-finale/server/src/server.c:716-735 | the answer to closing a session is the one its outcome deserves if and only if there was a session |
| Handler.ClosesNothing | progetto-finale/server/src/server.c:716-735 | a client without a session that closes it is told that it succeeded |
| Handler.RemovalAgreesIff | progetto-finale/server/src/server.c:952-990 | a removal the session lets through closes the file always, but drops it from the cache, and reports success, if and only if the client owns the file |
| HandlerEffects.ObjectionIff | progetto-finale/server/src/server.c:739-757 | the session lets a request through if and only if it is there and does not list a file to be opened, lists one to be written with both flags, or lists any other |
| HandlerEffects.HandlesRefused | progetto-finale/server/src/server.c:865-889 | a request the session does not let through changes nothing; the status tells which of the reasons it was |
| HandlerEffects.HandlesRead | progetto-finale/server/src/server.c:909-924 | reading answers with exactly the cached file, which is then the newest, and changes nothing else |
| HandlerEffects.HandlesUnlock | progetto-finale/server/src/server.c:942-952 | unlocking succeeds exactly for the owner: the first waiter owns the file and alone is told, or nobody owns it; all other keys find what they found |
| HandlerEffects.HandlesLock | progetto-finale/server/src/server.c:926-940 | locking makes the client the owner, or the last in the queue and without an answer, or is refused, each with its status |
| HandlerEffects.HandlesRemove | progetto-finale/server/src/server.c:954-990 | removing takes the file of its owner out of the store and tells its waiters, in order; the session forgets the file in every case |
| HandlerEffects.HandlesClose | progetto-finale/server/src/server.c:803-840 | closing releases the file if the client owns it, leaves the store alone otherwise, always succeeds and takes the file off the session |
| HandlerEffects.HandlesWrite | progetto-finale/server/src/server.c:895-907 | writing replaces name and content of the client's own file; the answer attaches exactly the files that left the cache, in order; each refusal has its status and changes nothing |
| HandlerEffects.HandlesAppend | progetto-finale/server/src/server.c:966-976 | appending puts the new content behind the old one; the answer attaches exactly the files that left the cache, in order; each refusal has its status and changes nothing |
| HandlerEffects.HandlesOpen | progetto-finale/server/src/server.c:782-796 | opening without flags succeeds exactly for a cached file, which is then the newest and listed with its flags, when the session has room |
| HandlerEffects.HandlesOpenLock | progetto-finale/server/src/server.c:768-796 | opening with the lock flag locks the file like a lock request; the session lists it exactly when the client owns it then and there is room |
| HandlerEffects.HandlesCreate | progetto-finale/server/src/server.c:760-796 | creating succeeds exactly for a key that is not cached, locked when asked for; the answer attaches exactly the files that left the cache, in order, and the session lists the file when it has room |
| HandlerEffects.HandlesSession | progetto-finale/server/src/server.c:702-734 | opening a session makes an empty one where there is none and is refused otherwise; closing one releases exactly the listed files the client owns and keeps all files |
| Worker.OpenFile | progetto-finale/server/src/server.c:736-801 | on the objects in memory, opening does to store, session, answer and notifications what the handler says; entries listed afterwards were listed before or are new |
| Worker.CloseFile | progetto-finale/server/src/server.c:803-840 | closing a file does to store, session, answer and notifications what the handler says |
| Worker.UseFile | progetto-finale/server/src/server.c:857-995 | reading, writing, locking, unlocking, appending to and removing a file do what the handler says |
| Worker.ReadSome | progetto-finale/server/src/server.c:842-855 | reading n files changes nothing and answers with as many different cached files as asked for and there |
| Worker.HandleWork | progetto-finale/server/src/server.c:686-1029 | every kind of request does to store, session, answer and notifications what the handler says, whatever rand returns; entries listed afterwards were listed before or are new |
| Service.Serve | progetto-finale/server/src/file_system.c:83-620 | from a new file system, any run of requests in which waiting clients stay silent ends in the state of that run, and the lock thread has sent exactly its notifications, in order |
| Service.Handle | progetto-finale/server/src/server.c:686-1029 | a request of one client of the session table leaves all other sessions as they are |
| Service.ServeCalls | progetto-finale/server/src/server.c:404-455 | from a new file system and a new table of sessions, the requests of all clients lead the objects in memory through store, sessions, answers and notifications as the handler says |
| Server.ReaderIsLawful | progetto-finale/server/src/server.c:404-438 | a client whose request is being read is live and waits for no lock |
| Server.AskMoves | progetto-finale/server/src/server.c:437-450 | handling a request keeps every descriptor in one place, except the requester's when the worker misjudges that it waits |
| Server.MoveKeepsInv | progetto-finale/server/src/server.c:411-658 | every step of a thread other than handling a request keeps every live descriptor in one place and the replies matched to the requests |
| Server.AskKeepsInvIff | progetto-finale/server/src/server.c:437-450 | a request keeps every live descriptor in one place if and only if it is not an open request that has to wait and has other flags besides the lock flag |
| Server.OnePlaceOneReply | progetto-finale/server/src/server.c:381-658 | over every run with flags 0 to 3: a live descriptor is in exactly one place, any other in none, every request is answered once except one that is pending, and a closed descriptor has none pending |
| ServerAnswers.AnswersInOrder | progetto-finale/server/src/server.c:437-640 | over every run with flags 0 to 3, the answers sent to a client are in order those it is owed: the handler's answer to each request, or for one that waited the notification that ended the wait; at most the last is still under way, none when the descriptor is closed |
| ServerAnswers.NoticesSay | progetto-finale/server/src/server.c:618-632 | a client that got the lock is told success, one whose file is gone that the argument is invalid |
| ServerQueues.QueuesAreFair | progetto-finale/server/src/server.c:381-658 | over every run, what workers, select thread and lock thread took out of their queues, followed by what these still hold, is what was put in, in order; a full work queue takes nothing |
| ServerRuns.OtherFlagsSplitClient | progetto-finale/server/src/server.c:439-450 | in every configuration there is a run from the start that leaves a client in two places: it opens a locked file with the lock flag and other flags, but not the create flag |
| ServerSessions.OpenStraysIff | progetto-finale/server/src/server.c:758-796 | an open request with the lock flag leaves its client owning or waiting for a file the session does not list exactly when it has to wait, or when the session is full and the file is locked |
| ServerSessions.CleanLeavesNothing | progetto-finale/server/src/server.c:419-427 | cleaning up after a client whose session lists everything leaves it with nothing |
| ServerSessions.AskCoversIff | progetto-finale/server/src/server.c:686-1029 | a request keeps all sessions listing all files their clients own or wait for, if and only if it is not an open request with the lock flag that has to wait or meets a full session |
| ServerSessions.MoveCovers | progetto-finale/server/src/server.c:411-658 | every step of a thread other than handling a request keeps all sessions listing all files their clients own or wait for |
| ServerSessions.HangUpFreesEverything | progetto-finale/server/src/server.c:419-433 | after any run without such requests, a client that hangs up owns and waits for nothing, and what it owned is its first waiter's, or nobody's with nobody waiting |
| ServerRuns.WaitingOpenIsNotRecorded | progetto-finale/server/src/server.c:768-780 | in every configuration there is a run from the start with documented flags after which a client waits for a file its session does not list |
| ServerRuns.LockOutlivesClients | progetto-finale/server/src/server.c:419-433 | that run goes on until no client is connected and the file is still locked |
| ServerDepartures.GoneLeavesNothingIff | progetto-finale/server/src/server.c:412-433 | after any run without such requests, a closed descriptor has no lock, no wait and no session if and only if its last client hung up or had no session when it left |
| ServerRuns.BrokenLeavesLock | progetto-finale/server/src/server.c:412-418 | a run from the start after which nobody is connected and a broken connection has left its lock and its session, both of which the next client of that descriptor has |
| ServerRuns.RefusedRemovalCloses | progetto-finale/server/src/server.c:952-990 | a run from the start in which a refused removal closes the file and leaves it cached |
| NetFormat.NumberRoundTrip | progetto-finale/common/src/net.c:480-512 | a number written in n bytes is read back |
| NetFormat.LowestFirst | progetto-finale/common/src/net.c:480-512 | byte i of a number counts 256 to the power i |
| NetFormat.FileRoundTrip | progetto-finale/common/src/net.c:192-193 | a table entry finds exactly its own name as name and its own content as content in the raw region, null if and only if it has no bytes |
| NetFormat.FilesRoundTrip | progetto-finale/common/src/net.c:140-151 | every entry of a table finds its own name and its own content, null if and only if it has no bytes, for any number of files |
| NetFormat.DecodeEncode | progetto-finale/common/src/net.c:39-400 | every message of every type is read back with the same kind and numbers and, file by file, the same name and the same content, a field being null if and only if it has no bytes |
| NetFormat.ArrivesWhole | progetto-finale/common/src/net.c:39-400 | so a message without empty fields that are not null is read back as it was |
| NetFormat.RequestLayout | progetto-finale/common/src/net.c:274-294 | a request holds identifier, type, flags, one table entry and the raw region, at these offsets |
| NetFormat.WithFilesLayout | progetto-finale/common/src/net.c:303-324 | an answer with files holds identifier, type, status, number of files, table and raw region, at these offsets |
| NetFormat.EncodingIsUnique | progetto-finale/common/src/net.c:228-373 | the bytes of a message determine its kind, its numbers and the bytes of each field |
| NetFormat.OffsetsTile | progetto-finale/common/src/net.c:304-324 | the offsets in the table cut the raw region into adjacent stretches, without gap or overlap, each holding its field |
| NetStream.CalcMsgSize | progetto-finale/common/src/net.c:522-566 | the number of bytes writing produces |
| NetStream.Connection.Read | progetto-finale/common/src/net.c:433-447 | one call of read: interrupted, failed, at the end, or the next bytes of the stream, as many as it likes |
| NetStream.Connection.Write | progetto-finale/common/src/net.c:460-475 | one call of write: interrupted, failed, nothing, or a part of the data |
| NetStream.ReadN | progetto-finale/common/src/net.c:426-451 | exactly the next bytes, however they are split; without failures the only other outcome is the end of the stream before them |
| NetStream.WriteN | progetto-finale/common/src/net.c:453-478 | all the bytes, however they are split, or a proper part of them after a failure |
| NetStream.Fill | progetto-finale/common/src/net.c:239-373 | the buffer is filled exactly by the message's bytes |
| NetStream.Parse | progetto-finale/common/src/net.c:79-212 | the message in the payload, its offsets turned into pointers: each field has its own bytes, null if and only if there are none |
| NetStream.NoOverlongRun | progetto-finale/common/src/net.c:239-252 | no message is INT_MAX equal bytes, so every message can be compressed |
| NetStream.StreamCarriesOneSequence | progetto-finale/common/src/net.c:39-400 | a stream of frames carries one sequence of messages, field by field, with and without compression |
| NetStream.WriteMessage | progetto-finale/common/src/net.c:228-400 | on success, and without failures always, the stream carries one more message |
| NetStream.ReadMessage | progetto-finale/common/src/net.c:39-222 | the first message the stream carries comes out, each field with its own bytes, null if and only if there are none, and exactly the others are left; without failures the only other outcome is the end of the stream inside the first frame |
| NetStream.WriteAll | progetto-finale/common/src/net.c:228-400 | writes messages in order up to the first failure; without failures the stream carries them all, after those it carried |
| NetStream.ReadAll | progetto-finale/common/src/net.c:39-222 | what comes out is the messages the stream carries, in order and field by field; when all come out no byte is left |
| NetStream.Exchange | progetto-finale/common/src/net.c:39-400 | a list of messages written to a connection and read from its other end is the same list, field by field, with nothing left over, however reads and writes are split |

## Left out

- HuffmanDecompress.Decompress: requires that input flagged as coded is a coded stream; the program does not check this and on other input reads outside its buffers.
- NetStream.Parse: requires a payload as a writer lays it out; the program does not check this and on other payloads reads outside its buffer.
- `tree[first0]` is initialised from `dictionary[first0]` (progetto-finale/common/src/huffman_encoding.c:111), which for first0 = 256 lies outside the dictionary; the model stores 0 there, and the merge overwrites the slot before it is read.
- The four size bytes of the header are read left to right; C leaves the order of the four calls open (progetto-finale/common/src/huffman_encoding.c:333-337).
- The test for a leaf count of 0 in the decoder (progetto-finale/common/src/huffman_encoding.c:332), which is never true.
- `qsort`: its contract is "some sorted permutation"; the bodies of the two `Qsort` methods are insertion sorts and nothing else depends on them.
- Integer widths in the store and the session: sizes, counters and flags are unbounded integers, so the conversion of the appended length to `int` (progetto-finale/server/src/file_system.c:419) is not modelled. The codec's weights and sizes and the widths on the wire are.
- Room for notifications: a push to the full notification queue spins in the program until the lock thread makes room; the methods of FileSystem, Worker and Service require the room and the state machine has no such limit.
- `fs_obtain_n` with a negative n, which asks for a negative amount of memory.
- FileSystem.FileSystem.EjectBytes: takes the tail off the list in every round of the loop, where the program stores the new tail once behind it.
- Server.MoveKeepsInv: threads are steps on values, not objects updated in place; each handling of a request is one step, which the operations' mutexes and the one place of each descriptor allow.
- Service.ServeCalls: serves the requests one after another, as one worker does, and has the lock thread send the notifications of each before the next; steps of several threads in any order are those of the state machine, on values.
- The bookkeeping of the highest descriptor in the select thread (progetto-finale/server/src/server.c:549-578), which can leave the pipe out of the set, and everything else about sockets, pipes, signals, shutdown and wake-ups.
- Descriptor 0, which a worker takes for an empty queue (progetto-finale/server/src/server.c:400): client descriptors are positive.
- Memory allocation and release, timers, logging, statistics and peak counters.
- The hash functions and message identifiers: the hash is any function of the name, an identifier any sixteen bytes.
- The client, the client library, option parsing, the earlier compression experiments and the course exercises.
