# Verification of the state-heavy parts of the stack

These Dafny modules model the parts of the vendored lwIP stack and of the shared-memory
interface that work by changing linked structures, counters and cursors step by step, and
prove what they are for. `dafny verify dfyconfig.toml` checks everything.

| files | what they model |
|---|---|
| `HeapSpec.dfy`, `HeapContexts.dfy`, `Heap.dfy` | the first-fit heap: the list of blocks as a value and its laws; frees and trims of other contexts that interrupt a scan, and when the scan ends; the headers in memory, changed in place |
| `OnesComplement.dfy`, `Checksum.dfy`, `ChecksumChain.dfy` | the Internet checksum of RFC 1071, the three optimised algorithms, and checksums over segmented chains and pseudo headers |
| `PbufChain.dfy`, `PbufMemory.dfy`, `PbufRefs.dfy`, `PbufOps.dfy` | packet buffers: chains as flat byte sequences, copying, reference counts, and the operations that relink chains |
| `DnsTable.dfy`, `Dns.dfy`, `DnsName.dfy` | the resolver: one query and its measure, the tables of queries and requests, names in packets |
| `Select.dfy`, `SelectProofs.dfy`, `SelectProgress.dfy`, `SelectReasons.dfy`, `SelectList.dfy` | select and the event callback as interleaved steps, with and without core locking: safety, progress, and why a call sleeps or leaves |
| `VectoredWrite.dfy`, `Netconn.dfy` | writes that stop and resume, and the connection state machine whose blocked callers are finished by callbacks |
| `RecvTcp.dfy` | the receive path that hands a stream out in pieces of any size |
| `RingBuffer.dfy`, `SpscRing.dfy`, `PriorityRing.dfy`, `ByteBuffer.dfy` | the shared-memory queues, the single-producer single-consumer ring as loads and stores |
| `Prelude.dfy`, `Arith.dfy` | shared types, and facts about division |

Objects that the source updates in place are classes whose methods carry the source's loops
and branches and are proved against functions on values; what the source promises is proved
about those functions, and about the invariants the methods keep. Protocols with several
threads are state machines over their steps, under sequential consistency. Calls into code
outside the model (`tcp_write`, `tcp_close`, `tcp_output`, the arrival of packets, other
contexts that free memory) are parameters that may have any value: a function from the number
of a call to its result, where there are several.

Some of what was proved differs from what comments in the code say or what one would expect:

- Checksum versions 1 and 2 are exact up to 0x20002 bytes and not beyond (`Checksum.ShortDataIsExact`,
  `Checksum.LongDataCanOverflow`).
- The assertion at `lwip/src/core/mem.c:790` fails exactly when the block to be split is the last one
  (`HeapSpec.NextIsNotTheEnd`), and there is such a run (`HeapSpec.LastBlockIsSplit`). The code behind it
  handles that case and is what is modelled.
- With trims in other contexts an interrupted `mem_malloc` need not end: a trim that changes nothing still
  makes it start again (`HeapContexts.TrimThatOnlyDisturbs` says which trims do). It starts again for ever exactly
  if there is no end to such trims (`HeapContexts.RestartsForEverIff`), and in every heap that has room for three
  small blocks there is such a run (`HeapContexts.ThirdMallocNeverEnds`). Once they stop it ends, whatever else is
  freed and trimmed (`HeapContexts.QuietEnds`, `Heap.MemHeap.MallocInterrupted`).
- `dns_compare_name` compares the labels only: neither what stands between the labels of the query nor
  where the query ends is looked at (`DnsName.AcceptedIffLabelsAgree`, `DnsName.SeparatorIsNotCompared`,
  `DnsName.ShorterNameAccepted`). What it accepts is the name asked for exactly if the length octets are
  those of the query's encoding (`DnsName.AcceptedIsTheQuery`).
- Both name decoders find the end of every name but the root, behind whose zero octet they go on reading
  (`DnsName.SkippedRightIff`, `DnsName.ComparedRightIff`, `DnsName.RootIsAccepted`).
- The loop of a blocking vectored write does not make progress while the send buffer is full, a
  multiple of 64K is left of the current vector and another vector follows; otherwise every round
  does (`VectoredWrite.WriteMsg.Round`). Two vectors are enough (`VectoredWrite.StallingVectors`), and it
  goes on like that as long as the buffer stays full (`VectoredWrite.WriteMsg.StallsForever`). It cannot
  happen with vectors below 64K.
- If `tcp_close` fails for another reason than memory, the callbacks of the control block stay
  removed. A blocking write that waits is woken up exactly if the last close has not failed like that:
  `Netconn.Connection.CallUntilWritten` otherwise, `Netconn.Connection.WriteAfterFailedClose` then. That
  happens only with a `tcp_close` that may return any error, as the calling code allows for; the one in
  `lwip/src/core/tcp.c:348-460` only ever returns ERR_OK.

## Model

| member | source | states |
|---|---|---|
| `HeapSpec.RunWellFormed` | lwip/src/core/mem.c:568-608 | after any run of mem_malloc, mem_free and mem_trim from the initial heap the blocks tile the region at aligned offsets, none is too small, and no two neighbours are both free |
| `HeapSpec.ApplyWellFormed` | lwip/src/core/mem.c:616-976 | one operation, whatever its argument, keeps the heap well formed |
| `HeapSpec.MallocIsFirstFit` | lwip/src/core/mem.c:870-965 | NULL exactly when no free block holds the aligned request, the heap being unchanged then; otherwise the lowest fitting block, aligned and large enough |
| `HeapSpec.MallocThenFree` | lwip/src/core/mem.c:616-686 | freeing what mem_malloc just returned restores the exact earlier list of blocks |
| `HeapSpec.LowestFreeUnique` | lwip/src/core/mem.c:930-949 | the lowest free block is a function of the list, so with it lfree is restored as well |
| `HeapSpec.MallocLive` | lwip/src/core/mem.c:886-964 | the returned block is live and long enough, and every other live block is exactly as before |
| `HeapSpec.FreedLive` | lwip/src/core/mem.c:473-509 | freeing and plugging holes ends the life of that block and of no other |
| `HeapSpec.TrimmedLive` | lwip/src/core/mem.c:753-810 | trimming shortens that block to the rounded size, or leaves it when the rest would be too small, and touches no other |
| `HeapSpec.LiveDisjoint` | lwip/src/core/mem.c:568-608 | live blocks lie inside the heap and never overlap |
| `HeapSpec.NothingLiveIsInitial` | lwip/src/core/mem.c:473-509 | when everything is freed, coalescing has led back to the single initial block |
| `HeapSpec.RoundedCorrect` | lwip/src/core/mem.c:846-856 | the size computed from a request is 0 exactly if the request cannot fit in the heap at all; otherwise it is aligned and the least allowed one |
| `HeapSpec.TruncationHarmless` | lwip/src/core/mem.c:846-856 | rounding up in the width of mem_size_t either is exact or wraps to 0 for a request larger than the heap |
| `HeapSpec.InterruptedMallocIsSafe` | lwip/src/core/mem.c:861-945 | a block returned by a mem_malloc that was interrupted by frees and trims is live, long enough and overlaps nothing that is still live, all of which was live at the start |
| `HeapSpec.NextIsNotTheEnd` | lwip/src/core/mem.c:754-801 | of the two assertions of mem_trim that the next block is not the end, the first always holds, the second exactly if the trimmed block is not the last |
| `HeapSpec.LastBlockIsSplit` | lwip/src/core/mem.c:781-801 | a run that reaches the second assertion with the last block, in every heap large enough for two blocks |
| `Heap.LinksAreValid` | lwip/src/core/mem.c:550-563 | every block of a correctly linked heap passes mem_link_valid |
| `Heap.SaneBlock` | lwip/src/core/mem.c:581-600 | every assertion that mem_sanity makes about a block holds in a well-formed heap |
| `Heap.MemHeap.constructor` | lwip/src/core/mem.c:515-545 | mem_init: one free block over everything, the end sentinel used, lfree on the block, used statistic 0 |
| `Heap.MemHeap.Absorb` | lwip/src/core/mem.c:484-508 | joining two free neighbours removes the upper one from the links, and lfree follows |
| `Heap.MemHeap.PlugHoles` | lwip/src/core/mem.c:473-509 | the freed block joins every free neighbour; links in both directions stay inverse |
| `Heap.MemHeap.Free` | lwip/src/core/mem.c:616-686 | illegal pointers change only the counter of illegal frees; a legal one frees the block, lowers lfree if it lies below, keeps the used statistic the span of used blocks and lowers it |
| `Heap.MemHeap.MoveFree` | lwip/src/core/mem.c:754-779 | shrinking before a free block moves that block down |
| `Heap.MemHeap.SplitOff` | lwip/src/core/mem.c:781-803 | shrinking before a used block splits off a free one when it fits |
| `Heap.MemHeap.Trim` | lwip/src/core/mem.c:698-820 | in-place shrinking, also in the middle of an interrupted mem_malloc, is the specified change of the block list, with all links, lfree and statistics kept right |
| `Heap.MemHeap.TakeBlock` | lwip/src/core/mem.c:886-927 | taking a block, with or without splitting it |
| `Heap.MemHeap.AdvanceCursor` | lwip/src/core/mem.c:931-950 | lfree moves to the lowest free block, or the end |
| `Heap.MemHeap.Malloc` | lwip/src/core/mem.c:830-976 | the scan over the links computes the specified first fit and keeps the whole invariant |
| `Heap.MemHeap.ScanInterrupted` | lwip/src/core/mem.c:863-969 | the links are scanned as specified on the block list, whatever other contexts free and trim at the unlock points, and what they do depends on the blocks: a fit that is the first fit then, none, or given up |
| `Heap.MemHeap.OtherContexts` | lwip/src/core/mem.c:870-884 | what other contexts do at one unlock point: the blocks and mem_free_count are the specified ones, and the invariant is kept |
| `Heap.MemHeap.WalkInterrupted` | lwip/src/core/mem.c:930-950 | one walk of the cursor, given up exactly when a free or trim set the flag at its last unlock point; lfree stays at or below every free block |
| `Heap.MemHeap.AdvanceCursorInterrupted` | lwip/src/core/mem.c:928-950 | the restarted walks of the cursor end with lfree on the lowest free block |
| `Heap.MemHeap.MallocInterrupted` | lwip/src/core/mem.c:861-976 | with frees and trims in other contexts the call is equivalent to some of them before it, mem_malloc, and the others after it; it ends if only the futile trims do, and then its scan does not start again for ever |
| `HeapContexts.TrimThatOnlyDisturbs` | lwip/src/core/mem.c:781-820 | exactly the trims that would cut off too little for a block, before a used one, tell an interrupted mem_malloc that something happened although nothing changed |
| `HeapContexts.RestartsForEverIff` | lwip/src/core/mem.c:861-969 | the scan is started again for ever exactly if there is no end to what disturbs it in vain |
| `HeapContexts.RestartsForever` | lwip/src/core/mem.c:861-884 | with a futile trim at every unlock point every scan is given up and started again |
| `HeapContexts.ThirdMallocNeverEnds` | lwip/src/core/mem.c:781-884 | such a run, in every heap with room for three blocks: two calls, then a third one while the first block is trimmed by less than a block |
| `HeapContexts.QuietEnds` | lwip/src/core/mem.c:861-969 | if nothing futile happens from some unlock point on, the number of restarts is at most the bytes in use and the unlock points until then, whatever else is freed and trimmed |
| `HeapContexts.ScanEnds` | lwip/src/core/mem.c:870-884 | a scan is given up only after something that gave memory back, or after something futile at its last unlock point |
| `HeapContexts.MeanwhileChanges` | lwip/src/core/mem.c:683-816 | what happens at an unlock point without mem_free_count being set changes nothing; what sets it gives memory back or is futile |
| `Heap.MemHeap.Sanity` | lwip/src/core/mem.c:566-608 | the heap check always succeeds |
| `OnesComplement.ByteOrderIndependent` | lwip/src/core/inet_chksum.c:79-114 | adding byte-swapped words gives the byte-swapped sum (section 2(B) of RFC 1071) |
| `OnesComplement.InternetSumIsFolded` | lwip/src/core/inet_chksum.c:79-114 | the end-around-carry sum of section 1 of RFC 1071 is the plain sum of the words, folded |
| `OnesComplement.ZeroOnlyForZeros` | lwip/src/core/inet_chksum.c:79-114 | the sum is 0 only if all bytes are 0 |
| `Checksum.StandardChksum1` | lwip/src/core/inet_chksum.c:79-114 | the byte-pair loop in 32-bit arithmetic returns the truncated sum in host order, for every buffer and either byte order |
| `Checksum.StandardChksum2` | lwip/src/core/inet_chksum.c:132-173 | the word loop with an odd-address start returns the same value |
| `Checksum.StandardChksum3` | lwip/src/core/inet_chksum.c:188-255 | the unrolled 32-bit loop returns the exact sum for every length and start address |
| `Checksum.ShortDataIsExact` | lwip/src/core/inet_chksum.c:79-173 | up to 0x20002 bytes nothing is lost to 32-bit overflow, so all three algorithms return the sum of RFC 1071 (the code comment promises 64k) |
| `Checksum.LongDataCanOverflow` | lwip/src/core/inet_chksum.c:79-173 | from 0x20003 bytes on there is a buffer for which versions 1 and 2 are wrong |
| `Checksum.SumZero` | lwip/src/core/inet_chksum.c:79-255 | 0 is returned only for data of zeros |
| `ChecksumChain.LwipChksum` | lwip/src/core/inet_chksum.c:61-63 | whichever version is chosen, buffers that fit in a packet get the same correct sum |
| `ChecksumChain.SumChain` | lwip/src/core/inet_chksum.c:259-294 | over any segmentation with odd lengths and any start addresses, swapping by parity gives the sum of the concatenated bytes |
| `ChecksumChain.InetChksum` | lwip/src/core/inet_chksum.c:554-558 | the complement of the sum of the data |
| `ChecksumChain.InetChksumPbuf` | lwip/src/core/inet_chksum.c:567-588 | the checksum of a chain is the checksum of its bytes |
| `ChecksumChain.InetChksumPseudo` | lwip/src/core/inet_chksum.c:309-397 | the checksum over pseudo header and chain, for both address families |
| `ChecksumChain.SumChainPartial` | lwip/src/core/inet_chksum.c:398-440 | exactly the first chksum_len bytes are summed although parity is taken from the whole segment |
| `ChecksumChain.InetChksumPseudoPartial` | lwip/src/core/inet_chksum.c:455-552 | the partial checksum over pseudo header and the covered bytes |
| `ChecksumChain.RecheckIsZero` | lwip/src/core/inet_chksum.c:554-588 | storing the checksum in a zeroed field at an even offset makes the check of the data yield 0 |
| `PbufMemory.Memory.Skip` | lwip/src/core/pbuf.c:1182-1195 | the buffer and offset of a flat position, or NULL behind the end |
| `PbufMemory.Memory.TryGetAt` | lwip/src/core/pbuf.c:1419-1430 | the byte at a flat position or -1 |
| `PbufMemory.Memory.GetAt` | lwip/src/core/pbuf.c:1401-1409 | the byte at a flat position or 0 |
| `PbufMemory.Memory.PutAt` | lwip/src/core/pbuf.c:1441-1451 | one flat byte changes, or nothing behind the end |
| `PbufMemory.Memory.Take` | lwip/src/core/pbuf.c:1226-1256 | the bytes overwrite the start of the flat sequence and nothing else, or nothing at all on an error |
| `PbufMemory.Memory.TakeAt` | lwip/src/core/pbuf.c:1270-1294 | the bytes overwrite the flat sequence at an offset and nothing else; refused exactly if they do not fit |
| `PbufMemory.Memory.CopyPartial` | lwip/src/core/pbuf.c:1057-1088 | copies exactly the bytes there are from the offset on, up to the length, and leaves the rest of the target |
| `PbufMemory.Memory.CopyPart` | lwip/src/core/pbuf.c:1003-1012 | the part copied in one round ends with a buffer or with the copy |
| `PbufMemory.Memory.CopyPartialPbuf` | lwip/src/core/pbuf.c:985-1043 | the flat source prefix lands at the flat target position and nothing else changes, for any two segmentations; the checks for a missing buffer or a packet queue never fail |
| `PbufMemory.Memory.CopyAll` | lwip/src/core/pbuf.c:1001-1040 | its loop ends and keeps both positions equal to the bytes copied |
| `PbufMemory.TakenIsCopiedBack` | lwip/src/core/pbuf.c:1057-1294 | what pbuf_take_at wrote, pbuf_copy_partial reads back from the same offset |
| `PbufMemory.Memory.Memcmp` | lwip/src/core/pbuf.c:1464-1493 | 0 exactly on a match; otherwise the first difference, or 0xffff if too short |
| `PbufMemory.Memory.Memfind` | lwip/src/core/pbuf.c:1506-1520 | the least matching index from the start offset on, or 0xffff if there is none |
| `PbufRefs.Free` | lwip/src/core/pbuf.c:726-802 | exactly the maximal head run of buffers with count 1 is deallocated, each once, and the next one loses one reference |
| `PbufRefs.FreeKeepsCounts` | lwip/src/core/pbuf.c:726-802 | if every count is links plus handles before, it is so after a handle was given up |
| `PbufRefs.Ref` | lwip/src/core/pbuf.c:830-838 | one more handle, one more count |
| `PbufOps.Cat` | lwip/src/core/pbuf.c:854-881 | append on the flat sequence; tot_len fields right modulo 16 bits; the handle on the tail becomes the link |
| `PbufOps.Chain` | lwip/src/core/pbuf.c:896-903 | append where the caller keeps its handle |
| `PbufOps.Dechain` | lwip/src/core/pbuf.c:913-942 | splits off the first buffer; the rest is returned exactly if something else refers to it; buffers elsewhere are untouched |
| `PbufOps.HeaderDropped` | lwip/src/core/pbuf.c:584-616 | which drops the same bytes of the packet and keeps its lengths and counts right |
| `PbufOps.FreeHeader` | lwip/src/core/pbuf.c:673-691 | drop on the flat sequence; buffers left empty are freed; the handle moves to the new head; buffers elsewhere are untouched |
| `PbufOps.Split64k` | lwip/src/core/pbuf.c:1143-1177 | front plus rest is the original sequence, the front is the longest one below 64K and its tot_len fields are exact; buffers elsewhere are untouched |
| `PbufOps.FrontAndRest` | lwip/src/core/pbuf.c:1161-1170 | subtracting the tot_len of the rest makes the front a packet |
| `PbufOps.Realloc` | lwip/src/core/pbuf.c:401-462 | take on the flat sequence, or no change if new_len is not below tot_len; buffers elsewhere are untouched |
| `PbufOps.ReallocCounts` | lwip/src/core/pbuf.c:455-461 | freeing the rest before unlinking it keeps all counts right |
| `DnsTable.TickDecreases` | lwip/src/core/dns.c:1087-1121 | a tick brings a running query exactly one tick closer to its end, or ends it |
| `DnsTable.TimesOutIff` | lwip/src/core/dns.c:1087-1121 | a tick ends a query exactly when its last retry is over and no other server can be asked, or its own server has gone; it changes the server exactly after the last retry |
| `DnsTable.EveryServerHasItsTurn` | lwip/src/core/dns.c:1073-1121 | of a query that nobody answers, every configured server in turn has its full number of ticks and is asked as often as there are retries, and the callbacks hear of the failure only with the last tick of the last one |
| `DnsTable.PerServerClosed` | lwip/src/core/dns.c:1094-1115 | a server has 1 + retries * (retries - 1) / 2 ticks |
| `DnsTable.CachedForItsTime` | lwip/src/core/dns.c:1122-1129 | a resolved address is kept for as many ticks as its time to live says |
| `DnsTable.StartKeepsTicks` | lwip/src/core/dns.c:1073-1086 | starting a query spends nothing of the bound |
| `DnsTable.ErrorMovesOn` | lwip/src/core/dns.c:1273-1283 | an error response with a backup server moves on to that server at once and never costs ticks |
| `DnsTable.FallbackMovesOn` | lwip/src/core/dns.c:1351-1365 | falling back to the other address family can happen once and stays within the bound |
| `DnsTable.RunningBound` | lwip/src/core/dns.c:1065-1137 | no query in progress has more than the bound ahead of it |
| `DnsTable.BoundClosed` | lwip/src/core/dns.c:1065-1137 | the bound is 2 * servers * (1 + retries * (retries - 1) / 2) |
| `Dns.Client.constructor` | lwip/src/core/dns.c:314-350 | no entries, no requests, nothing accepted |
| `Dns.Client.CreateTxid` | lwip/src/core/dns.c:1018-1037 | the search for an identifier ends, by the pigeonhole principle, and no query in progress has it |
| `Dns.Client.CallFound` | lwip/src/core/dns.c:960-1002 | exactly the callbacks waiting for the entry are called, each once, in table order, and forgotten |
| `Dns.RepliesInOrder` | lwip/src/core/dns.c:975-982 | the callbacks are called in the order of the request table |
| `Dns.Client.Send` | lwip/src/core/dns.c:767-794 | the query goes to the current server, or to all for mDNS; without a valid server the waiting callbacks are told at once |
| `Dns.Client.CheckEntry` | lwip/src/core/dns.c:1065-1137 | retries, failover and expiry as specified, with the queries that are sent; identifiers stay distinct; callbacks are conserved |
| `Dns.Client.Tick` | lwip/src/core/dns.c:1142-1150 | a timer tick sends again what is due, answers exactly the requests whose query has come to an end, and keeps every waiting request within its bound and for the name it was made for |
| `Dns.Client.TickOn` | lwip/src/core/dns.c:1087-1150 | over any run of ticks with nothing received, a request waits while one server after the other has its 1 + retries * (retries - 1) / 2 ticks, and hears of the failure with the very last one |
| `Dns.Client.Resolve` | lwip/src/core/dns.c:1155-1183 | a correct response answers all who wait and caches the address for its time to live |
| `Dns.Client.Restart` | lwip/src/core/dns.c:1272-1365 | another attempt keeps every waiting request within its bound |
| `Dns.Client.Recv` | lwip/src/core/dns.c:1188-1383 | nothing happens unless the packet is a response with one question, for the name and family asked for, from the server asked or to an mDNS query; then its error, its first deciding record or the lack of one is acted on as written out in Reaction; every reply goes to a request for this name and family that waited, and all of them get it |
| `Dns.ReactedIs` | lwip/src/core/dns.c:1216-1373 | case by case what a packet does to the query: unchanged if it is not authentic, the next server or failure on an error, the address of the first record of the family, the other family, or failure |
| `Dns.Client.Enqueue` | lwip/src/core/dns.c:1393-1526 | a request joins a query exactly if one for the same name, but for the case of letters, and the same family is in progress; otherwise it starts one, and exactly this query is sent to the first server; accepted requests are accounted for; refused exactly for want of a request, an entry or a port |
| `Dns.Client.TryJoin` | lwip/src/core/dns.c:1404-1436 | the search for a query to join, which succeeds exactly if there is one and a request is free |
| `Dns.Client.Enter` | lwip/src/core/dns.c:1438-1526 | a new query exactly if there is an entry, a request and a port for it |
| `Dns.Client.AgeCounts` | lwip/src/core/dns.c:1449-1455 | the age of an entry is the number of queries started since it |
| `Dns.Client.FreeEntry` | lwip/src/core/dns.c:1438-1468 | an unused entry, or else the oldest completed one, the first of several; a completed one of age 0 is never taken |
| `Dns.Client.Join` | lwip/src/core/dns.c:1410-1434 | a request for a name in progress waits for that query |
| `Dns.Client.Start` | lwip/src/core/dns.c:1493-1525 | a new query for the request, sent at once to the first server, or failed at once without one |
| `Dns.Client.Abandon` | lwip/src/core/dns.c:1503-1511 | without a source port the entry and the request are free again, and nothing else changes |
| `Dns.Client.SetServer` | lwip/src/core/dns.c:360-370 | one server is changed at any time, also while queries are in progress, which stay within their bound |
| `Dns.Client.AnsweredExactlyOnceInTime` | lwip/src/core/dns.c:960-1526 | every callback is called at most as often as accepted; one not called yet waits in a request younger than the bound |
| `Dns.AnswerConserves` | lwip/src/core/dns.c:975-982 | answering an entry turns exactly its waiting callbacks into called ones |
| `DnsName.EncodeName` | lwip/src/core/dns.c:805-829 | the name part of a query is the encoding of section 3.1 of RFC 1035, strlen + 2 bytes, and nothing else changes |
| `DnsName.EncodedLength` | lwip/src/core/dns.c:795-829 | an encoding has strlen + 2 bytes |
| `Prelude.LowerFoldsCase` | lwip/src/include/lwip/arch.h:219-225 | two characters are compared as equal exactly if they differ at most in the case of a letter |
| `DnsName.CompareName` | lwip/src/core/dns.c:669-716 | the loop over any segmentation accepts as specified and returns the offset behind the name |
| `DnsName.SkipName` | lwip/src/core/dns.c:726-758 | the loop over any segmentation finds the end of the name as specified |
| `DnsName.EncodedIsMatched` | lwip/src/core/dns.c:669-716 | the encoding of a host name is accepted in any letter case, up to just behind it |
| `DnsName.WrittenNameIsRead` | lwip/src/core/dns.c:669-829 | what dns_send writes, both decoders read up to just behind it |
| `DnsName.SkipAgrees` | lwip/src/core/dns.c:669-758 | whenever dns_compare_name accepts, dns_skip_name returns the same offset |
| `DnsName.AcceptedIffEncoded` | lwip/src/core/dns.c:669-716 | among packets with the length octets of the encoding exactly those with the name are accepted |
| `DnsName.AcceptedIsTheQuery` | lwip/src/core/dns.c:669-716 | what is accepted is the name asked for exactly if its length octets are those of the encoding |
| `DnsName.AcceptedIffLabelsAgree` | lwip/src/core/dns.c:669-716 | the encoding of any host name is accepted exactly for the queries that agree with its labels, and then up to just behind it |
| `DnsName.SeparatorIsNotCompared` | lwip/src/core/dns.c:691-705 | ab.cd is accepted for the query abxcd |
| `DnsName.ShorterNameAccepted` | lwip/src/core/dns.c:669-716 | any beginning of the name asked for is accepted |
| `DnsName.SkippedRightIff` | lwip/src/core/dns.c:726-758 | dns_skip_name finds the end that section 4.1.4 of RFC 1035 defines exactly for names other than the root |
| `DnsName.ComparedRightIff` | lwip/src/core/dns.c:669-716 | so does dns_compare_name where it accepts |
| `DnsName.RootIsAccepted` | lwip/src/core/dns.c:669-716 | the root followed by another zero is accepted for any query, up to one octet too far |
| `SelectProofs.RunInv` | lwip/src/api/sockets.c:2002-2211 | the invariant over every interleaving of selects, events and walks |
| `SelectProofs.NoWakeupIsLost` | lwip/src/api/sockets.c:2621-2693 | a select that sleeps unsignalled while a watched socket is ready will still be visited with that event |
| `SelectProofs.WaitingIsExact` | lwip/src/api/sockets.c:2074-2161 | select_waiting is always the number of calls counted on the socket, and 0 when there are none, on every way out |
| `SelectProofs.SelectStepInv` | lwip/src/api/sockets.c:2033-2200 | every step of a select call keeps the invariant |
| `SelectProofs.RaisedInv` | lwip/src/api/sockets.c:2561-2606 | every event raised keeps the invariant |
| `SelectProofs.WalkingInv` | lwip/src/api/sockets.c:2621-2693 | every step of a walk keeps the invariant |
| `SelectList.SelectCbList.Link` | lwip/src/api/sockets.c:1808-1829 | the record is put at the head of the doubly linked list |
| `SelectList.SelectCbList.Unlink` | lwip/src/api/sockets.c:1832-1854 | the record is taken out of the list; the two assertions hold |
| `SelectList.SelScan` | lwip/src/api/sockets.c:1872-1937 | the ready descriptors of each set and their number, or -1 for a bad descriptor |
| `SelectList.HitsAreCounted` | lwip/src/api/sockets.c:1872-1937 | the steps of a call count exactly the events that lwip_selscan counts |
| `SelectProgress.CallMovesOn` | lwip/src/api/sockets.c:2003-2185 | a call of select that neither sleeps nor needs the core lock someone holds gets closer to its end with every step, on every path; a blocked one changes nothing |
| `SelectProgress.CallEnds` | lwip/src/api/sockets.c:2003-2185 | whatever the other threads do in between, a call of select ends within a number of its own unblocked steps that its arguments determine |
| `SelectProgress.WalkReachesTheCall` | lwip/src/api/sockets.c:2621-2693 | in every run, a walk that will visit a call has it signalled within as many of its own steps as the list has entries, as long as the list is kept, which the core lock sees to |
| `SelectProgress.SignalledForAReason` | lwip/src/api/sockets.c:2621-2693 | in every interleaving a call is signalled only after a socket it watches was ready for what it watches |
| `SelectProgress.SignalledWakesUp` | lwip/src/api/sockets.c:2130-2137 | in every interleaving a signalled sleeper wakes up with its next step and takes the signal; one that was not signalled only wakes up on its timeout |
| `SelectProgress.ReadinessIsAnnounced` | lwip/src/api/sockets.c:2561-2606 | in every interleaving, when an event makes a socket ready for something it was not ready for, a walk begins that will visit every call that relies on hearing of it |
| `SelectReasons.LeavesForAReason` | lwip/src/api/sockets.c:2033-2185 | in every interleaving a call is still searching or asleep as long as it had no reason to leave: no event on a watched socket, no signal, no timeout, it may wait, its descriptors are sockets, and no counter of theirs is full |
| `SelectReasons.LeftoverIsSeen` | lwip/src/api/sockets.c:1896-1910 | data left over from a receive counts as an event for reading |
| `SelectReasons.ReturnsAtOnce` | lwip/src/api/sockets.c:2033-2050 | a call that may not wait, or that finds an event or a bad descriptor, returns after its first scan and has changed nothing |
| `SelectReasons.FallsAsleep` | lwip/src/api/sockets.c:2052-2131 | any other call is put on the list, counted on every socket it watches, and sleeps until it is told |
| `SelectReasons.GivesUp` | lwip/src/api/sockets.c:2074-2185 | a call that meets a full counter leaves without having slept and leaves nothing behind |
| `SelectReasons.WakesUp` | lwip/src/api/sockets.c:2130-2185 | a call that was told takes back its counts, leaves the list and returns |
| `SelectReasons.NothingIsLeft` | lwip/src/api/sockets.c:2052-2185 | after a call that slept and was told, sockets, list and calls are as before it began |
| `SelectReasons.EventWakesTheCall` | lwip/src/api/sockets.c:2033-2693 | from the call through its sleep to the event it waits for, which signals it |
| `VectoredWrite.WriteMsg.Round` | lwip/src/api/api_msg.c:1680-1730 | one round accepts what fits; when it goes round again it has made progress, except in one stall, stated exactly |
| `VectoredWrite.WriteMsg.Accept` | lwip/src/api/api_msg.c:1717-1729 | the accepted bytes are always the first offset bytes of the concatenated vectors |
| `VectoredWrite.WriteMsg.Advance` | lwip/src/api/api_msg.c:1660-1790 | the loop ends for vectors below 64K; a blocking write finishes with ERR_OK only when offset is the total, and stays unfinished only for want of memory or buffer space and with bytes left, as the assertion on resumption demands; one that does not wait ends with ERR_OK only if bytes were written, with ERR_WOULDBLOCK if none were for want of memory or space, and else with the error of the route or of tcp_write |
| `VectoredWrite.WriteMsg.Rounds` | lwip/src/api/api_msg.c:1673-1730 | the rounds until one is blocked, fails or asks for no other, with the error that ended them |
| `VectoredWrite.WriteMsg.StallsForever` | lwip/src/api/api_msg.c:1679-1730 | once it stalls, each of n rounds against a full send buffer goes without an error, asks for another one and changes nothing, for every n |
| `VectoredWrite.StallingVectors` | lwip/src/api/api_msg.c:1679-1730 | a write of 64K and another byte that stalls |
| `VectoredWrite.TotalSize` | lwip/src/api/api_lib.c:1018-1026 | the sum of the sizes, or an error exactly if it overflows size_t |
| `Netconn.Connection.constructor` | lwip/src/api/api_msg.c:516-527 | a new connection is idle and its callbacks are registered |
| `Netconn.Connection.DoWritemore` | lwip/src/api/api_msg.c:1643-1807 | a write goes on or is over, with the result that a blocking one and one that does not wait get |
| `Netconn.Connection.DoWrite` | lwip/src/api/api_msg.c:1816-1862 | the caller waits exactly while its message is the current one, and callbacks then lead to it exactly if no close has failed before; a blocking write that returns ERR_OK at once is complete; a write that does not wait returns ERR_OK only if bytes were written, and else why none were |
| `Netconn.Connection.CloseInternal` | lwip/src/api/api_msg.c:923-1107 | over exactly unless memory is short and polls are left; an unfinished close is called again by poll and error callbacks, a finished one takes back the callbacks of its directions and no others, and the control block is gone exactly after a full close that did not fail |
| `Netconn.Connection.DoClose` | lwip/src/api/api_msg.c:1937-2008 | refused with nothing disturbed, or finished, or waiting with polls left, with the state, control block and callbacks each of these leaves |
| `Netconn.Connection.DoDelconn` | lwip/src/api/api_msg.c:1116-1207 | refused with nothing disturbed while an operation is in progress, otherwise a full close, with the state, control block and callbacks it leaves |
| `Netconn.Connection.DoConnect` | lwip/src/api/api_msg.c:1353-1419 | waits exactly for a blocking connect that was started; a non-blocking one that was started returns ERR_INPROGRESS, and every refusal has its own error and disturbs nothing |
| `Netconn.Connection.DoConnected` | lwip/src/api/api_msg.c:1304-1343 | a blocked caller is woken exactly once with the result |
| `Netconn.Connection.DoListen` | lwip/src/api/api_msg.c:1453-1526 | listening starts exactly on an idle connection whose control block is closed, when memory suffices |
| `Netconn.Connection.PollTcp` | lwip/src/api/api_msg.c:359-389 | the caller in progress is woken exactly once, with the result of its close or write, or waits on; an unfinished close has one poll less left; but for a close, control block and callbacks stay as they are |
| `Netconn.Connection.SentTcp` | lwip/src/api/api_msg.c:400-425 | the caller in progress is woken exactly once or waits on; but for a close, control block and callbacks stay as they are |
| `Netconn.Connection.ErrTcp` | lwip/src/api/api_msg.c:434-508 | whatever is in progress is over, and its caller woken exactly once |
| `Netconn.Connection.PollUntilClosed` | lwip/src/api/api_msg.c:359-389 | any run of polls ends a close at the first one that does not fail for a lack of memory, at the latest with the last poll it was given, and signals its caller once |
| `Netconn.Connection.CallUntilWritten` | lwip/src/api/api_msg.c:359-425 | any run of polls and acknowledgements that each find some buffer space ends a blocking write within as many of them as bytes were left, all bytes written unless there is no route, and signals its caller once |
| `Netconn.Connection.WriteAfterFailedClose` | lwip/src/api/api_msg.c:968-1107 | after a full close that failed, but not for memory, a blocking write that finds no memory waits with no callback left that could wake it |
| `Netconn.WriteVectorsPartly` | lwip/src/api/api_lib.c:996-1078 | the errors of the argument checks; a blocking call that returns ERR_OK has written all bytes of all vectors in order; one that does not wait has the result of the attempt |
| `RecvTcp.Sock.constructor` | lwip/src/api/sockets.c:958-964 | nothing received, nothing returned |
| `RecvTcp.Sock.RecvData` | lwip/src/api/api_lib.c:579-672 | a message from the mailbox, or the reason why there is none: a pending error first, then a closed mailbox, then an empty one |
| `RecvTcp.Sock.RecvDataTcp` | lwip/src/api/api_lib.c:702-769 | the next packet of the stream, or the exact error; a FIN is put off when the caller cannot handle it |
| `RecvTcp.Sock.HandleFin` | lwip/src/api/api_lib.c:746-766 | end of the stream, or the reset that came first, whichever error it left |
| `RecvTcp.Sock.DoRecv` | lwip/src/api/api_msg.c:1592-1609 | the bytes are reported in 16-bit chunks that add up to them |
| `RecvTcp.Sock.Consume` | lwip/src/api/sockets.c:1018-1046 | copies the next bytes and, unless peeking, removes exactly them |
| `RecvTcp.Sock.Collect` | lwip/src/api/sockets.c:970-1050 | the collecting loop ends and hands out consecutive bytes of the stream; after the first packet it never waits, and it stops short of the length only when no packet was there |
| `RecvTcp.Sock.Recv` | lwip/src/api/sockets.c:957-1056 | results concatenate to a prefix of the stream, peeking consumes nothing, the bytes reported are the bytes returned, and 0 means that everything before the FIN was returned; errno says why nothing was received |
| `RecvTcp.EndIsTheEnd` | lwip/src/api/sockets.c:990-998 | after a result of 0 nothing was missed, now or later |
| `RingBuffer.Ring.Create` | api/src/pifus_ring_buffer.c:44-50 | an empty queue of capacity end - 1 |
| `RingBuffer.Ring.Put` | api/src/pifus_ring_buffer.c:52-67 | appends, or refuses exactly when full |
| `RingBuffer.Ring.Get` | api/src/pifus_ring_buffer.c:69-84 | takes the oldest element, or refuses exactly when empty |
| `RingBuffer.Ring.Peek` | api/src/pifus_ring_buffer.c:86-96 | the slot of the oldest element |
| `RingBuffer.Ring.EraseFirst` | api/src/pifus_ring_buffer.c:98-111 | removes the oldest element |
| `RingBuffer.Ring.Find` | api/src/pifus_ring_buffer.c:113-129 | the first element that satisfies the predicate, or none does |
| `RingBuffer.Ring.IsFull` | api/src/pifus_ring_buffer.c:131-138 | full exactly with end - 1 elements |
| `RingBuffer.Ring.PeekIndex` | api/src/pifus_ring_buffer.c:140-158 | the slot of element number index, if it exists |
| `SpscRing.RunInv` | api/src/pifus_ring_buffer.c:52-158 | the invariant over every interleaving of the loads and stores of one producer and one consumer |
| `SpscRing.TakenIsPrefixOfPut` | api/src/pifus_ring_buffer.c:52-111 | in every interleaving the elements got are a prefix of the elements put |
| `SpscRing.NoWriteWhileReadable` | api/src/pifus_ring_buffer.c:52-96 | in every interleaving a slot that the consumer may read keeps its element as long as it may |
| `SpscRing.CallsAreAtomic` | api/src/pifus_ring_buffer.c:52-111 | every call takes effect at one of its steps |
| `SpscRing.CallCompletes` | api/src/pifus_ring_buffer.c:69-111 | in every interleaving a get, peek or erase_first that is over has taken or seen the oldest element, and get has handed it out, or nothing was queued when it began |
| `SpscRing.PutCompletes` | api/src/pifus_ring_buffer.c:52-67 | in every interleaving a put that is over has appended its element, or the ring was full when it began |
| `SpscRing.PutAlone` | api/src/pifus_ring_buffer.c:52-67 | put without interference appends, unless the ring is full |
| `SpscRing.GetAlone` | api/src/pifus_ring_buffer.c:69-84 | get without interference hands out the oldest element, unless the ring is empty |
| `SpscRing.FindAlone` | api/src/pifus_ring_buffer.c:113-129 | find without interference points to the first satisfying element, or to none if there is none |
| `SpscRing.FindIsRight` | api/src/pifus_ring_buffer.c:113-129 | in every interleaving find returns the first queued element that satisfies the predicate at that moment, or returns when no queued one does, although puts go on |
| `SpscRing.FindIsBounded` | api/src/pifus_ring_buffer.c:113-129 | in every interleaving find returns within 2 * end - 1 of its own steps and end - 1 moves of its cursor, however many puts go on |
| `PriorityRing.EraseRemovesThePeeked` | api/src/pifus_priority_aware_ring_buffer.c:16-48 | erase_first after a successful peek removes exactly the peeked element, whatever arrived between the three looks of the peek or after it, and no other |
| `PriorityRing.ArrivalsAreQueued` | api/src/pifus_priority_aware_ring_buffer.c:16-48 | while there is room, what arrives during a peek is queued in its ring, in order |
| `PriorityRing.PriorityBuffer.Peek` | api/src/pifus_priority_aware_ring_buffer.c:16-42 | the oldest element of the high ring, or else of the medium one, or else of the low one, and the ring is remembered in last_peek |
| `PriorityRing.PriorityBuffer.EraseFirst` | api/src/pifus_priority_aware_ring_buffer.c:44-48 | the oldest element of the queue peeked last is removed |
| `PriorityRing.PriorityBuffer.Find` | api/src/pifus_priority_aware_ring_buffer.c:50-74 | the first satisfying element of the high ring, or else of the medium one, or else of the low one |
| `ByteBuffer.Buffer.Create` | api/src/pifus_byte_buffer.c:7-12 | an empty buffer |
| `ByteBuffer.Buffer.Add` | api/src/pifus_byte_buffer.c:14-65 | appends exactly as many bytes as fit; over every run of adds and pops across wraparounds the bytes accepted are those handed out followed by those in the ring |
| `ByteBuffer.Buffer.Pop` | api/src/pifus_byte_buffer.c:67-113 | removes and returns exactly the leading bytes there are, keeping the same |
| `ByteBuffer.Buffer.IsEmpty` | api/src/pifus_byte_buffer.c:115-117 | empty exactly without contents |

## Left out

- Heap.MemHeap.MallocInterrupted: nothing futile happens from some unlock point on, as the call need not end otherwise; other contexts free and trim only blocks they hold; the mutex around mem_malloc keeps them from allocating.
- Heap.MemHeap.Free: pointers into the middle of a block are excluded; of such pointers the code recognises only those that fail its alignment, range and link checks.
- The heap's overflow guard bytes, and the statistics for errors, maximum and available memory; the used statistic is not limited to its width.
- Headers are kept by offset beside the user data, so user code that overwrites a header is not modelled.
- Checksum.StandardChksum1: the alignment of the buffer in memory matters only to versions 2 and 3; copying while summing (LWIP_CHKSUM_COPY) is not modelled.
- ChecksumChain.SumChainPartial: the leftover debugging assertion on the length in this function is not modelled.
- PbufMemory.Memory.CopyPartialPbuf: requires no empty buffers and an offset inside the first target buffer; the test for packet queues takes an empty tail for the end of a packet.
- PbufMemory.Memory.Take: chains here are shorter than 64K; longer ones have a wrapped tot_len.
- PbufOps.FreeHeader: bytes hidden by removing a header are gone in the model, so pbuf_add_header is left out.
- PbufOps.Split64k: the flag for a FIN that is carried over to the rest is not modelled.
- PbufOps.Realloc: giving memory back to the heap (mem_trim) changes no field of the model.
- PbufRefs.Free: chains have fewer than 256 buffers, as the result has 8 bits; the counts have no upper limit but in PbufRefs.Ref.
- Dns.Client.Recv: a packet is what is read from it (identifier, flags, question, answers); callbacks do not call back into the resolver; source ports and the random choice of identifiers are parameters, the counting identifier is modelled.
- Dns.Client.Enqueue: the local host table, literal addresses and addresses kept from earlier answers are looked up before and are left out.
- DnsName.CompareName: the query is memory of any content behind its text, as the code may read past its end.
- SelectProofs.NoWakeupIsLost: rcvevent has no limit of 16 bits and the list counter does not wrap; sockets are not opened or closed while selected on, and lwip_poll and full-duplex mode are left out.
- SelectReasons.WakesUp: what a call returns after waking up is the result of one more scan, which is no step of the protocol (`SelectList.SelScan`).
- Netconn.Connection.DoClose: not called during another close, which would overwrite the current message; one call at a time per connection otherwise only matters to its result.
- Netconn.Connection.DoDelconn: not during a non-blocking connect, whose flag would stay set and keep an error callback from waking the closing caller.
- Netconn.Connection.PollTcp: called only while its callback is registered; the events for select and the flag for checking write space are left out.
- Netconn.WriteVectorsPartly: totals above SSIZE_MAX, which the code limits although it goes on to write all vectors, and the flags for more data are left out.
- RecvTcp.Sock.Recv: packets are flat bytes here, as the packet-buffer modules justify; the error callback reports a reset or an abort, not a closed connection.
- The event counters for select, timeouts of send and receive, lingering, UDP and raw connections, listening and accepting beyond the state, and multicast.
- `api/src/pifus_shmem.c`, `api/src/pifus.c` and `api/src/pifus_socket.c`: shared memory, system calls and threads.
- Hardware memory ordering: the ring is modelled under sequential consistency.
- ByteBuffer.Buffer.Create: a buffer length of 0 is excluded; there is no index below it for head and tail then.
- PriorityRing.PriorityBuffer.EraseFirst: requires an earlier peek that found an element; before that the code follows an unset pointer.
