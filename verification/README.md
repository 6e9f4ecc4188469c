# Verified models of the Amlogic common kernel drivers

Pieces of `drivers/` in which a mistake loses, repeats or corrupts data, modelled in Dafny and
proved for every input and every run:

* the Android logger (`Ring`, `LogEntry`, `LogRuns`, `LogEffects`, `LogWindow`, `LogRing`, `Logger`): a
  power-of-two ring of variable-length entries with any number of readers. The imperative `Logger.LoggerLog` is
  proved to refine `LogRuns`, an unbounded log in which every reader carries the record of what it was
  handed and why it missed the rest;
* the SHA and AES DMA drivers (`Scatter`, `ShaDma`, `AesModes`, `AesDma`): scatter lists cut into
  descriptors or run through bounce buffers, with the engine as an arbitrary compression function or
  an arbitrary 16-byte block cipher;
* the TEE core (`TeeRefs`, `TeeEffects`, `TeeParams`): device users, context and shared memory references and the id
  table as a step machine over every interleaving at mutex granularity, and the parameters of
  open-session and invoke;
* the TEE data pipes (`PipeCache`, `PipeTable`): the byte queue between client and server, and the
  table of pipes with its memory budget;
* the persistent I/O trace (`TraceZone`, `TraceDump`): the ring that survives a reboot and the merge of
  all rings by time;
* the audio bridge ring buffer (`AudioRing`, `AudioSpsc`): free-running 32-bit counters, one caller at
  a time and one producer against one consumer.

`dafny verify dfyconfig.toml` checks everything.

## How the models are built

Code that changes state is a class or a method on arrays, tied by its `ensures` to a function or a
state machine about which the theorems are proved. Ghost histories (`LoggerLog.log`,
`ShaRequest.message` and `wire`, `CyclicCache.written` and `delivered`, `Zone.hist`) never wrap; the
invariants say which part of the history the wrapped, bounded state stands for. What each step of the
two step machines does is said once more without the step function (`LogEffects`, `TeeEffects`) and
proved of it. User memory that
cannot be read or written becomes a parameter (`readable`, `writable`, `fault`), so every error path
is there. 32-bit and 64-bit arithmetic is written out where the code relies on it; the words and the
error numbers are in `Kernel`.

## Where the code does not do what is expected of it

* The size rule for logs (a power of two above one maximal entry, `drivers/android/logger.c:699-702`)
  is not enough. A lapped pointer can have less than one write's length in front of it, and the
  pull-forward loop then reads bytes that were never committed (`LogWindow.StaysCommittedIff`, and
  `LogWindow.DocumentedSizeReadsGarbage` at 8192 bytes). `LogRuns.AlwaysRoomIff` says which sizes are
  enough for which writes as long as every earlier write had room: exactly those of at least twice the
  length, but for the shortest write. In the two logs of 1 KiB that is up to 512 bytes
  (`LogRuns.OneKibLogs`). After a write without room nothing is promised about later ones.
* A write longer than the ring is not refused. It runs over itself, and out of the buffer exactly when
  more than two laps are needed from its first payload cell (`Logger.LoggerLog.StoreOverlong`).
* A logger write reports the length of its first segment only (`drivers/android/logger.c:481`);
  `Logger.LoggerLog.Write` states it so.
* A pipe write behind wrapped data takes the amount of data for the amount of room
  (`drivers/aml_tee/tee_data_pipe.c:311`). `PipeCache.CyclicCache.WriteOnce` says exactly when one pass
  overruns and that the oldest unread byte is then replaced; `PipeCache.CyclicCache.WriteCache` says
  exactly when a whole non-blocking call does; `PipeCache.FourTwoTwoOne` and `PipeCache.Overrun` reach
  such a state.
* Pipe ids repeat, or become the 0 of closed slots, once the 32-bit counter wraps.
  `PipeTable.PipeSet.GetAdaptedPipe` gives the exact condition, `PipeTable.NextIdIsZero` and
  `PipeTable.NextIdIsInUse` two such states. A listen call whose copy faults part way leaves the
  backlog without its limit (`PipeTable.PipeSet.Listen`, `PipeTable.ListenOverLimit`).
* A trace record whose time is the largest 64-bit value stops the dump of its zone
  (`TraceDump.CompleteIff`, `TraceDump.TailNeverPrinted`).
* A trace write sets size and start before it copies. After a reboot in between, the uncopied bytes of
  the newest record are what their cells held before (`TraceZone.Zone.WriteCut`), and with the size
  alone set the log starts with as many stale bytes (`TraceZone.SizeOnly`).
* A SHA descriptor of 2^17 bytes or more is cut by its length field. `ShaDma.ShaRequest.Update` and
  `Finup` say exactly which requests reach the engine whole; `ShaDma.CutRequest` is one that does not.
* An entry of 2^26 bytes or more is cut in an AES link table. `AesDma.CellsInOrderIff` says exactly when
  the table still leads through the request; `AesDma.LongEntryMissed` is one that does not.

## Model

| member | source | states |
|---|---|---|
| Ring.MaskIsModulo | drivers/android/logger.c:73-76 | masking with a power of two minus one is the remainder, for every number and every power |
| Ring.WrapStep | drivers/android/logger.c:73-76 | adding at most one lap to a wrapped offset stays on the lap or drops back by exactly one size |
| Ring.CopyIn | drivers/android/logger.c:450-473 | the copy in two parts lays the bytes on consecutive cells around the end of the ring, as many as could be read |
| Ring.CopyOut | drivers/android/logger.c:109-123 | the copy in two parts returns the consecutive cells around the end of the ring |
| Ring.PutKeepsWindow | drivers/android/logger.c:450-475 | bytes appended at the write point leave every byte of a window of at most one lap intact and extend it |
| Ring.GetFromWindow | drivers/android/logger.c:181-222 | reading inside an intact window returns the bytes of the history |
| Ring.GetAfterPut | drivers/audiobridge/ringbuffer.c:89-104 | reading over freshly written cells gives the old queue followed by the new bytes |
| Ring.PutEachIsPut | drivers/android/logger.c:450-473 | laying bytes down one by one, round and round, is laying them down at once when they take at most a lap |
| LogEntry.HeaderRoundTrip | drivers/android/logger.h:52-61 | every header field, signed and unsigned, survives encoding into the ring and decoding |
| LogEntry.UserHeaderLayout | drivers/android/logger.c:159-170 | the header a reader is handed, field by field at its byte offsets: 20 bytes with zero padding in version 1, 24 with size and uid in version 2 |
| LogEntry.EntryAt | drivers/android/logger.c:448-475 | the history between two neighbouring boundaries is the header and payload of the entry between them |
| LogEntry.UnreadIsTotalSize | drivers/android/logger.c:622-632 | the distance from a boundary to the end of the history is the sum of the sizes of the entries after it |
| LogRuns.PullLandsSafely | drivers/android/logger.c:385-397 | a pulled pointer lands at least the write's length further on and less than a lap behind the new write point |
| LogRuns.StepKeepsInv | drivers/android/logger.c:385-482 | every step (open, release, write, failed write, seek, read, version, flush) keeps the head and all readers on boundaries less than a lap behind, and every reader's record faithful |
| LogRuns.RunsKeepInv | drivers/android/logger.c:385-482 | the same in every state of every run |
| LogRuns.EveryEntryAccountedFor | drivers/android/logger.c:263-326 | in every run, an entry a reader has passed was handed to it exactly once, byte for byte, by its own read, or was missed and never handed over, for a justified reason that an earlier event of the run caused to this very reader: a write that lapped it and pulled it past the entry, its own seek or read that passed over other users' entries, or a flush |
| LogRuns.StepContinues | drivers/android/logger.c:385-482 | a step adds to a reader's record only what that very step did to that very reader, also when another reader is released |
| LogRuns.LossHasCause | drivers/android/logger.c:385-397 | whatever a reader missed, an event earlier in the run made this reader miss, with the reason it records |
| LogRuns.DeliveryHasCause | drivers/android/logger.c:263-326 | whatever a reader was handed, its own read earlier in the run handed over, and it is the entry that read had come to |
| LogRuns.SeekThenRead | drivers/android/logger.c:583-590 | seeking first, as poll does, changes nothing about what a read then delivers |
| LogEffects.StepEffect | drivers/android/logger.c:181-482 | every operation does to the unbounded log what it promises, said without the step function: a new reader at the head with version 1, a release that leaves the others, a commit, the pulled pointers, a seek, a delivery, a version, a flush |
| LogEffects.WriteEffect | drivers/android/logger.c:385-475 | the entry is the last one; every pointer not lapped stays, every lapped one goes to the first boundary far enough on, and what readers were handed stays |
| LogEffects.ReadEffect | drivers/android/logger.c:263-326 | the reader is handed the first entry from its place on that it may see, stands behind it, has exactly that one delivery more, and nothing else changes; or there is none and it stands at the end |
| LogEffects.FlushEffect | drivers/android/logger.c:650-664 | the head and every reader are at the end of the log and no entry changes |
| LogEffects.EffectGoesOn | drivers/android/logger.c:181-482 | no pointer ever moves back, and what a reader is handed lies at or behind its place |
| LogEffects.KthRead | drivers/android/logger.c:263-326 | in every run the k-th delivery on a reader's record is what its k-th read that found something handed over |
| LogEffects.ReadsDiffer | drivers/android/logger.c:221-222 | in every run two reads of one reader hand over different entries, the later read the later one |
| LogEffects.FlushedForGood | drivers/android/logger.c:650-664 | in every run nothing committed before a flush is handed out after it, neither to a reader open then nor to one opened later |
| LogRuns.TwiceTheLengthFits | drivers/android/logger.c:385-397 | with a ring of at least twice the write's length every write has room, from every reachable state |
| LogRuns.ShortestFits | drivers/android/logger.c:385-397 | the shortest write has room in every ring that can hold it with a byte to spare |
| LogRuns.OneEntryNoRoom | drivers/android/logger.c:385-397 | in every ring below twice the write's length, one entry of one byte less leads to a state without room |
| LogRuns.AlwaysRoomIff | drivers/android/logger.c:699-703 | as long as every earlier write had room, a write has room in every state of every run exactly when the size is at least twice its length, or it is the shortest one and fits |
| LogRuns.OneKibLogs | drivers/android/logger.c:772-778 | in the logs of 1 KiB, as long as every earlier write had room, exactly the writes of up to 512 bytes with their header have room for certain |
| LogWindow.BetweenIffLapped | drivers/android/logger.c:362-375 | the wrapped between test holds exactly when the write reaches the pointer one lap on in unbounded offsets |
| LogWindow.CaughtUpIffSameCell | drivers/android/logger.c:588-589 | equal wrapped offsets mean exactly that nothing is left to read |
| LogWindow.ScanStopsAtBoundary | drivers/android/logger.c:334-346 | the pull-forward loop stops on the first entry boundary at least the length on |
| LogWindow.StaysCommittedIff | drivers/android/logger.c:334-346 | the loop reads committed headers only, exactly when at least the length lies before the write point |
| LogWindow.TestedIffLapped | drivers/android/logger.c:385-397 | the test as the writer applies it to a stored offset decides the lap in unbounded offsets |
| LogWindow.FixUpIsPull | drivers/android/logger.c:385-397 | with room, fixing up a wrapped offset is pulling the boundary it stands for |
| LogWindow.WriteKeepsPoints | drivers/android/logger.c:450-473 | bytes past the write point, committed or not, damage nothing that a pulled pointer can still read |
| LogWindow.CommitKeepsPoints | drivers/android/logger.c:475 | committing an entry extends what every pulled pointer can read by exactly that entry |
| LogWindow.DocumentedSizeTooSmall | drivers/android/logger.c:699-703 | 8192 meets the documented size rule and still has no room for a maximal write after one entry |
| LogWindow.DocumentedSizeReadsGarbage | drivers/android/logger.c:334-346 | in that state the loop reads bytes that were never committed |
| LogRing.WriteRefines | drivers/android/logger.c:448-475 | a complete write in the ring is a commit in the unbounded log, for the head and all readers at once |
| LogRing.FaultyWriteRefines | drivers/android/logger.c:459-473 | a write that fails part way only pulls pointers, whatever bytes it left past the write point |
| LogRing.MoveRefines | drivers/android/logger.c:221-222 | moving one reader to its next boundary is the whole effect of a read or a seek |
| LogRing.LogLenIsUnread | drivers/android/logger.c:622-632 | the difference of the two wrapped offsets is the sum of the unread entries' sizes |
| Logger.LoggerLog.constructor | drivers/android/logger.c:703-760 | a new log stands for the empty unbounded log |
| Logger.LoggerLog.Offset | drivers/android/logger.c:73-76 | the mask gives the offset modulo the size |
| Logger.LoggerLog.GetEntryHeader | drivers/android/logger.c:109-123 | the header is decoded from its cells also when it straddles the end |
| Logger.LoggerLog.GetNextEntry | drivers/android/logger.c:334-346 | the loop ends at the offset the scan specification gives, whatever bytes it meets |
| Logger.LoggerLog.FixUpReaders | drivers/android/logger.c:385-397 | the head and every reader are fixed up, everything else is unchanged |
| Logger.LoggerLog.CopyEntry | drivers/android/logger.c:450-473 | header and payload lie on consecutive cells as far as user memory could be read |
| Logger.LoggerLog.Append | drivers/android/logger.c:448-475 | the whole ring after one write, complete or cut short, is the specified one |
| Logger.LoggerLog.CopyRest | drivers/android/logger.c:470-473 | of the second copy a lap's worth goes round the ring and exactly what exceeds it lands behind the buffer |
| Logger.LoggerLog.CopyOverlong | drivers/android/logger.c:450-473 | header and payload of any length lie on the ring as if laid down byte by byte, but for what lands behind the buffer |
| Logger.LoggerLog.StoreOverlong | drivers/android/logger.c:448-475 | a write longer than the ring: every cell and every offset afterwards, as if laid down byte by byte round and round, and the bytes that land behind the buffer, exactly those beyond two laps |
| Logger.LoggerLog.Write | drivers/android/logger.c:404-482 | a write with room is one commit (or, on a fault, only a pull) of the unbounded log; null writes change nothing; the result is the first segment's length; for every length the whole ring afterwards and how much lands behind the buffer |
| Logger.LoggerLog.Open | drivers/android/logger.c:499-537 | a new reader starts at the head with the right given and version 1, in the ring and in the unbounded log, and no other changes |
| Logger.LoggerLog.Release | drivers/android/logger.c:544-558 | a closed reader is gone and no other changes |
| Logger.LoggerLog.SetVersion | drivers/android/logger.c:595-607 | exactly the versions 1 and 2 are accepted, and an accepted one is the one stored |
| Logger.LoggerLog.FlushLog | drivers/android/logger.c:650-664 | the head and all readers are at the end of the unbounded log, and in the ring at the write offset; entries stay |
| Logger.LoggerLog.GetNextEntryByUid | drivers/android/logger.c:231-249 | the scan ends, at the first boundary whose entry the user logged or at the write point |
| Logger.LoggerLog.SkipUnreadable | drivers/android/logger.c:301-303 | a filtered reader moves to its first readable entry, an unfiltered one stays, and nothing else changes |
| Logger.LoggerLog.Poll | drivers/android/logger.c:569-593 | ready exactly when an entry this reader may see is left |
| Logger.LoggerLog.NextEntryLen | drivers/android/logger.c:633-649 | the length of what the next read hands over, header version included, or 0 |
| Logger.LoggerLog.LogLen | drivers/android/logger.c:622-632 | the sum of the sizes of the unread entries, from two wrapped offsets |
| Logger.LoggerLog.DoReadLogToUser | drivers/android/logger.c:181-225 | the entry under the reader, exactly as committed and in the reader's header version, goes on its record, and the reader stands behind it; a fault changes nothing |
| Logger.LoggerLog.CaughtUp | drivers/android/logger.c:272-280 | the first section under the lock finds out whether anything is left at all |
| Logger.LoggerLog.ReadLocked | drivers/android/logger.c:299-326 | the second section, from whatever state the others left: the reader goes to the next entry it may see and is handed exactly that one, moving behind it, or is told why not and stays in front of it |
| Logger.LoggerLog.Read | drivers/android/logger.c:263-326 | a read that does not wait, the same; only a delivery passes an entry |
| Scatter.TakeBytes | drivers/crypto/aml-sha-dma.c:131-150 | taking bytes of the current entry splits what is pending at exactly that point, also at an entry's end |
| ShaDma.FetchedWholeIff | drivers/crypto/aml-sha-dma.c:477 | the 17-bit length field keeps a descriptor whole exactly below 2^17 bytes |
| ShaDma.FetchedAllWholeIff | drivers/crypto/aml-sha-dma.c:448-489 | a table loses no byte exactly when every piece is short enough |
| ShaDma.CutRequest | drivers/crypto/aml-sha-dma.c:453-478 | a request of one entry of 128 KiB reaches the engine as nothing |
| ShaDma.PieceLength | drivers/crypto/aml-sha-dma.c:453-459 | the fast path takes whole blocks of an entry, or all of the last one of a final request |
| ShaDma.GatherStep | drivers/crypto/aml-sha-dma.c:448-489 | one round of the fast path moves exactly the taken bytes from the request into the table |
| ShaDma.WhereStopped | drivers/crypto/aml-sha-dma.c:498-505 | where the fast path stopped decides which entry and offset the rest starts at |
| ShaDma.ShaRequest.AppendSg | drivers/crypto/aml-sha-dma.c:124-152 | the buffer is filled with the next bytes of the request, as many as fit or are left |
| ShaDma.ShaRequest.Describe | drivers/crypto/aml-sha-dma.c:249-270 | one descriptor carries and counts exactly the bytes its field says; it begins a hash exactly when it is the first of its table and nothing was sent yet, ends it exactly when the table is final, and ends the chain exactly when it is the last |
| ShaDma.ShaRequest.XmitDma | drivers/crypto/aml-sha-dma.c:215-310 | a table becomes one batch with the bytes the engine fetches of it, in order, begun afresh only before the first byte; its descriptors, flags included, are a stretch that stands for that batch |
| ShaDma.ShaRequest.XmitBuffer | drivers/crypto/aml-sha-dma.c:319-343 | the buffered bytes are sent as one batch of one descriptor, which ends the chain, and the buffer is empty |
| ShaDma.ShaRequest.UpdateDmaSlow | drivers/crypto/aml-sha-dma.c:345-367 | message is sent bytes, then buffered, then left; every non-final batch is whole blocks; the request gets shorter |
| ShaDma.ShaRequest.SlowLoop | drivers/crypto/aml-sha-dma.c:440-442 | the loop ends with the request used up |
| ShaDma.ShaRequest.Gather | drivers/crypto/aml-sha-dma.c:446-489 | the table is the specified one of at most 16 pieces, and with the rest makes up the request |
| ShaDma.ShaRequest.AdjustSgHead | drivers/crypto/aml-sha-dma.c:373-398 | the cursor is moved to where the fast path stopped |
| ShaDma.ShaRequest.XmitTable | drivers/crypto/aml-sha-dma.c:490-497 | what is conveyed stays the message exactly when no piece of the table is cut |
| ShaDma.ShaRequest.FastPath | drivers/crypto/aml-sha-dma.c:446-510 | fast, or fast then slow, the whole request is sent or buffered and no byte twice, and nothing is lost exactly when no piece is cut |
| ShaDma.ShaRequest.UpdateDmaStart | drivers/crypto/aml-sha-dma.c:400-510 | whichever path is taken, what is conveyed is the sent bytes followed by the buffer when the request ends |
| ShaDma.ShaRequest.constructor | drivers/crypto/aml-sha-dma.c:154-213 | a new hash has sent and buffered nothing |
| ShaDma.ShaRequest.Update | drivers/crypto/aml-sha-dma.c:1111-1132 | the message grows by exactly the request's bytes, for every scatter list, and the engine goes on getting all of it exactly when the request goes through the buffer or no fast piece is too long |
| ShaDma.ShaRequest.Final | drivers/crypto/aml-sha-dma.c:544-554 | all that was conveyed has been sent and only the last batch is final |
| ShaDma.ShaRequest.Finup | drivers/crypto/aml-sha-dma.c:1159-1183 | the same with the request's bytes appended, with the exact condition for losing none |
| ShaDma.AbsorbConcat | drivers/crypto/aml-sha-dma.c:361-364 | hashing whole blocks and then the rest is hashing the concatenation (section 5.2.1 of FIPS 180-4) |
| ShaDma.EngineFollows | drivers/crypto/aml-sha-dma.c:361-364 | resuming batch after batch and finishing with the last partial block gives the digest of everything, for every compression and finishing function |
| ShaDma.DescsAreBatches | drivers/crypto/aml-sha-dma.c:249-270 | an engine that reads the descriptors, chain by chain, does what the batches say, for any flags it finds there |
| ShaDma.DigestIsOfMessage | drivers/crypto/aml-sha-dma.c:249-270 | of a finished, uncut message an engine that reads the descriptors ends up with the digest of the whole message, its last partial block and length included, whatever state it was in before |
| AesModes.XorCancels | drivers/crypto/aml-aes-dma.c:512-572 | exclusive or with the same bytes twice gives the data back |
| AesModes.XorBitAt | drivers/crypto/aml-aes-dma.c:512-572 | a bit of the exclusive or is set exactly when the two bits differ |
| AesModes.IncAddsOne | drivers/crypto/aml-aes-dma.c:768-780 | incrementing the bytes adds one to the big-endian number and wraps to zero |
| AesModes.AddIsModulo | drivers/crypto/aml-aes-dma.c:768-780 | n increments of 16 bytes add n modulo 2^128 (appendix B.1 of NIST SP 800-38A) |
| AesModes.ChunkCountersAddUp | drivers/crypto/aml-aes-dma.c:867-873 | the increments of the chunks add up to the number of blocks of the whole request |
| AesModes.CryptSplit | drivers/crypto/aml-aes-dma.c:731-733 | processing in pieces that end on a block boundary is processing at once, output and next vector, in all modes |
| AesModes.CtrPadded | drivers/crypto/aml-aes-dma.c:597-599 | filling up the last block changes neither the output before it nor the next counter |
| AesModes.CryptAt | drivers/crypto/aml-aes-dma.c:512-572 | every output block is the cipher on its input block and chaining value, as sections 6.1, 6.2 and 6.5 of NIST SP 800-38A write it |
| AesModes.EcbBytes | drivers/crypto/aml-aes-dma.c:512-572 | every ECB output block is the cipher, or its inverse, on the input block (section 6.1 of NIST SP 800-38A) |
| AesModes.CbcEncryptBytes | drivers/crypto/aml-aes-dma.c:512-572 | every CBC ciphertext block is the cipher on the plaintext xor the ciphertext block before (section 6.2) |
| AesModes.CbcDecryptBytes | drivers/crypto/aml-aes-dma.c:512-572 | every CBC plaintext byte is that of the inverse cipher xor the ciphertext block before (section 6.2) |
| AesModes.CtrBytes | drivers/crypto/aml-aes-dma.c:512-572 | every CTR byte is the input byte xor the cipher on the vector plus the block number modulo 2^128 (section 6.5) |
| AesModes.NextCounter | drivers/crypto/aml-aes-dma.c:830-837 | the counter after a request is the old one plus the blocks rounded up |
| AesModes.NextIsLastOut | drivers/crypto/aml-aes-dma.c:823-829 | the vector after a CBC encryption is the last ciphertext block |
| AesModes.NextIsLastIn | drivers/crypto/aml-aes-dma.c:623-628 | the vector after a CBC decryption is the last ciphertext block of the input |
| AesModes.RoundTrip | drivers/crypto/aml-aes-dma.c:1065-1101 | decrypting undoes encrypting and leaves the same next vector, in ECB, CBC and CTR, for every length |
| AesDma.SgCopy | drivers/crypto/aml-aes-dma.c:312-341 | bytes of the list from the cursor on move into or out of the buffer, as many as both allow, and the cursor follows, for every layout; only an empty entry stops it short |
| AesDma.Increment | drivers/crypto/aml-aes-dma.c:773-777 | the carry loop is the incrementing function |
| AesDma.CtrUpdateIv | drivers/crypto/aml-aes-dma.c:768-780 | the 16 bytes, read as a big-endian number, grow by the value modulo 2^128 |
| AesDma.AesRequest.constructor | drivers/crypto/aml-aes-dma.c:881-936 | bounce buffers of one page, apart from the request's own memory |
| AesDma.AesRequest.InstallIv | drivers/crypto/aml-aes-dma.c:856-873 | the vector taken from the bounce buffers is the mode's next vector |
| AesDma.AesRequest.StartChunk | drivers/crypto/aml-aes-dma.c:574-611 | the next bytes of the list, processed with the engine's own chaining value, padded or not |
| AesDma.AesRequest.StopChunk | drivers/crypto/aml-aes-dma.c:838-874 | the output is back in the list at the right place and the vector is the next one |
| AesDma.AesRequest.Chunk | drivers/crypto/aml-aes-dma.c:574-611 | one chunk is the mode on the next bytes, and engine and request agree on the vector again |
| AesDma.AesRequest.Round | drivers/crypto/aml-aes-dma.c:731-733 | one more chunk keeps the output so far, the chain and the input still to come right, in place too |
| AesDma.AesRequest.Bounce | drivers/crypto/aml-aes-dma.c:731-733 | the loop over the bounce buffers is one run of the mode over the whole request, in place or not, and it ends |
| AesDma.BuildTable | drivers/crypto/aml-aes-dma.c:424-433 | the link table has one entry for each of the list's, in order, with the length its field can hold |
| AesDma.CellsInOrderIff | drivers/crypto/aml-aes-dma.c:424-447 | following the table leads through the first bytes of the list in order exactly when every entry touched has a field long enough |
| AesDma.LongEntryMissed | drivers/crypto/aml-aes-dma.c:428 | an entry of 64 MiB leads nowhere |
| AesDma.AesRequest.EngineLinked | drivers/crypto/aml-aes-dma.c:455-460 | reading and writing through the two tables is the mode on the request when both reach it |
| AesDma.AesRequest.LinkIv | drivers/crypto/aml-aes-dma.c:818-837 | the vector after a linked descriptor is the mode's next vector |
| AesDma.AesRequest.Link | drivers/crypto/aml-aes-dma.c:613-634 | with tables that reach the request, the linked descriptor gives the same output and the same next vector as the bounce buffers, for every layout and in place too |
| AesDma.AesRequest.HandleQueue | drivers/crypto/aml-aes-dma.c:664-757 | for every length and layout both paths give the one-shot output and next vector; other lengths are refused with -EAGAIN and change nothing |
| TeeRefs.OpenStartKeeps | drivers/aml_tee/tee_core.c:47-53 | taking the device reference keeps all counters exact |
| TeeRefs.OpenOkKeeps | drivers/aml_tee/tee_core.c:61-67 | a new context starts with one reference and its driver is there |
| TeeRefs.DropCallerKeeps | drivers/aml_tee/tee_core.c:68-72 | a failed open or a finished close gives its device reference back |
| TeeRefs.CloseKeeps | drivers/aml_tee/tee_core.c:100-106 | closing drops the file's reference; the context goes only with the last reference to it |
| TeeRefs.ReserveKeeps | drivers/aml_tee/tee_shm.c:163-167 | a reserved id names no object yet and belongs to the caller that reserved it |
| TeeRefs.GetDeviceKeeps | drivers/aml_tee/tee_shm.c:101-102 | an allocation on an open context finds the device and takes its reference, and its id stays reserved for it |
| TeeRefs.BuildFailKeeps | drivers/aml_tee/tee_shm.c:136-141 | a failed allocation gives its device reference back, and if it has an id that is still reserved for it alone |
| TeeRefs.UndoKeeps | drivers/aml_tee/tee_shm.c:169-174 | a failed allocation's id is given back: none is left reserved without a caller at work |
| TeeRefs.PinKeeps | drivers/aml_tee/tee_shm.c:243-252 | registering takes the context reference before it works |
| TeeRefs.PinFailKeeps | drivers/aml_tee/tee_shm.c:297-310 | and gives it back when it fails |
| TeeRefs.MakeKeeps | drivers/aml_tee/tee_shm.c:128-135 | a pool object comes with one reference and one on its context |
| TeeRefs.MakePinnedKeeps | drivers/aml_tee/tee_shm.c:289-296 | so does a registered one |
| TeeRefs.PublishKeeps | drivers/aml_tee/tee_shm.c:177-179 | the object enters the id table under its own id, while its maker still holds it |
| TeeRefs.LookupKeeps | drivers/aml_tee/tee_shm.c:474-496 | a lookup by id hands out a reference only to an object that has one |
| TeeRefs.GetFdKeeps | drivers/aml_tee/tee_shm.c:407-420 | so does a file descriptor |
| TeeRefs.PutKeeps | drivers/aml_tee/tee_shm.c:503-524 | dropping the last reference takes the object off the table in the same step |
| TeeRefs.ReleaseCtxKeeps | drivers/aml_tee/tee_shm.c:72-86 | the driver is still there when an object is released and when that releases its context |
| TeeRefs.ReleaseDevKeeps | drivers/aml_tee/tee_shm.c:88-91 | the released object is gone before its device reference is |
| TeeRefs.UnregisterKeeps | drivers/aml_tee/tee_core.c:1063-1072 | unregistering drops one reference; the driver goes only with the last |
| TeeRefs.StepKeepsInv | drivers/aml_tee/tee_core.c:1029-1053 | every step keeps the user count, every context's and every object's count equal to the references there are, every reserved id with a caller at work, and touches nothing that is gone |
| TeeRefs.RunsKeepInv | drivers/aml_tee/tee_core.c:47-106 | the same in every state of every interleaving |
| TeeRefs.ListedMeansReferenced | drivers/aml_tee/tee_shm.c:484-493 | an object the id table lists has a reference, so no count is raised from 0 |
| TeeRefs.WaitEndsWhenNothingIsLeft | drivers/aml_tee/tee_core.c:1071-1079 | when unregister's wait ends there is no context, object, reference or call left, and no id in the table |
| TeeRefs.ReleasedForGood | drivers/aml_tee/tee_shm.c:503-524 | a released object is never found, listed or released again in the rest of the run |
| TeeRefs.StaysOrReleased | drivers/aml_tee/tee_shm.c:72-92 | no step but the end of its own release removes an object, and that step records it |
| TeeRefs.GoneMeansReleased | drivers/aml_tee/tee_shm.c:503-524 | in every run an object that once existed is still there or has been released: together with the row above, released exactly once |
| TeeEffects.StepEffect | drivers/aml_tee/tee_core.c:47-106 | every step, whatever else is going on, does what its operation promises and touches nothing else, said without the step function |
| TeeEffects.CloseEffect | drivers/aml_tee/tee_core.c:100-106 | the file's reference is dropped, the context is closed or, with the last reference, gone, and its caller still holds the device |
| TeeEffects.MakeEffect | drivers/aml_tee/tee_shm.c:128-135 | a new object with one reference, a handle for its maker, one reference more on its context, and the maker about to publish it |
| TeeEffects.LookupEffect | drivers/aml_tee/tee_shm.c:474-496 | a listed id gives one more reference to its object to the context that owns it, and nothing to any other |
| TeeEffects.GetFdEffect | drivers/aml_tee/tee_shm.c:407-420 | one more reference under a new handle for an object with an id, none for one without |
| TeeEffects.PutEffect | drivers/aml_tee/tee_shm.c:503-524 | the handle is gone and the object has one reference less; with the last one its id is off the table in the same step and its release can start; no other thing changes |
| TeeEffects.ReleaseCtxEffect | drivers/aml_tee/tee_shm.c:72-86 | the object's reference on its context is dropped, the context goes with the last one, and the device reference is next |
| TeeEffects.Drain | drivers/aml_tee/tee_shm.c:503-524 | from every state without a call in the middle of an operation, putting its handles and releasing it leads to where an object has been released |
| TeeEffects.CallerCanLeave | drivers/aml_tee/tee_shm.c:136-174 | every caller at every point has a way out that gives back all it took |
| TeeEffects.WaitCanEnd | drivers/aml_tee/tee_core.c:1063-1079 | from every state of every run there is a way on to where nothing is left, no id, no reference and no user, and unregister's wait is over |
| TeeParams.ToInt | drivers/aml_tee/tee_core.c:402 | a 64-bit id passed as an int keeps its value modulo 2^32 |
| TeeParams.RangeTestIsExact | drivers/aml_tee/tee_core.c:411-415 | the two 64-bit tests refuse exactly the ranges that end beyond the object, wrapped sums included |
| TeeParams.NamedIsOwn | drivers/aml_tee/tee_shm.c:484-493 | the lookup finds an object exactly when the id is listed and the object's context is the caller's |
| TeeParams.AllowedIff | drivers/aml_tee/tee_core.c:362-430 | exactly the parameters that kind, owner and range allow are accepted, with exactly that meaning |
| TeeParams.OthersRefused | drivers/aml_tee/tee_shm.c:490-491 | a listed object of another context is refused with -EINVAL |
| TeeParams.ResolveIs | drivers/aml_tee/tee_core.c:356-433 | resolving goes through the parameters one after the other, each allowed in the table of its own time, up to the end or to the first that is not, whose error is the result |
| TeeParams.Early | drivers/aml_tee/tee_core.c:472-503 | the checks before the parameters pass exactly when buffer and argument can be read, the sizes agree and the memory is there |
| TeeParams.HeldAfterUpdate | drivers/aml_tee/tee_core.c:423-425 | storing a parameter adds exactly its reference to those the array holds |
| TeeParams.UnderwayStep | drivers/aml_tee/tee_core.c:362-430 | storing an accepted parameter is one step of the resolution |
| TeeParams.TeeDevice.GetFromId | drivers/aml_tee/tee_shm.c:474-496 | an id leads to an object exactly when it is listed and the object belongs to the caller's context, and then to the listed one, which has one reference more; nothing else changes |
| TeeParams.TeeDevice.Put | drivers/aml_tee/tee_shm.c:503-524 | one reference less; the last one takes the object and its id away |
| TeeParams.TeeDevice.Memref | drivers/aml_tee/tee_core.c:384-422 | a memory reference is accepted exactly when it names an object of the caller's own context and ends within it, or is the allowed null; an object of another context gives -EINVAL; a refused one leaves no reference |
| TeeParams.ValueFromUser | drivers/aml_tee/tee_core.c:362-383 | a parameter that is no memory reference is accepted exactly by the rules, whatever the table says, and holds nothing |
| TeeParams.TeeDevice.ParamFromUser | drivers/aml_tee/tee_core.c:362-430 | one parameter is accepted exactly when the table of its time allows it, by kind, owner and range, and becomes what it means; a refused one gives -EFAULT or -EINVAL and holds nothing |
| TeeParams.TeeDevice.ParamsFromUser | drivers/aml_tee/tee_core.c:356-433 | each parameter is resolved in the table of its own time; the result is the first refusal, and the references taken are those the array holds, repeated ids counted each time |
| TeeParams.TeeDevice.PutParams | drivers/aml_tee/tee_core.c:531-538 | the cleanup loop gives back every reference the array holds, and every object it touches still exists |
| TeeParams.TeeDevice.OpenSession | drivers/aml_tee/tee_core.c:464-541 | on every path, and whatever other users do between any two of its steps, the call leaves none of its references behind; the driver is handed only parameters that the tables of their times allow, so no memory of another context; the result is that of the first check that fails; kernel logins are refused; a session stays open exactly when the caller knows of it or it cannot be closed |
| TeeParams.TeeDevice.Invoke | drivers/aml_tee/tee_core.c:543-602 | the same for invoke |
| TeeParams.QuietResolve | drivers/aml_tee/tee_core.c:356-433 | with nobody else at work exactly the parameters the table accepts are accepted, and the first refusal is reported |
| TeeParams.NothingHeld | drivers/aml_tee/tee_core.c:531-538 | with nobody else at work the table after a call is the table before it |
| PipeCache.WriteFitsIff | drivers/aml_tee/tee_data_pipe.c:265-320 | one pass lands behind the queue and leaves a sound one exactly when it fits; only the wrapped branch can fail to |
| PipeCache.RoomIs | drivers/aml_tee/tee_data_pipe.c:265-315 | a pass goes up to the end of the buffer or up to the data; behind wrapped data it takes the amount of data for that |
| PipeCache.ReadableIs | drivers/aml_tee/tee_data_pipe.c:391-412 | a read pass goes up to the end of the data or of the buffer |
| PipeCache.ReadKeepsShape | drivers/aml_tee/tee_data_pipe.c:391-415 | every read pass leaves a sound queue that starts where the read ended |
| PipeCache.DoublesToIff | drivers/aml_tee/tee_data_pipe.c:310-315 | the recursive test says that doubling some number of times gives the size |
| PipeCache.SafeStep | drivers/aml_tee/tee_data_pipe.c:345-375 | the condition on a whole call is exact pass by pass |
| PipeCache.PassesIff | drivers/aml_tee/tee_data_pipe.c:345-375 | pass by pass, a safe non-blocking call is one append of as much as fits, and every other call ends beyond the size |
| PipeCache.DroppedTwice | drivers/aml_tee/tee_data_pipe.c:391-430 | reading pass by pass is dropping all that was read at once |
| PipeCache.WriteRunEnds | drivers/aml_tee/tee_data_pipe.c:345-376 | how every blocking write ends: done, in front of a full cache without readers left, at a byte that cannot be read, or beyond the size |
| PipeCache.WriteCompletes | drivers/aml_tee/tee_data_pipe.c:345-376 | a blocking write without fault and overrun is finished once the reader has taken something as often as there are bytes to write |
| PipeCache.ReadRunEnds | drivers/aml_tee/tee_data_pipe.c:446-477 | how every blocking read ends: done, in front of an empty cache without writers left, at a byte that cannot be stored, or at an overrun |
| PipeCache.ReadCompletes | drivers/aml_tee/tee_data_pipe.c:446-477 | a blocking read without fault and overrun is finished once the writer has written something as often as there are bytes to read |
| PipeCache.GivenWhole | drivers/aml_tee/tee_data_pipe.c:446-477 | writes during a blocking read that together fit at the start all get in, in order and whole |
| PipeCache.FourTwoTwoOne | drivers/aml_tee/tee_data_pipe.c:265-336 | safe calls lead a four-byte cache to three wrapped bytes |
| PipeCache.Overrun | drivers/aml_tee/tee_data_pipe.c:310-315 | there a call is safe exactly up to the one free byte |
| PipeCache.CyclicCache.constructor | drivers/aml_tee/tee_data_pipe.c:234-250 | a new cache is empty |
| PipeCache.CyclicCache.WriteOnce | drivers/aml_tee/tee_data_pipe.c:265-336 | the bytes copied join the end of the queue exactly when no more than is free is copied; otherwise the oldest unread byte has been replaced and, without a fault, the count exceeds the size; a fault joins nothing |
| PipeCache.CyclicCache.WriteCache | drivers/aml_tee/tee_data_pipe.c:338-382 | a non-blocking call takes exactly the passes of `PipeCache.Passes`; it runs over unread data exactly when the data is wrapped, does not fit and does not double to the size, and the count then exceeds the size; otherwise as much as fits joins the queue; a fault leaves the passes before it, and says where |
| PipeCache.CyclicCache.WriteRound | drivers/aml_tee/tee_data_pipe.c:347-357 | one round is the pass the specification gives, with the bytes it writes; at least one unless the cache is full |
| PipeCache.CyclicCache.WriteBlocking | drivers/aml_tee/tee_data_pipe.c:345-376 | a blocking call, with the reader taking bytes after its rounds, is exactly the run of `PipeCache.WriteRun`: what got in, what was taken and where it stopped; it stops short only in front of a full cache that nobody reads any more; a reported overrun has happened, and none does when all was free at the start; it fails only at a byte that cannot be read |
| PipeCache.CyclicCache.ReadOnce | drivers/aml_tee/tee_data_pipe.c:384-437 | the oldest bytes up to the end of the buffer leave the queue; a fault takes none |
| PipeCache.CyclicCache.ReadRound | drivers/aml_tee/tee_data_pipe.c:448-458 | one round is the pass the specification gives, with the oldest bytes; at least one unless the cache is empty |
| PipeCache.CyclicCache.ReadCache | drivers/aml_tee/tee_data_pipe.c:439-483 | the oldest bytes in order, as many as wanted and there; written is delivered followed by queued; a fault only at a byte that cannot be stored |
| PipeCache.CyclicCache.ReadBlocking | drivers/aml_tee/tee_data_pipe.c:446-477 | a blocking call, with the writer putting bytes after its rounds, is exactly the run of `PipeCache.ReadRun`: what came out, what of each write got in and where it stopped; it stops short only in front of an empty cache that nobody writes any more; a reported overrun has happened, and none does when all writes together fit at the start |
| PipeTable.AdmissionIsExact | drivers/aml_tee/tee_data_pipe.c:227-231 | the 32-bit admission test is the budget test for every size the ioctl lets through |
| PipeTable.AdmitKeepsIds | drivers/aml_tee/tee_data_pipe.c:252-254 | admitting a pipe keeps ids apart exactly when its id is not 0 and not in use |
| PipeTable.NewIdIsFree | drivers/aml_tee/tee_data_pipe.c:253-254 | before the counter wraps the next id is never in use |
| PipeTable.NextIdIsZero | drivers/aml_tee/tee_data_pipe.c:253-254 | a sound table with the largest id as its last, whose next pipe gets the id of closed slots |
| PipeTable.NextIdIsInUse | drivers/aml_tee/tee_data_pipe.c:253-254 | a sound table whose next pipe gets the id of an open one |
| PipeTable.ListenOverLimit | drivers/aml_tee/tee_data_pipe.c:865-868 | a backlog of 65 gets past the limit when only its first byte can be read |
| PipeTable.PipeSet.constructor | drivers/aml_tee/tee_data_pipe.c:548-566 | all slots closed, nothing of the budget used |
| PipeTable.PipeSet.Listen | drivers/aml_tee/tee_data_pipe.c:860-876 | the backlog is within the table exactly when the copy succeeds or what it left is; a backlog out of range becomes the full one |
| PipeTable.PipeSet.FindClosed | drivers/aml_tee/tee_data_pipe.c:213-220 | the first closed slot below the backlog |
| PipeTable.PipeSet.GetPipeById | drivers/aml_tee/tee_data_pipe.c:190-203 | the first slot below the backlog with the id |
| PipeTable.PipeSet.GetAdaptedPipe | drivers/aml_tee/tee_data_pipe.c:205-263 | refused exactly without slot, budget or memory; otherwise the first closed slot, the total grown by both caches, and a sound table exactly when the id is free |
| PipeTable.PipeSet.ClosePipeById | drivers/aml_tee/tee_data_pipe.c:485-546 | exactly the pipe with the id is closed and its memory back in the budget; id 0 and unknown ids change nothing |
| PipeTable.PipeSet.Accept | drivers/aml_tee/tee_data_pipe.c:878-919 | the first opening pipe becomes open and nothing else changes; none exactly when there is none or its id cannot be handed out |
| PipeTable.PipeSet.Destroy | drivers/aml_tee/tee_data_pipe.c:568-597 | every slot below the backlog ends closed, and with the full backlog the budget is whole |
| TraceZone.Shifted | drivers/debug/aml_iotrace.c:568-594 | writing at the start point and moving it on shifts exactly the oldest bytes out |
| TraceZone.WriteKeeps | drivers/debug/aml_iotrace.c:568-594 | the ring ends with the newest bytes of everything written, also after a write longer than the ring |
| TraceZone.Linearised | drivers/debug/aml_iotrace.c:378-380 | the two copies at boot give the kept bytes in the order written |
| TraceZone.PartIsStale | drivers/debug/aml_iotrace.c:584-591 | copying the first bytes only is writing the others with what is there |
| TraceZone.SizeOnly | drivers/debug/aml_iotrace.c:579-581 | with the size set and the start not yet, the saved log still ends with the whole old history |
| TraceZone.Zone.SizeAdd | drivers/debug/aml_iotrace.c:545-559 | the size grows up to the zone's |
| TraceZone.Zone.WriteCut | drivers/debug/aml_iotrace.c:568-594 | a write cut off in the middle leaves a zone that keeps the newest bytes, with what the cells held before for the uncopied ones |
| TraceZone.Zone.Write | drivers/debug/aml_iotrace.c:568-594 | the history grows by all that was written, and the zone keeps its newest bytes |
| TraceZone.Zone.PostInit | drivers/debug/aml_iotrace.c:383-414 | a log is saved exactly when the header is plausible, it is the last bytes written, and the zone starts over empty; an empty zone keeps the start in its header |
| TraceZone.StartAdd | drivers/debug/aml_iotrace.c:530-543 | the start point moves on around the ring |
| TraceZone.RecordsSplit | drivers/debug/aml_iotrace.c:811-822 | records of a concatenation of whole records are the records of both parts |
| TraceZone.RecordAt | drivers/debug/aml_iotrace.c:811-822 | record i is the bytes at forty times i |
| TraceZone.SkipFindsRecords | drivers/debug/aml_iotrace.c:776-804 | after whole-record writes, skipping the remainder leaves exactly the newest whole records |
| TraceDump.PrintOne | drivers/debug/aml_iotrace.c:1146-1160 | showing the chosen record keeps every zone printed from its start, once and in order |
| TraceDump.PrintInOrder | drivers/debug/aml_iotrace.c:999-1016 | with time-ordered zones the chosen record comes after all printed and before all that can follow |
| TraceDump.StrictlyIncreasing | drivers/debug/aml_iotrace.c:1162-1178 | the whole dump is strictly increasing by time, then CPU and type, then place |
| TraceDump.CompleteIff | drivers/debug/aml_iotrace.c:990-995 | a zone comes out whole in the dump exactly when no record in it carries the largest time |
| TraceDump.TailNeverPrinted | drivers/debug/aml_iotrace.c:990-995 | of a log with such a record in the middle exactly the records before it are printed |
| TraceDump.AtPointer | drivers/debug/aml_iotrace.c:927-931 | the pointer test says exactly whether a record is left, and the bytes at the pointer are that record |
| TraceDump.TimeOfRecord | include/linux/amlogic/aml_iotrace.h:143-155 | the time read from a record is the one its layout puts there, for all values of all fields |
| TraceDump.TimeAt | drivers/debug/aml_iotrace.c:990-993 | the time read at the pointer is that of the record |
| TraceDump.Dumper.Init | drivers/debug/aml_iotrace.c:941-978 | every zone's pointer at the first whole record of its saved log, zones without one over, and the earliest of these |
| TraceDump.Dumper.GetNextRecord | drivers/debug/aml_iotrace.c:980-1016 | the earliest next record of all zones, ties by CPU then type, or none |
| TraceDump.Dumper.Show | drivers/debug/aml_iotrace.c:1146-1160 | the record at the pointer is printed and the pointer moves to the next |
| TraceDump.Dumper.AutoDump | drivers/debug/aml_iotrace.c:1162-1178 | the dump ends, prints every zone in order and once up to the first record with the largest time, so whole exactly when there is none, and merges time-ordered zones in order |
| TraceDump.SaveZone | drivers/debug/aml_iotrace.c:360-414 | after whole-record writes and a warm reboot the saved log's records are the newest whole records written |
| TraceDump.DumpAfterReboot | drivers/debug/aml_iotrace.c:1162-1178 | from the writes before a reboot to the dump after it: each zone prints its newest whole records, in order and once, whole exactly when none carries the largest time, merged by time |
| AudioRing.PowerOfTwoIff | drivers/audiobridge/ringbuffer.c:31 | the bit test holds exactly for powers of two |
| AudioRing.RoundUpPowerOf2 | drivers/audiobridge/ringbuffer.c:12-24 | the power of two above the size, at most twice the size; what a shift by the word's width gives from 2^31 up; 0 for 0 |
| AudioRing.CounterCell | drivers/audiobridge/ringbuffer.c:81-84 | masking a wrapped 32-bit counter gives the cell of the unbounded one |
| AudioRing.CounterDistance | drivers/audiobridge/ringbuffer.c:67-70 | the 32-bit difference of wrapped counters is the distance of the unbounded ones |
| AudioRing.RingBuffer.constructor | drivers/audiobridge/ringbuffer.c:46-53 | a zeroed ring, sound and empty when its size is a power of two |
| AudioRing.RingSize | drivers/audiobridge/ringbuffer.c:31-32 | for sizes up to 2^31 a power of two not below the wanted size and below twice it |
| AudioRing.RingBuffer.Init | drivers/audiobridge/ringbuffer.c:26-54 | none without memory or for no bytes; an empty, sound ring for every size up to 2^31 |
| AudioRing.RingBuffer.Store | drivers/audiobridge/ringbuffer.c:89-104 | as much as fits joins the end of the queue |
| AudioRing.RingBuffer.Fetch | drivers/audiobridge/ringbuffer.c:72-87 | the wanted bytes leave the front of the queue |
| AudioRing.RingBuffer.Enqueue | drivers/audiobridge/ringbuffer.c:135-145 | as much as fits joins the live queue, a pending go-empty applied first |
| AudioRing.RingBuffer.Dequeue | drivers/audiobridge/ringbuffer.c:121-133 | all wanted bytes from the front, or none; nothing put before a go-empty comes out |
| AudioRing.RingBuffer.GoEmpty | drivers/audiobridge/ringbuffer.c:147-151 | the live queue is empty at once |
| AudioSpsc.StepKeepsInv | drivers/audiobridge/ringbuffer.c:72-104 | every step of a producer and a consumer interleaved byte by byte keeps the published bytes intact and the wrapped counters true |
| AudioSpsc.TransfersCanFinish | drivers/audiobridge/ringbuffer.c:72-104 | a transfer under way can always take its next step |
| AudioSpsc.StepRefinesQueue | drivers/audiobridge/ringbuffer.c:72-104 | seen as a queue, every step of the ring is exactly that of a bounded queue without mask or counters: a put moves as much as there is room for, a get all that it asked for exactly when that many bytes are there, and only publishing changes what the other side sees |
| AudioSpsc.RunsKeepInv | drivers/audiobridge/ringbuffer.c:72-104 | in every state of every interleaving the published bytes are intact and the wrapped counters true |
| AudioSpsc.DeliveryInOrder | drivers/audiobridge/ringbuffer.c:72-104 | in every run every step is that of the bounded queue, so what was taken is a prefix of what was published and no more than the ring holds lies in between, across any number of counter wraps |

## Left out

- User copies, mutexes, wait queues, allocators, DMA mapping and registers: they are success or failure parameters, or the borders of atomic steps.
- Logger.LoggerLog.FixUpReaders: readers are values in the log's list, so separate reader objects and aliasing between files are not modelled.
- Logger.LoggerLog.Read: sleeping, signals and wake-ups are not modelled; a waiting read is its two sections, `CaughtUp` and `ReadLocked`, with anything in between.
- Logger.LoggerLog.Write: of a write without room in the sense of `LogRuns.Fits` every cell, every offset, the result and the number of bytes behind the buffer are stated, but not what readers then make of it.
- ShaDma.ShaRequest.Update: scatter entries are not empty (on an empty one the code makes no progress), and a message has less than 2^128 bytes; HMAC, export and import and the error flags of the engine are not modelled.
- ShaDma.DigestIsOfMessage: of a cut message only what was conveyed is stated, not what the engine makes of it.
- AesDma.AesRequest.HandleQueue: requests have no empty entries, at which the code would make no progress; an empty CBC request is outside the model, since the code takes the next vector from in front of the buffer; key and mapping errors, the interrupt mode and the fallback for 192-bit keys are not modelled.
- AesDma.AesRequest.EngineRun: the engine is taken to implement the mode with its own chaining register.
- TeeRefs.StepKeepsInv: objects made while their context is being released, the supplicant path, page references and the device bitmap are not modelled; state is a value, since what matters is the interleaving of steps.
- TeeParams.TeeDevice.OpenSession: the driver writes results but leaves attributes and object pointers as they are; other users take and drop their own references only, so an object this call refers to stays.
- PipeCache.CyclicCache.WriteCache: the model stops at the first pass that runs over unread data.
- PipeCache.CyclicCache.WriteBlocking: the wait itself is not modelled; the other end's reads come between the rounds, a full cache with no reads left stands for an interrupted wait or a closed pipe, and an overrun ends the model.
- PipeCache.CyclicCache.ReadBlocking: likewise, with the other end's writes.
- PipeTable.PipeSet.GetAdaptedPipe: open, accept and close are atomic; the pipe counter `g_cur_pipe_cnt`, the waits and their timeouts are not modelled.
- TraceDump.Dumper.Init: zones are one numbered list in CPU and type order; the seq-file restarts and the printing format are not modelled.
- AudioSpsc.StepKeepsInv: a go-empty request while transfers are under way is not modelled.
- The other drivers of the repository (amfc, iotm, DRM, watermark, cpufreq, watchdog, SHA-3, SM4, TDES and more) would only add easier members.
