# The dongle's durable log and its synchronisation, in Dafny

The ESP32 dongle collects OBD-II readings into blocks, signs them, keeps them in a log on flash that
must survive power failures, and sends them to a phone over BLE until the server has confirmed them.
This project models that path and proves what it promises.

* **Flash and its log** (`StoreSpec`, `LogSpec`, `BlockStore`, `Filling`, `Recovery`, `PowerCut`, `Unopened`).
  Flash is a map from the first seq of a segment to the bytes of its file. `StoreSpec` says what each operation does
  to the index in RAM and to the files; the class `BlockStore.SegmentLog` does the same on a ring of
  256 entries. `LogSpec` gives the records behind the bytes, and the results say which records are
  there after appends, failed writes, deletions, discards, power failures at any byte, and restarts, and
  how records fill the files.
* **Seqs over the device's life** (`SeqReserve`, `BlockWriter`, `CommitKeeps`, `Boots`, `Device`,
  `Lifetime`, `OnFlash`, `App`). A state machine of restarts, BOOT and data records, deletions and power failures,
  with a history of every record that ever became durable and a tally of those that left the log;
  `OnFlash` says what each of those records carries.
* **The sync engine** (`SyncProtocol`, `SyncSpec`, `SyncEngine`, `SyncForms`, `SyncSafety`, `SyncRun`,
  `SyncTheorems`, `SyncSession`, `SyncStart`, `SyncTold`, `SyncNotices`, `Discards`, `SyncDevice`). `SyncSpec`
  gives every call as a function on values, the class `SyncEngine.SyncEngine` refines it, and runs interleave
  calls, appends and restarts. `SyncNotices` says which calls send a notice or an error, and what the flags mean.
* **Both together** (`Joint`, `JointStream`, `Journeys`, `Shortfalls`). The device and its engine in one run,
  on one log, from the factory on; and the two runs in which the server is left without word of some seqs.
* **Acquisition** (`Scheduler`, `Lateness`, `BlockBuilder`, `Buffers`, `LogLimit`).
* **Byte-level algorithms** (`Bytes`, `BlockFormat`, `SegmentFormat`, `Damage`, `Crc32`, `Sha256`,
  `Hmac`, `Fragments`, `KnownAnswers`). `KnownAnswers` ties the functions the others are stated with to literal
  bytes and numbers.

Answers from outside (whether a write, a save in NVS, a signature, a tag check, the opening of a file
or a transmission succeeds, how many bytes were written when it did not, the free space, the clock)
are parameters, so every result holds for all of them; what the results about the life of a device
assume beyond that is listed under "Left out".

Three promises of the repository's own documents do not hold of the code as written. The model keeps
the code, and gives the exact condition:

* `.spec/fase-1-seguranca-telemetria/03-firmware-nvs-seq-boot-loss.md` asks (R3) that the seqs on the log and
  the ranges of its BOOTs cover everything from 1 on. If the power fails in the first boot after the
  reserve is saved, the first BOOT has seq 65 and declares an empty range. The promise holds if and
  only if the restart that writes the first durable record finds no reserve in NVS and no counter of
  the old log (`Lifetime.CoverageFromOne`, `Lifetime.CoverageCanMissOne`).
* The same document says that such a gap is then sent as LOSS, 64 seqs at a time. The engine starts at
  the tail of the log. So, once the cursor has passed a seq from before the first record, and as long as
  the server has not confirmed it, a LOSS for it has gone out if and only if the log was empty when the
  sync task of this boot began (`JointStream.StartIsToldExactly`, for every run in which the stream has no
  gap; `SyncTold.MissingIsTold` is the general rule for seqs no record stands for). The order of the start
  writes the BOOT before the sync task begins, so the log is empty at that moment only if that write
  failed; otherwise no message of any boot stands for a seq before the first record, whatever else
  happens (`Joint.StartIsNeverTold`). `Shortfalls.StartCanGoUntold` is a run from the factory in which
  seqs 1 to 64 go untold, and `SyncStart.StartIsReported` one in which the LOSS goes out.
* The rules for the cursor in `.spec/fase-1-seguranca-telemetria/05-firmware-handshake-e-cursor.md` pass over a
  seq only with a LOSS for it or to a BOOT that declares it, so the stream between two rewinds should
  leave nothing out. When the cursor has jumped to a BOOT that declares a gap and the file of that BOOT
  does not open, a LOSS for the BOOT's own seq goes out instead, and the gap stays uncovered; so it does
  when that BOOT is discarded meanwhile. The stream is gap-free if and only if neither happens
  (`SyncTheorems.StreamIsGapFree`, and over the life of a device `JointStream.StreamIsGapFree`), and always if
  files open and no unconfirmed segment is discarded (`SyncTheorems.SteadyStreamIsGapFree`).
  `Shortfalls.StreamCanLeaveAGap` is a run from the factory that leaves seqs 2 to 64 out.

The scan of a segment reports trailing garbage only when more than 12 bytes are left over, because
reading the next header has already consumed a shorter tail; `SegmentFormat.ScanSegment` says so. A boot
removes a segment file that does not open as it removes one without a record, and counts no loss for it
(`Unopened.UnopenedAreGone`).

## Model

| member | source | states |
|---|---|---|
| Bytes.GetPutU16 | esp32-firmware/src/collector/BlockFormat.h:53-64 | a 16-bit integer written little-endian is read back, whatever follows it |
| Bytes.GetPutU32 | esp32-firmware/src/collector/BlockFormat.h:58-69 | the same for 32 bits; wider values are truncated |
| BlockFormat.StampSetsSeq | esp32-firmware/src/collector/BlockFormat.h:71-77 | stamping a header sets the seq that is read back and keeps the length |
| BlockFormat.MarkerRoundTrip | esp32-firmware/src/collector/MarkerBlock.cpp:8-41 | a BOOT or LOSS marker is read back with its kind and range, and its header carries its seq and length |
| BlockFormat.StampKeepsMarker | esp32-firmware/src/collector/BlockFormat.h:73-77 | stamping a marker keeps what it declares |
| KnownAnswers.BootBytes | esp32-firmware/test/support/vectors.h:21 | the 23 bytes of a BOOT |
| KnownAnswers.LossBytes | esp32-firmware/test/support/vectors.h:25 | the 23 bytes of a LOSS |
| Crc32.NibbleIsFourShifts | esp32-firmware/src/crypto/Crc32.cpp:6-11 | each of the 16 table rows does four bits of the reflected division by the polynomial |
| Crc32.Compute | esp32-firmware/src/crypto/Crc32.cpp:14-22 | the table-driven loop equals the bit-by-bit CRC-32, continued from any previous value |
| Crc32.Chains | esp32-firmware/src/crypto/Crc32.cpp:14-22 | the CRC of a concatenation is the CRC of the second part continued from that of the first |
| Crc32.DetectsBurst | esp32-firmware/src/crypto/Crc32.cpp:14-22 | two messages that differ only within four consecutive bytes never have the same CRC |
| Crc32.ChecksumDetectsBurst | esp32-firmware/src/collector/SegmentFormat.cpp:44-48 | nor does the integer stored in a record tell them equal |
| KnownAnswers.CrcCheck | esp32-firmware/test/test_crypto/test_main.cpp:118-123 | the CRC of the digits 1 to 9 is 0xCBF43926 |
| SegmentFormat.ScanSegment | esp32-firmware/src/collector/SegmentFormat.cpp:50-72 | on arbitrary bytes the scan reports exactly the complete records with consecutive seqs, their bytes, and a left-over tail if it is longer than 12 bytes |
| SegmentFormat.ScanOne | esp32-firmware/src/collector/SegmentFormat.cpp:59-69 | one step of the scan accepts exactly a complete record with the expected seq, and otherwise consumes one header |
| SegmentFormat.ReadRecord | esp32-firmware/src/collector/SegmentFormat.cpp:74-94 | on arbitrary bytes fetching answers with the record at that position if its seq is right, not found below the first seq, and corrupt otherwise |
| SegmentFormat.ReadOne | esp32-firmware/src/collector/SegmentFormat.cpp:15-28 | a whole record is read exactly when all its bytes are there |
| SegmentFormat.ScannedIsFetched | esp32-firmware/src/collector/SegmentFormat.cpp:50-94 | on arbitrary bytes every seq the scan accepts is fetched, as the same record, with 12 to 1024 bytes of data and a tag of at most 64 |
| SegmentFormat.RecordsOfWritten | esp32-firmware/src/storage/LittleFsBlockStore.cpp:191-202 | scanning records as they were written gives them back, then whatever the tail holds |
| SegmentFormat.CutIsNotRead | esp32-firmware/src/collector/SegmentFormat.cpp:59-69 | a record cut short at any byte is never taken for a record |
| BlockStore.SegmentLog.DropOldest | esp32-firmware/src/storage/LittleFsBlockStore.cpp:138-143 | the ring loses its oldest entry and flash its file; the block count stays the sum over the ring |
| BlockStore.SegmentLog.DiscardOldest | esp32-firmware/src/storage/LittleFsBlockStore.cpp:145-151 | a drop that is counted, and raises the overflow mark to its last seq |
| BlockStore.SegmentLog.PushSegment | esp32-firmware/src/storage/LittleFsBlockStore.cpp:131-136 | the newest entry is added; a full ring first discards its oldest |
| BlockStore.SegmentLog.EnsureSpace | esp32-firmware/src/storage/LittleFsBlockStore.cpp:160-164 | the loop discards as the specification of making room does, and never the last segment |
| BlockStore.SegmentLog.Begin | esp32-firmware/src/storage/LittleFsBlockStore.cpp:76-129 | the ring is rebuilt from the files alone, unusable ones and those that do not open are removed, and it is shrunk to the limit |
| BlockStore.SegmentLog.Append | esp32-firmware/src/storage/LittleFsBlockStore.cpp:171-240 | the new index, files and answer of an append, for every outcome of the write |
| BlockStore.SegmentLog.Read | esp32-firmware/src/storage/LittleFsBlockStore.cpp:242-256 | a lookup by seq over the ring and one file |
| BlockStore.SegmentLog.NextStoredSeq | esp32-firmware/src/storage/LittleFsBlockStore.cpp:258-265 | the search over the ring is the search over the segments |
| BlockStore.SegmentLog.DeleteUpTo | esp32-firmware/src/storage/LittleFsBlockStore.cpp:267-277 | whole confirmed segments go, the newest stays, and the answer counts them |
| BlockStore.SegmentLog.Corrupt | esp32-firmware/src/storage/LittleFsBlockStore.cpp:294-320 | the walk over record headers and the inverted byte |
| LogSpec.EnsureSpaceDiscards | esp32-firmware/src/storage/LittleFsBlockStore.cpp:145-164 | making room removes whole segments from the old end, one at a time until the block fits or one segment is left and not one more, and counts each record as lost |
| LogSpec.ShrinkDiscards | esp32-firmware/src/storage/LittleFsBlockStore.cpp:125-126 | shrinking to a smaller limit removes whole segments from the old end until their records fit or one is left, and not one more, and counts each record as lost |
| LogSpec.WriteGrows | esp32-firmware/src/storage/LittleFsBlockStore.cpp:204-240 | a complete write to the open segment adds exactly that record behind the others |
| LogSpec.WriteFails | esp32-firmware/src/storage/LittleFsBlockStore.cpp:207-224 | a write that fails at any byte leaves the records as they were and seals the segment, so nothing is ever written after a cut record |
| LogSpec.WriteInNew | esp32-firmware/src/storage/LittleFsBlockStore.cpp:192-229 | a complete write to a new segment adds it; with 256 segments the oldest goes |
| LogSpec.TotalOfDescribed | esp32-firmware/src/storage/LittleFsBlockStore.cpp:131-143 | the block count is the number of records |
| AppendKeeps.AppendOutcome | esp32-firmware/src/storage/LittleFsBlockStore.cpp:171-240 | after an append the records are those before plus the block if and only if it answered true, minus the oldest ones that the loss counter and the overflow mark account for; the limits hold again |
| AppendKeeps.NothingLostWithRoom | esp32-firmware/src/storage/LittleFsBlockStore.cpp:153-164 | an append discards nothing while the block fits and the ring has a free entry, whatever becomes of the write |
| Discards.AppendTakes | esp32-firmware/src/storage/LittleFsBlockStore.cpp:131-164 | an append discards a stored seq exactly if nothing fits before its segment is gone, or if it is in the oldest segment of a full ring and the record opens a new one |
| Discards.TwiceTakesIs | esp32-firmware/src/collector/BlockWriter.cpp:82-91 | the same for the one or two attempts of a commit |
| Filling.FilesHoldSixtyFour | esp32-firmware/src/storage/LittleFsBlockStore.cpp:171-240 | records of one restart and tag length that are all written fill each file to 64 before the next one appears: after n of them, with c in the newest file before, that file holds (c + n - 1) mod 64 + 1 |
| Filling.NothingLostUntilFull | esp32-firmware/src/storage/LittleFsBlockStore.cpp:131-164 | while N and the flash leave room, n records take (c + n - 1) / 64 new files, the files before stay as they were, and up to 256 files nothing is discarded |
| Filling.FilesNeeded | esp32-firmware/src/storage/LittleFsBlockStore.cpp:171-240 | from a restart on, n records take n / 64 files, rounded up, and up to 256 files nothing is discarded |
| Filling.OneWithSpace | esp32-firmware/src/storage/LittleFsBlockStore.cpp:131-136 | while there is room a record costs the oldest file only if it opens the 257th, and no record otherwise |
| Filling.NoSpaceDiscards | esp32-firmware/src/storage/LittleFsBlockStore.cpp:160-164 | and without room for its bytes beyond the 8 KiB kept free, or above N, it costs at least the oldest file |
| Recovery.ReadIsLookup | esp32-firmware/src/storage/LittleFsBlockStore.cpp:242-256 | every record of the log is read back byte for byte |
| Recovery.StoredIsHeld | esp32-firmware/src/storage/LittleFsBlockStore.cpp:242-256 | not found is the answer for exactly the seqs no record has |
| Recovery.NextIsLeast | esp32-firmware/src/storage/LittleFsBlockStore.cpp:258-265 | the least stored seq at or above the one asked for, and 0 exactly when there is none |
| Recovery.DeleteKeeps | esp32-firmware/src/storage/LittleFsBlockStore.cpp:267-277 | a deletion removes exactly the segments up to the bound, except the newest, loses nothing else and counts no loss |
| Recovery.BeginRebuilds | esp32-firmware/src/storage/LittleFsBlockStore.cpp:95-128 | whatever the limit of the firmware, the boot finds exactly the records on flash, minus whole segments from the old end: one at a time until 256 are left and their records fit the limit or one is left, and not one more; each record is counted |
| Recovery.DebrisIsRemoved | esp32-firmware/src/storage/LittleFsBlockStore.cpp:106-109 | a newer file without a whole record is removed and changes nothing else |
| PowerCut.SurvivesPowerCut | esp32-firmware/src/storage/LittleFsBlockStore.cpp:76-129 | after a power failure at any moment of an append, between removals or at any byte of the write, the next boot, with any limit, finds the records of before, plus the one in flight if and only if all its bytes are there, minus the oldest already discarded and the segments that are too many for the boot; with the same limit these are none or the oldest of 257 files |
| PowerCut.CutDeletionIsShorter | esp32-firmware/src/storage/LittleFsBlockStore.cpp:267-277 | a deletion cut short between two removals is the deletion up to the last segment removed |
| PowerCut.CutBootIsMilder | esp32-firmware/src/storage/LittleFsBlockStore.cpp:95-126 | a boot cut short between two removals leaves the files that a boot with a higher limit leaves when it is done |
| Unopened.BeginsWithout | esp32-firmware/src/storage/LittleFsBlockStore.cpp:96-109 | a boot makes of the files what it would make of them without those that do not open, on arbitrary bytes |
| Unopened.UnopenedAreGone | esp32-firmware/src/storage/LittleFsBlockStore.cpp:96-109 | it finds exactly the records of the segments whose files opened, minus what is too much for it, and counts no loss for the others, which are removed |
| Damage.CorruptDamagesOne | esp32-firmware/src/storage/LittleFsBlockStore.cpp:294-320 | the damaged block is still found with its seq and header, fails its CRC if it was intact, and every other record stays |
| Damage.DamageIsSeen | esp32-firmware/src/collector/SegmentFormat.cpp:44-48 | inverting the byte after the header of an intact block, in data, tag or CRC, makes its CRC fail |
| SeqReserve.Recover | esp32-firmware/src/collector/SeqReserve.cpp:5-19 | the BOOT is newer than the log, starts at the reserve when that covers the log, and declares exactly the seqs strictly between the newest block and itself |
| BlockWriter.BlockLogWriter.WriteBootMarker | esp32-firmware/src/collector/BlockWriter.cpp:12-24 | the BOOT is pending until its commit succeeds, and opens a segment |
| BlockWriter.BlockLogWriter.Write | esp32-firmware/src/collector/BlockWriter.cpp:26-38 | no data is committed while a BOOT is pending and cannot be written |
| BlockWriter.BlockLogWriter.Commit | esp32-firmware/src/collector/BlockWriter.cpp:40-95 | reserve, stamp, sign at most twice, append at most twice, consume the seq only on success |
| CommitKeeps.SignedFits | esp32-firmware/src/collector/BlockWriter.cpp:58-78 | a signed block is whole, carries the seq it was given, matches its CRC and declares what its data did |
| CommitKeeps.CommitMoves | esp32-firmware/src/collector/BlockWriter.cpp:40-95 | a commit adds the block or does not; its seq is below the reserve in NVS before it reaches flash, the reserve never shrinks, and the seq is consumed only if the block was added; otherwise a failure is counted |
| OnFlash.CommitLeaves | esp32-firmware/src/collector/BlockWriter.cpp:40-95 | after a commit that answers true its seq is read back as a block whose tag is the first signature that succeeded, whose bytes spell seq and boot id and from byte 6 on are those of the data area handed in, with a CRC over all of it |
| OnFlash.FilesAre | esp32-firmware/src/storage/LittleFsBlockStore.cpp:191-229 | an append that answers true leaves the data, the tag and the CRC, lowest byte first, behind the bytes of the open file, or in a new file behind the eight bytes of its header |
| OnFlash.ReadingsReachFlash | esp32-firmware/src/collector/BlockWriter.cpp:40-95 | a data area the block builder closed is read back, once committed, as a block that decodes to its start time and its readings in order, with the signature on it |
| CommitKeeps.CommitSucceeds | esp32-firmware/src/collector/BlockWriter.cpp:44-95 | a commit succeeds if and only if the reserve covers the seq or its save is answered, one of two signatures succeeds, and one of two writes is complete |
| CommitKeeps.CutCommitKeeps | esp32-firmware/src/collector/BlockWriter.cpp:40-95 | a power failure at any moment of a commit, before or after the save or inside either append, leaves on flash the records with the block or without it, minus exactly those discarded by then, and a reserve above every seq on flash |
| Boots.CommitOpens | esp32-firmware/src/collector/BlockWriter.cpp:18-19 | the record that opens a restart is never behind another one in its segment |
| Boots.LeftOpens | esp32-firmware/src/collector/BlockWriter.cpp:18-19 | nor after a power failure |
| Device.StepKeeps | esp32-firmware/src/app/CollectorApp.cpp:110-139 | every restart, record, deletion and power failure keeps the invariant that ties log, reserve, counters and history |
| Device.PowerOnKeeps | esp32-firmware/src/collector/SeqReserve.cpp:5-19 | a restart, with whatever limit its firmware has, finds the log, minus what is too much for it, and starts above everything written before |
| Lifetime.SeqsNeverReused | esp32-firmware/src/collector/SeqReserve.h:29-35 | over any run of restarts and power failures the durable records carry strictly increasing seqs, above the migrated counter and below the reserve in NVS |
| Lifetime.ReserveOnlyGrows | esp32-firmware/src/collector/BlockWriter.cpp:44-56 | over any run the reserve in NVS never shrinks |
| Lifetime.EveryRunIsShaped | esp32-firmware/src/collector/BlockWriter.cpp:12-38 | in every run the first durable record of each restart is its BOOT, which declares exactly the seqs between the newest durable record and itself; within a restart the rest are data and seqs are contiguous |
| Lifetime.HoldsTheTail | esp32-firmware/src/storage/LittleFsBlockStore.cpp:76-129 | a running device reads back byte for byte every record from some point of its history on and none before; that point is the exact sum of what confirmations freed and appends, interrupted appends and boots discarded, all of it at or below a confirmed seq or an overflow mark; the newest record is never gone |
| Lifetime.OneRestartPerSegment | esp32-firmware/src/collector/BlockWriter.cpp:18-19 | all records the index puts in one segment were written by one restart |
| OnFlash.DurableIsCommit | esp32-firmware/src/collector/BlockWriter.cpp:22-95 | what an event makes durable, a whole commit or one the power failure cut, is one block with the first signature that succeeded, the seq, the boot id and the data area of that event; of a BOOT also the start time and the range |
| OnFlash.EveryRecordIsSigned | esp32-firmware/src/collector/BlockWriter.cpp:22-95 | over every run from the factory: each record that ever became durable is the block of one commit of that run, with its signature, seq, boot id and content |
| Lifetime.CoveredIsRange | esp32-firmware/src/collector/SeqReserve.cpp:15-17 | records and declared gaps cover one range of seqs, from the first durable record to the last, and nothing else |
| Lifetime.CoverageFromOne | esp32-firmware/src/collector/SeqReserve.cpp:15-17 | they cover every seq from 1 on if and only if the restart that writes the first durable record finds no reserve in NVS and no counter of the old log |
| Lifetime.EveryRunIsFounded | esp32-firmware/src/app/CollectorApp.cpp:119-135 | in every run with a durable record there is such a restart |
| Lifetime.CoverageNeedsSeqOne | esp32-firmware/src/collector/SeqReserve.cpp:15-17 | what decides is the seq of the first record |
| Lifetime.CoverageCanMissOne | esp32-firmware/src/collector/SeqReserve.cpp:16-17 | a run in which they do not: the power fails in the first boot between the save and the BOOT |
| Lifetime.WriteIsEvents | esp32-firmware/src/collector/BlockWriter.cpp:26-38 | a write with a pending BOOT is the BOOT event, then the data event; if the BOOT fails it is the first alone, and a second failure is counted |
| App.Start | esp32-firmware/src/app/CollectorApp.cpp:110-139 | boot steps 2 to 6 in their order leave the device of the restart and BOOT events, on the flash without the files that do not open |
| SyncProtocol.TlvRoundTrip | esp32-firmware/src/sync/SyncProtocol.cpp:12-26 | the parser accepts exactly the messages the encoder builds |
| SyncProtocol.AckRoundTrip | esp32-firmware/src/sync/SyncProtocol.cpp:54-68 | an ACK built by the bench command is read back, whatever its tag |
| KnownAnswers.ChallengeIs | esp32-firmware/test/support/vectors.h:9-10 | a challenge decodes to its fields |
| SyncProtocol.ChallengeRoundTrip | esp32-firmware/src/sync/SyncProtocol.cpp:28-42 | so is a challenge without the diagnostic flag |
| SyncProtocol.DiagRoundTrip | esp32-firmware/src/sync/SyncProtocol.cpp:28-42 | the same for a challenge with the diagnostic flag and its two bytes |
| SyncProtocol.ChallengeLengths | esp32-firmware/src/sync/SyncProtocol.cpp:28-32 | a challenge has 45 bytes without the flag and 47 with it, and any other is refused |
| SyncEngine.SyncEngine.Begin | esp32-firmware/src/sync/SyncEngine.cpp:42-49 | the engine starts from the effective tail and the persisted c_S |
| SyncEngine.SyncEngine.OnConnected | esp32-firmware/src/sync/SyncEngine.cpp:76-87 | state of a new connection: no session, no answer, cursor back after the ACK |
| SyncEngine.SyncEngine.HandleChallenge | esp32-firmware/src/sync/SyncEngine.cpp:167-240 | the challenge handler does what its specification says, in every branch |
| SyncEngine.SyncEngine.HandleAck | esp32-firmware/src/sync/SyncEngine.cpp:242-284 | an ACK outside [ack, HEAD] is refused; one that repeats the last answer opens the session and sends a notice |
| SyncEngine.SyncEngine.HandleBatchRequest | esp32-firmware/src/sync/SyncEngine.cpp:286-307 | the batch request handler does what its specification says, in every branch |
| SyncEngine.SyncEngine.HandleAppError | esp32-firmware/src/sync/SyncEngine.cpp:309-322 | two error codes end the batch and rewind the cursor |
| SyncEngine.SyncEngine.OnMessage | esp32-firmware/src/sync/SyncEngine.cpp:145-165 | malformed and unknown messages change nothing; the others reach their handler |
| SyncEngine.SyncEngine.EffectiveTail | esp32-firmware/src/sync/SyncEngine.cpp:326-335 | the oldest seq, or the start of the range its intact BOOT declares |
| SyncEngine.SyncEngine.AdvanceAck | esp32-firmware/src/sync/SyncEngine.cpp:337-350 | ACK, cursor, log and batch after a confirmation |
| SyncEngine.SyncEngine.CheckOverflow | esp32-firmware/src/sync/SyncEngine.cpp:352-363 | a new discard of unconfirmed blocks closes the session |
| SyncEngine.SyncEngine.FindLossEnd | esp32-firmware/src/sync/SyncEngine.cpp:393-404 | the loop extends a run of bad blocks as its specification does |
| SyncEngine.SyncEngine.SendNextBlock | esp32-firmware/src/sync/SyncEngine.cpp:436-505 | one call sends, jumps, ends the batch or stops, exactly as specified, for every outcome of reads, signature and link |
| SyncNotices.NoticesAre | esp32-firmware/src/sync/SyncEngine.cpp:132-143 | exactly these calls send one notice to an app that is connected and subscribed, with HEAD and the flags after the call: a flush, a subscription, the ACK that opens a session, an app error that rewinds, a due tick without a handshake, and the call that finds a discard above the ACK; no other call does |
| SyncNotices.ErrorsAre | esp32-firmware/src/sync/SyncEngine.cpp:167-307 | exactly these messages are answered with an error, and with which code: a bad length or tag, an old c_S, an ACK outside the log, a request without a session |
| SyncNotices.LinksAre | esp32-firmware/src/sync/SyncEngine.cpp:76-107 | what each call does to connection, subscription and session, and up to which discard it has looked |
| SyncNotices.BatchesAre | esp32-firmware/src/sync/SyncEngine.cpp:286-370 | a batch runs after a call if and only if the call begins one, or it ran and the call does not end it: with the connection, a discard to be told, a rewind, an ACK past its end, or a `sendNextBlock` that gets no further |
| SyncNotices.FlagsMean | esp32-firmware/src/sync/SyncEngine.cpp:71-87 | over every run: the flag for the connection is clear if and only if an ACK opened a session on this connection and no discard has closed it since; the flag for the boot is clear if and only if an ACK of this boot opened one with its anchor good |
| SyncForms.SendNextIs | esp32-firmware/src/sync/SyncEngine.cpp:436-505 | exactly when each call ends the batch, jumps over a gap with nothing stored in it to the intact BOOT that declares it, sends the intact block at the cursor, or sends a LOSS for the longest run of lost seqs |
| SyncForms.MessageIs | esp32-firmware/src/sync/SyncEngine.cpp:145-322 | exactly which messages confirm a seq, and which; start a batch, and how long; or rewind. The others leave log, cursor and sent blocks alone |
| SyncForms.NextStoredIs | esp32-firmware/src/storage/LittleFsBlockStore.cpp:258-265 | at or below HEAD there is always a next stored seq, with nothing stored before it |
| SyncSafety.BoundsKept | esp32-firmware/src/sync/SyncEngine.cpp:337-350 | every call keeps ACK < cursor <= HEAD + 1 and the batch below HEAD, and never lowers the ACK |
| SyncSafety.StartInBounds | esp32-firmware/src/sync/SyncEngine.cpp:42-49 | so does the start of a boot |
| SyncSafety.BatchEnds | esp32-firmware/src/sync/SyncEngine.cpp:436-505 | however files, signatures and link behave, a batch ends after at most HEAD + 2 - cursor calls |
| SyncSafety.CreditKept | esp32-firmware/src/sync/SyncEngine.cpp:286-307 | messages sent plus seqs left never exceed the blocks asked for, even when a BOOT gap moves the end of the batch |
| SyncSafety.OrderKept | esp32-firmware/src/sync/SyncEngine.cpp:436-505 | what is sent lies above everything sent since the last rewind |
| SyncSafety.LossIsTruthful | esp32-firmware/src/sync/SyncEngine.cpp:393-434 | a LOSS names at most 64 seqs, and in that very call each was absent, unreadable or failing its CRC |
| SyncSafety.TailIsLeast | esp32-firmware/src/sync/SyncEngine.cpp:326-335 | the reported tail is the least seq the records of the log and the ranges of its BOOTs stand for, if the oldest record is read intact, and the least stored seq otherwise |
| SyncRun.ChallengeResponses | esp32-firmware/src/sync/SyncEngine.cpp:167-240 | a challenge is answered if and only if its tag is good, its c_S is new and NVS keeps it; the answer tells HEAD and tail as they are after the confirmation it carries |
| SyncSafety.LossIsToldFirst | esp32-firmware/src/sync/SyncEngine.cpp:352-363 | while a discard of unconfirmed blocks has not been reported nothing is sent: the session closes first |
| SyncSafety.SentFits | esp32-firmware/src/sync/SyncEngine.cpp:459-464 | whatever the bytes on flash, what is read fits the transmit buffer |
| SyncSafety.LossReadsBack | esp32-firmware/src/sync/SyncEngine.cpp:406-419 | the data area a LOSS goes out with reads back as the marker of its range, and fits the transmit buffer |
| SyncSafety.SendNextGapFree | esp32-firmware/src/sync/SyncEngine.cpp:436-505 | a call keeps the stream gap-free if and only if it does not replace, by a LOSS that goes out, a BOOT on which a gap hangs and whose file does not open |
| SyncTheorems.StreamIsGapFree | esp32-firmware/src/sync/SyncEngine.cpp:337-350 | over a whole run, at every moment each seq between the ACK at the last rewind and the cursor is confirmed, sent, declared by a sent BOOT or LOSS, or declared by the intact BOOT about to be sent, if and only if every event is harmless |
| SyncTheorems.StepGapFree | esp32-firmware/src/sync/SyncEngine.cpp:393-505 | one event keeps the stream gap-free if and only if it is harmless; of an append this is told from the log before it: it is harmful exactly if a gap hangs on the BOOT at the cursor and making room or a place in the ring takes the segment of that BOOT |
| SyncTheorems.ConfirmedDiscardIsHarmless | esp32-firmware/src/storage/LittleFsBlockStore.cpp:160-164 | an append that discards no segment with an unconfirmed seq is harmless |
| SyncTheorems.SteadyStreamIsGapFree | esp32-firmware/src/sync/SyncEngine.cpp:393-505 | in every run in which files open and no unconfirmed segment is discarded, the stream never has a gap |
| SyncTheorems.CursorStaysInBounds | esp32-firmware/src/sync/SyncEngine.cpp:337-350 | in every run, with appends and restarts in between, ACK < cursor <= HEAD + 1 |
| SyncTheorems.NothingSentTwice | esp32-firmware/src/sync/SyncEngine.cpp:436-505 | between two rewinds no seq is sent twice |
| SyncTheorems.CreditIsRespected | esp32-firmware/src/sync/SyncEngine.cpp:286-307 | in every run a request for k blocks leads to at most k block messages |
| SyncTheorems.NothingVanishes | esp32-firmware/src/sync/SyncEngine.cpp:337-363 | in every run a record that is neither confirmed nor below the overflow mark is read back byte for byte, and records that came in = stored + freed by confirmation + counted as lost |
| SyncTheorems.HandshakeIsSafe | esp32-firmware/src/sync/SyncEngine.cpp:193-284 | over all restarts the c_S of the answers sent strictly increase and are persisted, and an open session rests on an answer of this connection and an ACK with its c_conf |
| SyncTheorems.SessionOpensExactly | esp32-firmware/src/sync/SyncEngine.cpp:242-284 | a session opens at an ACK with a good tag, for a block of the log, that repeats the last answer of this connection, and at no other event |
| SyncTheorems.AckMovesExactly | esp32-firmware/src/sync/SyncEngine.cpp:263-270 | within a boot the ACK moves exactly when a message confirms a newer block of the log, and to that block |
| SyncTheorems.StartsGapFree | esp32-firmware/src/sync/SyncEngine.cpp:42-49 | every boot starts with a gap-free stream |
| SyncTheorems.AckNeverFalls | esp32-firmware/src/sync/SyncEngine.cpp:263-270 | within a boot the ACK never falls |
| SyncSession.OpeningOpens | esp32-firmware/src/sync/SyncEngine.cpp:76-307 | from any state of the engine, a connection, a subscription, a challenge, an ACK and a batch request as the app builds them bring it to the start of a batch |
| SyncStart.NothingBelowTheTail | esp32-firmware/src/sync/SyncEngine.cpp:42-49 | in every boot, on whatever log, no message names a seq below the effective tail the engine started at, and the ACK never falls below it |
| SyncStart.NothingBelowTheLog | esp32-firmware/src/sync/SyncEngine.cpp:326-335 | in a boot whose engine starts on a log with records, no block, BOOT range or LOSS stands for a seq below all that the log stands for |
| SyncStart.StartIsReported | esp32-firmware/src/sync/SyncEngine.cpp:484-505 | a run in which the engine starts on an empty log, a BOOT comes in that does not declare the seqs before it, and the first LOSS for them goes out, of 64 seqs or of all |
| SyncTold.MissingIsTold | esp32-firmware/src/sync/SyncEngine.cpp:436-505 | in every run of the engine in which nothing opens a gap, on whatever log a boot starts, each seq above the ACK that the cursor has passed and no record stands for has been named by a LOSS since the last rewind |
| SyncTold.StartIsTold | esp32-firmware/src/sync/SyncEngine.cpp:42-49 | of a boot on an empty log: ACK and cursor start before seq 1, so until the server confirms something that holds of every seq from 1 on, however long the gap at the start |
| SyncTold.RunGenuine | esp32-firmware/src/sync/SyncEngine.cpp:451-470 | over every run: every block sent in this boot came in as a record, byte for byte, and the ACK is not below what it was at the last rewind |
| SyncDevice.DeviceLogIsSound | esp32-firmware/src/collector/SeqReserve.cpp:15-17 | the log of every running device is one the engine's results apply to: a BOOT declares seqs from 1 on, newer than the record before it |
| SyncDevice.CommitFeedsSync | esp32-firmware/src/collector/BlockWriter.cpp:40-95 | what a device commits is what the engine's runs expect of an append |
| SyncDevice.CommitIsFlush | esp32-firmware/src/collector/BlockWriter.cpp:82-91 | and its effect on the log is the same |
| SyncDevice.BuilderFeedsDevice | esp32-firmware/src/collector/BlockBuilder.cpp:51-58 | what the block builder closes is what the device takes as data |
| SyncDevice.FirstRecordStands | esp32-firmware/src/collector/SeqReserve.cpp:15-17 | the log of a device stands for nothing before its first durable record |
| Joint.StepKeeps | esp32-firmware/src/tasks/SyncTask.cpp:23-45 | restarts, records and power failures of the device, the start of the sync task and the calls of the engine keep the invariants of both on one shared log |
| Joint.NothingIsLostUnnoticed | esp32-firmware/src/sync/SyncEngine.cpp:337-363 | over the whole life of a device and its engine every durable record newer than all confirmed seqs and overflow marks is read back, and an observer who adds up how the counters of the log move knows exactly how many others are gone; the device itself forgets its counters when the power goes, and an engine that starts takes the mark its boot raised as told |
| Joint.EngineIsSafe | esp32-firmware/src/sync/SyncEngine.cpp:42-49 | cursor bounds, credit and handshake hold of every such run, over all restarts, and between two rewinds nothing is sent twice |
| Joint.StartIsNeverTold | esp32-firmware/src/sync/SyncEngine.cpp:326-335 | no message stands for a seq before the first durable record of the device, unless the engine started on an empty log |
| JointStream.StreamIsGapFree | esp32-firmware/src/sync/SyncEngine.cpp:393-505 | over the whole life of a device and its engine, in every boot and at every moment, the stream has no gap if and only if every event is harmless |
| JointStream.StepGapFree | esp32-firmware/src/sync/SyncEngine.cpp:393-505 | one event of the device or of its engine keeps the stream gap-free if and only if it is harmless: of the device only a commit that discards the segment of a BOOT on which a gap hangs is not |
| JointStream.MissingIsTold | esp32-firmware/src/sync/SyncEngine.cpp:436-505 | in every such run without a harmful event, each seq above the ACK that the cursor has passed and no durable record ever stood for has been named by a LOSS since the last rewind |
| JointStream.StartIsToldExactly | esp32-firmware/src/sync/SyncEngine.cpp:326-335 | of a seq before the first durable record that the cursor has passed and the server has not confirmed, a LOSS has gone out if and only if the log was empty when the sync task of this boot began |
| Shortfalls.StartCanGoUntold | esp32-firmware/src/app/CollectorApp.cpp:119-139 | a run from the factory: the first boot is cut short after the save, the second writes the BOOT with seq 65 before its sync task begins, the app asks for a block; the cursor is past 65 and nothing sent stands for seqs 1 to 64 |
| Shortfalls.TwoBootsLeave | esp32-firmware/src/collector/SeqReserve.cpp:5-19 | a run from the factory: two boots leave two intact BOOTs on the log, the second with seq 65, which declares seqs 2 to 64 |
| Shortfalls.StreamCanLeaveAGap | esp32-firmware/src/sync/SyncEngine.cpp:471-505 | that run goes on: the app asks for blocks, the cursor jumps to the second BOOT, its file does not open, and a LOSS for seq 65 alone goes out; seqs 2 to 64 are below the cursor and nothing sent stands for them |
| Scheduler.PidScheduler.Apply | esp32-firmware/src/collector/Scheduler.cpp:12-20 | the table of a new configuration, everything due at once |
| Scheduler.PidScheduler.Next | esp32-firmware/src/collector/Scheduler.cpp:26-70 | the loops over the table decide as the specification does on the 32-bit clock |
| Scheduler.PidScheduler.PickUpTo | esp32-firmware/src/collector/Scheduler.cpp:72-88 | the picks of the specification, in its order |
| Scheduler.PidScheduler.OnRead | esp32-firmware/src/collector/Scheduler.cpp:90-103 | the table after a read |
| Lateness.DecisionIs | esp32-firmware/src/collector/Scheduler.cpp:26-70 | an overdue read takes the first of all overdue entries by due time, as many as fit; an early one takes entries past their minimum interval, in the same order, and leaves more than Tmax before anything is due |
| Lateness.ReadsWhenItCan | esp32-firmware/src/collector/Scheduler.cpp:26-60 | there is a read if and only if something is due, or an entry is past its minimum interval and nothing is due within Tmax |
| Lateness.WaitIsExact | esp32-firmware/src/collector/Scheduler.cpp:62-69 | a wait ends at the first moment at which there would be a read, neither before nor after |
| Lateness.ReadIsAhead | esp32-firmware/src/collector/Scheduler.cpp:90-103 | a read in time keeps the phase of its entry, a late one makes it due at once, an early one starts its period anew |
| Lateness.AfterReadIs | esp32-firmware/src/collector/Scheduler.cpp:90-103 | exactly the entries read are rescheduled, each once |
| Lateness.PollKeeps | esp32-firmware/src/collector/Collector.cpp:83-115 | one poll keeps every entry within the lateness its place in the order of service allows |
| Lateness.LatenessIsBounded | esp32-firmware/src/collector/Scheduler.cpp:26-103 | in every run from a configuration on, at every poll, no PID is more than (n - 1) Tmax late, whatever the load, nor unread for longer than its period plus that, and the entry keeps the PID, period and interval it was configured with |
| Lateness.ReadsAreSpaced | esp32-firmware/src/collector/Scheduler.cpp:26-88 | a read asks for at most six PIDs, an early one for none before its minimum interval is over; without PIDs the wait is 1000 ms |
| Lateness.EarlyReadsAddNoLateness | esp32-firmware/src/collector/Scheduler.cpp:49-60 | an early read ends before anything is due |
| Lateness.DecideWraps | esp32-firmware/src/collector/Clock.h:15-21 | on the wrapping clock the scheduler decides as on true time, when times lie less than half a turn apart |
| Lateness.ProgramFollowsTrueTime | esp32-firmware/src/collector/Clock.h:15-21 | a whole run on the 32-bit clock is the run on true time, however often the counter turns over |
| Sha256.Hasher.Update | esp32-firmware/src/crypto/Sha256.cpp:68-82 | the state after an update stands for everything hashed since the start |
| Sha256.Hasher.Finish | esp32-firmware/src/crypto/Sha256.cpp:84-103 | padding the buffer in place gives the one-shot hash, padded as in section 5.1.1 of FIPS 180-4, of everything given |
| Sha256.Hasher.Compress | esp32-firmware/src/crypto/Sha256.cpp:29-66 | the in-place rounds are those of section 6.2.2 of FIPS 180-4 |
| Sha256.HashInPieces | esp32-firmware/src/crypto/Sha256.cpp:68-103 | for every way of cutting a message into pieces, hashing them one after the other gives the hash of the whole |
| Sha256.PadIs | esp32-firmware/src/crypto/Sha256.cpp:84-94 | the padding of the message is its whole blocks followed by the padded tail, one block or two |
| KnownAnswers.RoundConstants | esp32-firmware/src/crypto/Sha256.cpp:8-16 | the 64 round constants are the first 32 bits behind the point of the cube roots of the first 64 primes |
| KnownAnswers.InitialWords | esp32-firmware/src/crypto/Sha256.cpp:21-27 | the initial words are those of the square roots of the first eight primes |
| KnownAnswers.FirstRound | esp32-firmware/src/crypto/Sha256.cpp:42-57 | the registers after the first round for the message abc |
| KnownAnswers.ScheduleIs | esp32-firmware/src/crypto/Sha256.cpp:30-39 | word t of the schedule is the t-th of the block, or made of those 2, 7, 15 and 16 before it |
| KnownAnswers.CompressionIs | esp32-firmware/src/crypto/Sha256.cpp:40-66 | for every block: 64 rounds, each with its constant and word, then the old registers are added |
| Hmac.StreamingHmac.Finish | esp32-firmware/src/crypto/HmacSha256.cpp:38-46 | the tag is that of section 2 of RFC 2104 for every key length and every split of the message |
| Hmac.StreamingHmac.Begin | esp32-firmware/src/crypto/HmacSha256.cpp:31-34 | the object is reusable: a new MAC starts from nothing |
| KnownAnswers.MacIs | esp32-firmware/src/crypto/HmacSha256.cpp:13-46 | for a key of up to 64 bytes the MAC is the outer hash of the inner one, with the key filled up by zeros and exclusive-ored with 0x5C and 0x36 |
| KnownAnswers.LongKeyIsHashed | esp32-firmware/src/crypto/HmacSha256.cpp:13-24 | a longer key counts as its hash |
| Hmac.CtEqual | esp32-firmware/src/crypto/ConstantTime.h:7-13 | the comparison that looks at every byte answers as equality does |
| Hmac.CoveredIsInjective | esp32-firmware/src/security/HandshakeAuth.cpp:15-25 | no two messages of one device, of whatever type, are covered by the same bytes |
| Hmac.Authenticator.Verify | esp32-firmware/src/security/HandshakeAuth.cpp:27-33 | a handshake tag is accepted exactly when it is the first 16 bytes of the MAC over label, type, device and payload |
| Hmac.Authenticator.VerifyBlock | esp32-firmware/src/security/BlockAuth.cpp:14-31 | a block tag is accepted exactly when it is the MAC over label, type, device and data |
| BlockBuilder.Builder.AddPid | esp32-firmware/src/collector/BlockBuilder.cpp:24-35 | a reading is added behind the others exactly when 5 more bytes fit into 1024 and it lies at most 65535 ms after the start; it has the PID, the first two bytes of the value in order or 0, and the start plus its offset is its instant |
| BlockBuilder.Builder.AddGps | esp32-firmware/src/collector/BlockBuilder.cpp:37-49 | the same for a position, with 15 bytes and its three coordinates |
| BlockBuilder.Builder.Close | esp32-firmware/src/collector/BlockBuilder.cpp:51-58 | the buffer holds the data area of exactly the readings added, and decodes to them |
| BlockBuilder.LastIsDecoded | esp32-firmware/src/collector/BlockBuilder.cpp:24-58 | after a reading is added and the block is closed, its bytes decode to a block whose last reading has the given PID, value and instant |
| BlockBuilder.BlockRoundTrip | esp32-firmware/src/collector/BlockBuilder.cpp:7-58 | a closed block decodes to its start and its readings in order, is 12 to 1024 bytes long, and is never taken for a marker |
| BlockBuilder.FirstReadingFits | esp32-firmware/src/collector/BlockBuilder.cpp:7-22 | a block just opened takes its first reading |
| KnownAnswers.DataBytes | esp32-firmware/test/test_acquisition/test_main.cpp:157-181 | the bytes of a block of one reading and one position |
| BlockBuilder.Build | esp32-firmware/src/collector/MarkerBlock.cpp:8-21 | a marker is built in place |
| Fragments.Fragmenter.Next | esp32-firmware/src/sync/Fragmenter.h:20-32 | the fragments go out in order, and then no more |
| Fragments.FragmentFills | esp32-firmware/src/sync/Fragmenter.h:14-31 | for every MTU and message a fragment has at most max(MTU, 23) - 3 bytes, and every one before the last exactly that many; its first byte tells the first fragment and counts modulo 128 |
| Fragments.FewestFragments | esp32-firmware/src/sync/Fragmenter.h:10-18 | no way of splitting the message into fragments that fit takes fewer |
| Fragments.CountIs | esp32-firmware/src/sync/Fragmenter.h:17-18 | the count is the number of fragments that carry at least one byte |
| Fragments.Fragmenter.CountAll | esp32-firmware/src/sync/Fragmenter.h:17-18 | the program computes that count |
| Fragments.Assembler.Feed | esp32-firmware/tools/sync-bench/sync_bench.py:45-58 | the state and the message after a notification |
| Fragments.MessageArrivesOnce | esp32-firmware/src/sync/Fragmenter.h:14-38 | for every well-formed message, every MTU and every state of the assembler, feeding all fragments gives the message exactly once, at the last one |
| Fragments.NothingFromAnIncompleteMessage | esp32-firmware/tools/sync-bench/sync_bench.py:45-58 | if the first fragment arrives and any other is lost, nothing comes out |
| Buffers.HandOversNeverBlock | esp32-firmware/src/rtos/Adapters.h:24-29 | when a buffer is to be passed on, the queue has room |
| Buffers.FlushKeeps | esp32-firmware/src/tasks/FlushTask.cpp:18-33 | taking and giving back a buffer keeps each in exactly one place, and loses, duplicates and reorders no block |
| Buffers.Collector.Append | esp32-firmware/src/collector/Collector.cpp:122-141 | a sample goes into the open block if and only if it fits; otherwise that block is handed over and the sample opens the next one, or is dropped and counted, the latter only when both buffers wait to be written or are being written |
| Buffers.Collector.CloseBlock | esp32-firmware/src/collector/Collector.cpp:65-77 | a block with samples is handed over behind the others, as it is; one without is given back |
| Buffers.Collector.CloseIfDue | esp32-firmware/src/collector/Collector.cpp:79-81 | a block is closed if and only if its deadline has passed on the 32-bit clock; before that nothing changes |
| LogLimit.MaxBlocksFor | esp32-firmware/src/collector/LogLimit.h:17-31 | the most blocks whose worst case fits the usable bytes, between two segments and the ceiling |
| LogLimit.LimitLeavesMargin | esp32-firmware/src/collector/LogLimit.h:17-31 | with 1029 bytes and the tag per block, N blocks take no more than the margin leaves of the total, up to one byte, and one block more would not fit |
| LogLimit.SegmentFitsItsShare | esp32-firmware/src/collector/LogLimit.h:17-20 | a segment of at least eight records takes no more than its share of bytes |

## Left out

- Device.StepKeeps: assumes that seqs stay below 2^32 minus the reserve step and that no wipe occurs.
- BlockStore.SegmentLog.Begin: foreign file names and the removal of the version 1 log are not modelled.
- PowerCut.SurvivesPowerCut: assumes that flash keeps what was written and persists a prefix of a write that is cut; the file system's own blocks are not modelled.
- Device.ConfirmKeeps: a power failure between two removals of one deletion is no event of its own, since `PowerCut.CutDeletionIsShorter` makes it a shorter deletion, then a power failure.
- Device.PowerOnKeeps: a power failure between two removals of one boot is no event of its own, since `PowerCut.CutBootIsMilder` makes it a boot with a higher limit, then a power failure; and every file is assumed to open at boot, without which the log is not the newest part of the history (`Unopened.UnopenedAreGone`).
- BlockWriter.BlockLogWriter.Commit: the report of a write and its durations are not modelled.
- SyncEngine.SyncEngine.Tick: the flash usage flag of a notice is not modelled, and the caller says when a repeated notice is due as the call begins; a notice of the same call puts it off.
- SyncNotices.NoticesAre: a notice counts as sent once it is handed to the link, whatever becomes of it there.
- SyncEngine.SyncEngine.HandleChallenge: whether a tag verifies is a parameter; the diagnostic gate, the boot id and the time in the answer are not modelled.
- Buffers.Collector.Append: blocks are values and buffers only identities here, so the sharing of buffer bytes between tasks is not captured; BlockBuilder models the bytes.
- Lateness.LatenessIsBounded: assumes requests that last at most Tmax and polls no later than the returned wait; a pause of the acquisition is not part of a run.
- Lateness.ProgramFollowsTrueTime: assumes that each period or minimum interval plus n Tmax stays below 2^31 ms, which the validation of a configuration does not check.
- Sha256.Hasher.Finish: a message whose length in bits reaches 2^64 gets the low 64 bits of its length, as in the program; the standard does not define such messages.
- The order in which the sync task drains its queue and steps the engine: runs allow every order.
- ECDSA signatures, the key store, provisioning and the token adapters: a signature is an abstract answer that may fail.
- Debug events, counters kept only for reports, and durations in microseconds.
- BLE, FreeRTOS, NimBLE, LittleFS and Preferences internals: a byte-map file system, persisted integers, bounded queues and a link that may refuse a message take their place.
- ELM327 text, AT commands, CAN framing, GPS geometry, utilisation and the measurement of Tmax.
- The Go server, the web front end and the mobile application.
