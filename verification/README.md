# Verified models of the CF file transfer and of the ground tools

This project models, in Dafny 4.11, three parts of the repository and proves what they are for:

* **CF**, the CFDP file transfer application (`apps/cf/fsw/src`, after CCSDS 727.0-B-5): the bounded
  chunk list with its gap search, the streaming checksum, the receiver and the sender state machines,
  the two of them over a lossy channel, the PDU codec, the circular lists and the queues of a channel.
* **The table tools**: the table-driven CRC-16 of `tools/tblCRCTool`, and `tools/elf2cfetbl`, which turns an
  ELF object (chapter 4 of the System V ABI, 32 or 64 bit, either byte order) into a cFE table file.
* **Packet framing** of CCSDS Space Packets (section 4.1.3 of CCSDS 133.0-B-2) in `tools/DS_app_logs`,
  `tools/ESP32_tools` and the ESP32 firmware.

`dafny verify dfyconfig.toml` checks all of it; no proof needs a raised limit.

## How it is built

Every piece exists twice. A *specification* says on values what an operation makes of a state
(`ChunkSpec`, `GapSpec`, `RxSpec`, `TxSpec`, `CodecSpec`, `CodecPdus`, `CodecPackets`, `ElfSpec`); the properties
are lemmas about it. Beside it stands the code in the source's own form: a class whose methods update fields and
arrays in place (`ChunkLists.ChunkList`, `CfCrc.Crc`, `RxTransactions.RxTransaction`,
`TxTransactions.TxTransaction`, `CLists.CList`, `Queues.Channel`, `Codec.Encoder`, `Codec.Decoder`,
`Elf2CfeTbl.Tool`, `Frames.Firmware`), each method of which is proved to leave exactly the state the
specification says. What a run does is then a fold of the specification over a list of events.

The operating system, the software bus and the output channel are parameters of each step (`RxIo`,
`TxIo`: whether a buffer is to be had, whether a seek works, how much a read or write moves, whether a move
succeeds). Every theorem holds for all their answers unless it names the ones it needs. Timers are
counters of ticks.

## Main results

* `Protocol.NoDataLoss`, `Protocol.OnlyTheSourceIsRetained`: class 2, both parties, any channel that loses,
  duplicates and reorders, any failures, cancellations and restarts of the receiver, reads and writes that move
  any part of what was asked for: as long as no retransmission skips its seek at a wrong place, the source file is
  only given up after a FIN saying COMPLETE and RETAINED was received, and then the receiver has a copy in place.
  `Protocol.NoDataLossOfWholeReads` says what that asks of the file system: no read of a retransmission that
  delivers some but not all of its bytes. `LostSource.SourceIsLost` is a run that has such a read.
  `GivenUp.GivenUpOnReport`, `GivenUp.RetainedOnSum`: what is left without that condition. In every run whatever, the
  source is only given up after such a FIN, some file is in place then, and a receiver that reports RETAINED has
  computed the checksum of the source. A PDU may reach the peer in either class mode.
* `LossyTransfer.LossyTransfer`: a whole class 2 transfer as one run of both parties in which everything may be lost:
  the metadata, any of the file data, EOFs and their acknowledgements, requests for metadata, NAKs, their answers, FINs.
  As long as no limit is reached and enough of the NAK rounds bring something useful, the source ends up in place, the
  sender is told and disposes of its source, and both transactions complete. It is put together from what a lost PDU
  leads to: `EofRepeat.RepeatsEof`, `MdRepeat.MetadataComesBack`, `FinRepeat.RepeatsFin` and `Rounds.RoundsDeliver`.
* `ClassOne.LossFreeClassOne`: class 1 without losses, with and without closure.
* `RxFaults.FirstFaultIsStatus`, `RxFaults.FinCarriesFirstFault`, `TxFaults.FirstFaultIsStatus`,
  `TxFaults.EofCarriesFirstFault`: over every run, by a table of what can go wrong at each event, each party's status is
  the first thing that went wrong, and its FIN or EOF carries the code. `RxFaults.Disposal` and
  `TxFaults.SourceDisposed` say what becomes of the two files, `RxFaults.CompleteIffFound` what the delivery code means.
* `EndToEnd.LossFree`: when nothing is lost, every file, however its bytes come out of the file system, ends up in
  place within file size plus nine ticks, the sender is told and disposes of its source, and both transactions
  complete. `EndToEnd.OneRoundDelivers`: whatever file data was lost, if its gaps fit into one NAK and the sender
  can answer it, the answer is enough.
* `Rounds.RoundsDeliver`: any number of gaps, and in each round the NAK may be lost and any of the sender's pieces be
  lost, repeated, late or out of order: once as many rounds as bytes are missing brought something the receiver's list
  has a place for, with no more rounds in a row in which nothing arrives than the NAK limit and the inactivity timer
  allow, the source is in place. `ChunkGrowth.AddAllGrows` says exactly what has a place, `NakRound.AnswerHelps` that
  any piece of an answer does while the list has room, and the first one when it has none.
* `RxHistory.CoveredMeansWritten`, `RxHistory.CompleteFileIsWhole`: for arbitrary PDUs, a file found complete
  has every byte written, each the last one written at its offset.
* `RxValidate.RetainedIffSum`: for arbitrary PDUs, by what sum a file is kept or thrown away, whatever is written
  while it is being checked; `RxValidate.RetainedIffChecksum`: without such writes it is the checksum of the file.
* `RxDelivery.ReachedDelivers`, `RxProgress.ReachedTerminates`: after any run the receiver decides in bounded time,
  and it ends.
* `TxRetransmit.DrainSplits`, `TxRetransmit.DrainFinishes`, `Repair.OneRoundRepairs`: retransmission is exact, it
  comes to its end exactly when no request is empty and no read runs past the end of the file, and one NAK round that
  gets through completes the file.
* `ChunkSpec.AddRefines`, `GapSpec.GapsAreTheUncoveredRuns`: the chunk list is a set of offsets, the gaps its
  complement.
* `TblCrc.CrcIsDivision`, `TblCrc.BurstChangesCrc`: the signed table loop divides by the polynomial, and no burst
  of up to 16 bits goes unnoticed.
* `ElfConvert.ObjectIsConverted`: every ELF object of either word size and byte order, laid out as the C structures
  declare it, whose table definition and object stand where their symbols say, is turned into a table file with exactly
  that object behind the two headers; `ElfLayout` has the structures one by one. `Elf2CfeTbl.Tool.Convert`,
  `ElfTables.TableHoldsObject`: the table file depends neither on the host's byte order nor on the Verbose switch, and
  holds the object.
* `WireLayout.PacketLayout`: every packet is, bit for bit, the fields of the standard's tables in their order and width.
  `CodecPackets.WholePacketRoundTrip` over the round trips of all PDUs; `CLists`, `Queues.MovesConserve`;
  `DsLog.PacketsCover`, `Frames.SameFrame`.

## Where the code does not do what one would expect

Each is proved, with the condition under which the code is right.

* File data that arrives while the receiver checks the file is still written, and moves the place the check goes on
  reading from (`cf_cfdp_dispatch.c:74-84`, `cf_cfdp_r.c:109-176`). `RxValidate.RetainedIffSum` is the exact condition
  for every run, `RxValidate.RetainedIffChecksum` the case without such writes. For one write at position p of the
  check: if it ends inside the file, what counts is the checksum of the bytes before p and of those from its end on
  (`RxLateData.LateWriteDecides`); if it ends at the end of the file, the check is over and the unfinished sum decides
  (the same lemma); if it ends beyond, the check never ends, unless by an error such as that of the inactivity timer
  (`RxLateData.LateWriteBeyond`); if it comes after the check, the old sum decides about the new bytes
  (`RxLateData.WriteAfterTheCheck`). So a correct file can be thrown away (`LateRuns.GoodFileIsDiscarded`, by an honest
  duplicate) and bytes that were never checked can be kept (`LateRuns.BadFileIsRetained`).
* A NAK segment whose start and end are the same nonzero offset is accepted (`cf_cfdp_s.c:265-340`) and leaves an empty
  request, unless it touches another one or the list is full (`TxRetransmit.EmptySegmentAccepted`). Serving it does
  not take it off the list, so that the sender stays in retransmission for as long as no later NAK merges or displaces
  it and neither a FIN nor the inactivity timer ends the transaction (`TxRetransmit.NeverDrains`;
  `TxRetransmit.DrainFinishes` is the if and only if, with the condition of the next point). The assertion at
  `cf_chunk.c:179` does not hold of such a chunk: a build in which CF_Assert is active stops there, the models follow
  the one in which it is not.
* A read of the source that comes up short moves the file position but not the cached one (`cf_cfdp_s.c:108-150`,
  `TxRetransmit.DriftIff`), and the retry of the same offset does not seek. Two things can follow.
  While the request still fits behind the true position, the retry sends other bytes under its offset
  (`TxRetransmit.DriftedRetry`); `TxRetransmit.PieceTrueIff` says exactly when a piece is true. In the first pass such a
  read is an error for good and does no harm; in a retransmission it can cost the file: `LostSource.SourceIsLost`,
  under the condition that is missing there, `Protocol.AllPlaced`.
  When it does not fit any more, as after every short read of a request that ends at the end of the file, its
  retransmission never comes to an end: `TxRetransmit.OverrunIff` and `TxRetransmit.ShortReadOverruns` say exactly
  which reads do it, `TxRetransmit.OverrunStays` that no call undoes it, `TxRetransmit.OverrunSilent` that at the end
  of the file nothing more is sent, and `TxRetransmit.RepeatedNak` that asking again changes nothing. Only a NAK that
  changes the lowest request, a FIN or the inactivity timer ends it. `WedgedSender.RunWedges` is a run of both parties
  that gets there, `WedgedSender.NeverAnswers` what follows. `TxRetransmit.DrainFinishes` is the if and only if for
  all calls.
* A transaction in HOLD sends in class 1 mode whatever its class, because the class is read off its state
  (`cf_cfdp.c:139-143`, `cf_cfdp.c:329`), and a class 2 peer takes nothing from such a PDU but the restart of its
  inactivity timer (`FinRepeat.HeldAckIsIgnored`). So the acknowledgement with which a held sender answers a repeated
  FIN (`Holdover.HeldSenderAnswers`) does not complete the receiver: if the first one is lost, it repeats its FIN up to
  the limit and then completes, its file in place and its report unchanged (`FinRepeat.EndsWithoutAnswer`). In
  `Protocol` the mode in which a PDU arrives is left open in every delivery, so that the safety results hold for that
  too.
* With room for one chunk only, and that chunk at offset 0, the receiver reports no gap of an incomplete file
  (`cf_cfdp_r.c:328-334`). `Repair.NakSentIff`.
* `CF_ChunkList_ComputeGaps` ignores a nonzero start on an empty list, reports the first gap even when asked for
  none, and does not clip a gap at the file's end when a chunk lies beyond it (`cf_chunk.c:364-435`).
  `GapSpec.EmptyListIgnoresStart`, `GapSpec.GapsLimited`, `GapSpec.GapBeyondTotal`.
* In FINACK the receiver waits for its FIN to be sent; if nothing can ever be sent it never ends
  (`cf_cfdp_r.c:965-994`). `RxProgress.StuckWithoutSends`.
* A history entry taken over from the history queue keeps its old status (`cf_utils.c:127-169`), so a new
  receive transaction may start in error. Setup takes that status as a parameter, and all results hold for every
  value of it; with an error it is in HOLD from the start and never sends anything (`RxStart.HeldFromTheStart`).
* A received file that is longer than announced is kept whole: the checksum only covers the announced size, the
  move takes the rest along (`RxValidate.RetainedIffChecksum`).
* The delivery code and file status a receiver starts with do not fit the bits of a FIN and arrive as COMPLETE
  and DISCARDED (`cf_codec.c:657-671`). `CodecPdus.InitialFinCodes`.
* The length in the header of a packet is not compared with what arrived (`cf_cfdp.c:691-747`, `cf_cfdp.c:841-880`):
  a file data packet that was cut short is taken for a shorter piece of the file. `CodecDrops.TruncatedData`.
* A receiver that could not create its temporary file reports FILESTORE_REJECTION, but with the codes just mentioned,
  which say that the file was complete. `RxStart.RefusedFile`.
* `elf2cfetbl` reads a name whose position, after conversion to a signed type, is negative from wherever the file
  stands, since it does not look at what the seek returns (`elf2cfetbl.c:1719-1912`, `elf2cfetbl.c:1918-2003`).
  `ElfLayout.SectionMisnamed`, `ElfLayout.SymbolMisnamed`.
* `elf2cfetbl` means to accept a symbol that has one unprintable character after the object's name, but tests the
  terminating zero instead, so any character will do (`elf2cfetbl.c:2396-2404`). `ElfTables.ObjectFoundIff` says
  exactly when the right symbol is taken, `ElfTables.WrongObjectFound` shows the other case.
* `view_ds_log.py` skips 140 bytes of header while its comment speaks of 64 and 68; the model follows the constant.

## Model

| member | source | states |
|---|---|---|
| ChunkSpec.MergesIffTouches | apps/cf/fsw/src/cf_chunk.c:238-274 | a new chunk is merged exactly when it overlaps or adjoins one already in the list |
| ChunkSpec.AddMerges | apps/cf/fsw/src/cf_chunk.c:245-255 | merging makes the coverage the union, never lengthens the list, keeps it sorted, disjoint and non-adjacent |
| ChunkSpec.AddInserts | apps/cf/fsw/src/cf_chunk.c:258-261 | with room, a chunk that touches nothing becomes a new entry and the coverage is the union |
| ChunkSpec.AddEvicts | apps/cf/fsw/src/cf_chunk.c:262-271 | a full list replaces its first smallest chunk only if that one is strictly smaller, else it does not change |
| ChunkSpec.AddRefines | apps/cf/fsw/src/cf_chunk.c:282-293 | for every list and chunk: well formed and within the bound afterwards, nothing covered that was not added, and the exact condition for the union |
| ChunkSpec.AddAllRefines | apps/cf/fsw/src/cf_chunk.c:282-293 | the same over any sequence of additions; the union if the bound allows all of them |
| ChunkSpec.Canonical | apps/cf/fsw/src/cf_chunk.c:282-293 | two well formed lists that cover the same offsets are the same list |
| ChunkSpec.RemoveUncovers | apps/cf/fsw/src/cf_chunk.c:301-319 | removing n from the first chunk uncovers its first n offsets and nothing else |
| ChunkLists.ChunkList.constructor | apps/cf/fsw/src/cf_chunk.c:338-356 | an initialised list is empty |
| ChunkLists.ChunkList.EraseRange | apps/cf/fsw/src/cf_chunk.c:45-55 | closes the hole in the array in place and keeps the rest in order |
| ChunkLists.ChunkList.InsertChunk | apps/cf/fsw/src/cf_chunk.c:81-95 | shifts the tail and puts the chunk at the index |
| ChunkLists.ChunkList.FindInsertPosition | apps/cf/fsw/src/cf_chunk.c:103-127 | the binary search returns the first position whose offset is not below the new one |
| ChunkLists.ChunkList.CombinePrevious | apps/cf/fsw/src/cf_chunk.c:135-164 | stretches the previous chunk in place exactly when the new one reaches it |
| ChunkLists.ChunkList.CombineNext | apps/cf/fsw/src/cf_chunk.c:172-208 | joins all following chunks the new one reaches into one entry |
| ChunkLists.ChunkList.FindSmallestSize | apps/cf/fsw/src/cf_chunk.c:216-230 | the index of the first chunk of least size |
| ChunkLists.ChunkList.Insert | apps/cf/fsw/src/cf_chunk.c:238-274 | the array afterwards holds what the specified addition says |
| ChunkLists.ChunkList.ListAdd | apps/cf/fsw/src/cf_chunk.c:282-293 | CF_ChunkListAdd on the array performs the specified addition and keeps the list well formed |
| ChunkLists.ChunkList.ListRemoveFromFirst | apps/cf/fsw/src/cf_chunk.c:301-319 | removal on the array performs the specified one |
| ChunkLists.ChunkList.GetFirstChunk | apps/cf/fsw/src/cf_chunk.c:327-330 | the first chunk, or none exactly when the list is empty |
| ChunkLists.ChunkList.ListComputeGaps | apps/cf/fsw/src/cf_chunk.c:364-435 | the gaps handed to the callback are the specified ones, in order |
| GapSpec.GapsAreTheUncoveredRuns | apps/cf/fsw/src/cf_chunk.c:364-435 | the gaps are the maximal uncovered runs: increasing, non-empty, non-adjacent, and an offset of the reported range is in one exactly when it is not covered; that range begins at the start, or at 0 when the list is empty |
| GapSpec.GapsLimited | apps/cf/fsw/src/cf_chunk.c:364-435 | a limit yields exactly the first gaps; the one exception is a limit of zero |
| GapSpec.NoGapIffCovered | apps/cf/fsw/src/cf_chunk.c:364-435 | asking for any number of gaps returns none exactly when every offset of the file is covered |
| GapSpec.EmptyListIgnoresStart | apps/cf/fsw/src/cf_chunk.c:384-393 | on an empty list the reported gap is the requested range exactly when the start is zero |
| GapSpec.GapBeyondTotal | apps/cf/fsw/src/cf_chunk.c:395-435 | the exact condition under which a reported gap reaches beyond the file |
| CfCrc.FinalizeIsChecksum | apps/cf/fsw/src/cf_crc.c:78-90 | Start, any data, Finalize gives the sum modulo 2^32 of the big-endian words of the zero-padded data |
| CfCrc.DigestMeaning | apps/cf/fsw/src/cf_crc.c:53-70 | in mid-stream the state is the sum of the completed words and the bytes of the unfinished one |
| CfCrc.StreamedChecksum | apps/cf/fsw/src/cf_crc.c:42-90 | the result is the same for every split of the data into Digest calls |
| CfCrc.ResumeAfterFinalize | apps/cf/fsw/src/cf_crc.c:78-90 | a second Finalize changes nothing; a stream resumed after it adds its own checksum |
| CfCrc.Crc.Restart | apps/cf/fsw/src/cf_crc.c:42-45 | the object is back in the initial state |
| CfCrc.Crc.DigestData | apps/cf/fsw/src/cf_crc.c:53-70 | the byte loop over the fields performs the specified digest |
| CfCrc.Crc.FinalizeResult | apps/cf/fsw/src/cf_crc.c:78-90 | pads and folds in the unfinished word as specified |
| RxSafety.RecvKeeps | apps/cf/fsw/src/cf_cfdp_r.c:624-679 | whatever a sender of a file puts on the channel, in any order and class, keeps the receiver's file and chunk list truthful |
| RxSafety.CompleteIsSource | apps/cf/fsw/src/cf_cfdp_r.c:78-101 | when the completeness check passes, the temporary file is the source |
| RxSafety.RetentionKeeps | apps/cf/fsw/src/cf_cfdp_r.c:687-817 | what is moved into place is the source, and only then is RETAINED reported |
| RxSafety.CheckStateKeeps | apps/cf/fsw/src/cf_cfdp_r.c:1002-1075 | every state check, with its entry actions, keeps the receiver's invariant |
| RxSafety.TickKeeps | apps/cf/fsw/src/cf_cfdp_r.c:1129-1188 | every tick keeps the receiver's invariant |
| RxSafety.FinIsTrue | apps/cf/fsw/src/cf_cfdp_r.c:1083-1121 | a FIN that says RETAINED is only sent when the source is in place |
| RxSafety.SetupHolds | apps/cf/fsw/src/cf_cfdp.c:1112-1147 | a new receive transaction satisfies the invariant whatever status its history entry held |
| TxSafety.RecvKeeps | apps/cf/fsw/src/cf_cfdp_s.c:388-432 | any PDU keeps the sender's invariant: requests inside the file, the first FIN on record |
| TxSafety.FirstPassStep | apps/cf/fsw/src/cf_cfdp_s.c:176-195 | whatever the seek and the read deliver, the first pass sends true slices and the running checksum is that of the bytes sent so far |
| TxSafety.SendNewDataEffect | apps/cf/fsw/src/cf_cfdp_s.c:176-195 | a step of the first pass after which the believed position is not the true one leaves the transaction in error |
| TxSafety.FirstPassEnds | apps/cf/fsw/src/cf_cfdp_s.c:824-878 | entering DATA_EOF the finalized checksum is that of the whole source |
| TxSafety.TickNakKeeps | apps/cf/fsw/src/cf_cfdp_s.c:1004-1028 | a retransmission keeps the sender's invariant wherever the file stands, and sends a true slice if it does not skip its seek at a wrong place |
| TxSafety.FilestoreKeeps | apps/cf/fsw/src/cf_cfdp_s.c:548-630 | the source is given up in class 2 only on a recorded FIN that says COMPLETE and RETAINED |
| TxSafety.TickKeeps | apps/cf/fsw/src/cf_cfdp_s.c:886-946 | every tick keeps the sender's invariant and sends only true PDUs |
| Protocol.StepKeeps | apps/cf/fsw/src/cf_cfdp.c:237-251 | every event of the two-party system, PDUs delivered in either class mode included, keeps its invariant, but for a retransmission that skips its seek at a wrong place (GivenUp.RunKeeps has those) |
| Protocol.RunKeeps | apps/cf/fsw/src/cf_cfdp.c:1467-1570 | so does every run of such events |
| Protocol.NoDataLoss | apps/cf/fsw/src/cf_cfdp_s.c:548-630 | in every run in which no retransmission of an announced file skips its seek at a wrong place: if the sender removed or moved away the source, it was not to be kept, the sender has on record a FIN COMPLETE and RETAINED that was sent to it, and the receiver has an equal file in place |
| Protocol.NoDataLossOfWholeReads | apps/cf/fsw/src/cf_cfdp_s.c:108-150 | the same of every run in which no retransmission of an announced file reads some but not all of what it asked for; reads of the first pass may do anything |
| Protocol.AllWholeArePlaced | apps/cf/fsw/src/cf_cfdp_s.c:108-150 | without such reads no retransmission skips its seek at a wrong place |
| LostSource.SourceIsLost | apps/cf/fsw/src/cf_cfdp_s.c:1004-1028 | a concrete run with one such read, in which the source is removed and a different file is in place |
| Unfinished.TickFailed | apps/cf/fsw/src/cf_cfdp_s.c:886-946 | a sender in error stays in error, keeps its source and never sends a good EOF |
| Unfinished.TickBarren | apps/cf/fsw/src/cf_cfdp_r.c:1129-1188 | a receiver without a good EOF puts nothing in place and reports nothing as retained |
| Protocol.OnlyTheSourceIsRetained | apps/cf/fsw/src/cf_cfdp_r.c:687-817 | in every run in which no retransmission of an announced file skips its seek at a wrong place: what the receiver has in place is nothing or the source, and RETAINED is only on the channel when it is the source |
| GivenUp.RunKeeps | apps/cf/fsw/src/cf_cfdp.c:1467-1570 | every run whatever keeps that the good EOFs sent are true and that the source is given up only on a recorded FIN, and, of the receiver, that RETAINED means a file in place and a sum equal to the announced one |
| GivenUp.GivenUpOnReport | apps/cf/fsw/src/cf_cfdp_s.c:548-630 | in every run whatever, misplaced retransmissions included: if the sender removed or moved away the source, it was not to be kept, the sender has on record a FIN COMPLETE and RETAINED that was sent to it, and the receiver has a file in place |
| GivenUp.RetainedOnSum | apps/cf/fsw/src/cf_cfdp_r.c:687-817 | in every run whatever: RETAINED is only on the channel when a file is in place, a receiver that says so computed the checksum of the source, and the checksum and size announced to it are those of the source |
| RxHistory.ReplayLast | apps/cf/fsw/src/cf_cfdp_r.c:109-176 | a file made by writes holds at each written offset the byte written last |
| RxHistory.RunKeeps | apps/cf/fsw/src/cf_cfdp_r.c:624-679 | for arbitrary PDUs and answers of the file system, the chunk list and the file agree with the record of successful writes |
| RxHistory.CoveredMeansWritten | apps/cf/fsw/src/cf_cfdp_r.c:78-176 | in every reachable state a covered offset was written; the completeness check is true exactly when EOF and metadata are in, no NAK is pending and every offset is covered |
| RxHistory.CompleteFileIsWhole | apps/cf/fsw/src/cf_cfdp_r.c:78-101 | a file found complete has every offset written and holds the byte written there last |
| RxProgress.RunForward | apps/cf/fsw/src/cf_cfdp_r.c:1002-1075 | over every run the sub-state rank never decreases and COMPLETE is absorbing |
| RxProgress.TickCloses | apps/cf/fsw/src/cf_cfdp_r.c:1129-1188 | one tick brings an active transaction closer to COMPLETE unless nothing can be sent while a PDU is due |
| RxProgress.Terminates | apps/cf/fsw/src/cf_cfdp_r.c:1129-1188 | without further PDUs, ticks of which enough can send lead to COMPLETE, whatever else fails |
| RxProgress.ReachedTerminates | apps/cf/fsw/src/cf_cfdp_r.c:1129-1188 | the same after any run of a new transaction, unless the status of its history entry had put it in HOLD, where it stays |
| RxProgress.StuckWithoutSends | apps/cf/fsw/src/cf_cfdp_r.c:965-994 | with a FIN that can never be sent, no number of ticks leaves FINACK |
| RxValidate.RetainedIffSum | apps/cf/fsw/src/cf_cfdp_r.c:436-549 | in every run, whatever is written and when: the file is retained exactly when the transaction is in order, the sum of the bytes the check read, as they then stood, is the announced one, and the move succeeds; what is in place is then the temporary file as it now stands |
| RxValidate.RetainedIffChecksum | apps/cf/fsw/src/cf_cfdp_r.c:687-817 | in runs without writes during the check: the file is retained exactly when the transaction is in order, the checksum of the announced size matches the EOF, and the move succeeds |
| RxLateData.LateWriteDecides | apps/cf/fsw/src/cf_cfdp_r.c:917-932 | one write during the check that ends inside the file or at its end: the exact sum that decides, and what is then in place |
| RxLateData.LateWriteBeyond | apps/cf/fsw/src/cf_cfdp_r.c:917-932 | one that ends beyond the file: the check does not end while the transaction is in order, and nothing is retained |
| RxLateData.WriteAfterTheCheck | apps/cf/fsw/src/cf_cfdp_r.c:687-817 | a write in FILESTORE: the sum of the old file decides about the new one |
| LateRuns.GoodFileIsDiscarded | apps/cf/fsw/src/cf_cfdp_r.c:109-176 | a concrete run of true PDUs in which the correct file is discarded for its checksum |
| LateRuns.BadFileIsRetained | apps/cf/fsw/src/cf_cfdp_r.c:687-817 | a concrete run after which bytes whose checksum is not the announced one are in place and reported retained |
| RxDelivery.TickDelivers | apps/cf/fsw/src/cf_cfdp_r.c:1129-1188 | with everything arrived and a working file system, each tick decides or comes closer |
| RxDelivery.Delivers | apps/cf/fsw/src/cf_cfdp_r.c:436-549 | then file size plus six quiet ticks retain the file exactly when its checksum is the announced one, and the decision stands |
| RxDelivery.ReachedDelivers | apps/cf/fsw/src/cf_cfdp_r.c:1129-1188 | the same after any run of a new transaction without writes during the check, as soon as flags, sizes and gap list say that everything is here |
| EndToEnd.LossFree | apps/cf/fsw/src/cf_cfdp.c:1467-1570 | without losses, for every file and every way reads cut it: the receiver reports within file size plus nine ticks, the source is in place, the sender has the FIN on record and has disposed of the source as asked, both transactions are complete |
| EndToEnd.OneRoundDelivers | apps/cf/fsw/src/cf_cfdp_r.c:297-379 | after any loss of file data whose gaps fit into one NAK: if the sender can answer that NAK, its answer and file size plus five ticks bring the right decision about what was put together; the source is in place if the pieces are true, as they are when no read comes up short |
| FirstPass.PassAllSends | apps/cf/fsw/src/cf_cfdp_s.c:176-195 | with as many good calls as bytes are left, among any that get no buffer, all that is left of the source goes out in consecutive pieces, in either class |
| FirstPass.Announces | apps/cf/fsw/src/cf_cfdp_s.c:824-878 | in either class a new sender sends its metadata, the whole file in order, and then the EOF with the size and the checksum of the source |
| ClassOne.LossFreeClassOne | apps/cf/fsw/src/cf_cfdp_r.c:624-632 | class 1 without losses, with and without closure, for every file and every way reads cut it: the source is in place within file size plus nine ticks; a FIN is sent exactly when closure was requested, and the sender then waits for it, records it and completes on it, and otherwise completes on its own |
| ClassOne.Leaves | apps/cf/fsw/src/cf_cfdp_s.c:688-709 | a class 1 sender without closure leaves DATA_EOF once its EOF is out, and notes that nothing was reported to it |
| EofRepeat.RepeatsEof | apps/cf/fsw/src/cf_cfdp_s.c:717-765 | each period of the timer of a sender whose EOF is unanswered sends nothing but one EOF, at its end, with the checksum and size on record, counts it and starts the next period |
| EofRepeat.GivesUp | apps/cf/fsw/src/cf_cfdp_s.c:717-765 | at the limit the sender sends no more and takes NAK_LIMIT_REACHED for its status |
| EofRepeat.OtherAcks | apps/cf/fsw/src/cf_cfdp_s.c:348-380 | an acknowledgement of anything but the EOF, or before the EOF is out, or in HOLD or the other class, does nothing but restart the timer |
| EofRepeat.EofIsAcked | apps/cf/fsw/src/cf_cfdp_r.c:1083-1121 | a class 2 receiver in whatever state, held or not, acknowledges each EOF with its next tick that can send, as long as the limit on EOFs is not reached |
| EofRepeat.EofTaken | apps/cf/fsw/src/cf_cfdp_r.c:184-229 | the first EOF, or another before anything was asked for, is recorded and acknowledged, with the file and the chunk list as they were |
| MdRepeat.MetadataComesBack | apps/cf/fsw/src/cf_cfdp_r.c:365-374 | for every class 2 receiver that waits without metadata and every class 2 sender that is not held: the one PDU that the receiver's tick sends makes the sender's next tick send the metadata, and with that the receiver has size and closure request |
| MdRepeat.DeafAsks | apps/cf/fsw/src/cf_cfdp_r.c:875-910 | without an answer each period of the timer asks for the metadata once, at its end, up to the limit |
| MdRepeat.AnswersMd | apps/cf/fsw/src/cf_cfdp_s.c:954-996 | a sender with nothing else due sends the metadata again and is otherwise as before |
| MdRepeat.DeafNoMore | apps/cf/fsw/src/cf_cfdp_r.c:604-618 | with the metadata the receiver goes on to ask for data, all that had arrived kept |
| FinRepeat.RepeatsFin | apps/cf/fsw/src/cf_cfdp_r.c:965-994 | each period of the timer of a receiver whose FIN is unanswered sends nothing but one FIN, at its end, with the same codes, counts it and starts the next period |
| FinRepeat.EndsWithoutAnswer | apps/cf/fsw/src/cf_cfdp_r.c:965-994 | if no acknowledgement that counts ever comes, the same FIN goes out exactly as often as the limit still allows, and then the receiver completes, its file and report unchanged |
| FinRepeat.AckCompletes | apps/cf/fsw/src/cf_cfdp_r.c:965-994 | the acknowledgement of the FIN completes the receiver with its next tick |
| FinRepeat.FinRecorded | apps/cf/fsw/src/cf_cfdp_s.c:227-257 | the first FIN goes on record with its codes, and its condition code becomes the status of a sender in order |
| FinRepeat.FinIsAcked | apps/cf/fsw/src/cf_cfdp_s.c:954-996 | a class 2 sender, held or not, acknowledges each FIN with its next tick that can send and has nothing more urgent to send, as long as the limit on FINs is not reached |
| FinRepeat.HeldAckIsIgnored | apps/cf/fsw/src/cf_cfdp.c:139-143 | a class 2 receiver takes nothing that arrives in class 1 mode, as everything from a held peer does; only its inactivity timer restarts |
| Recovery.EofTriesRun | apps/cf/fsw/src/cf_cfdp.c:1467-1570 | both parties: any number of EOFs or of their acknowledgements are lost, while the limits allow; the sender goes on calling and the receiver keeps what it has |
| Recovery.EofAnsweredRun | apps/cf/fsw/src/cf_cfdp.c:1467-1570 | the next EOF that gets through with its acknowledgement settles it on both sides |
| Recovery.MdTriesRun | apps/cf/fsw/src/cf_cfdp.c:1467-1570 | the same of requests for metadata and of the metadata sent again |
| Recovery.MdAnsweredRun | apps/cf/fsw/src/cf_cfdp.c:1467-1570 | a request and its metadata that get through let the receiver go on |
| LossyTransfer.LossyTransfer | apps/cf/fsw/src/cf_cfdp.c:1467-1570 | a whole class 2 transfer as one run of the two-party system: metadata, file data, EOFs and their acknowledgements, requests, NAKs, answers and FINs are lost, each under its limit, and what is left of the data arrives in any order: the source ends up in place, the sender has the FIN on record and disposes of its source as asked, both transactions complete |
| ChunkGrowth.AddGrows | apps/cf/fsw/src/cf_chunk.c:238-274 | an addition leaves fewer offsets uncovered exactly when it has a new one and touches the list, finds room or is larger than the smallest entry; otherwise the list stays as it is |
| ChunkGrowth.AddAllGrows | apps/cf/fsw/src/cf_chunk.c:282-293 | the same over any sequence of additions, decided by the list before the first of them |
| NakRound.Asks | apps/cf/fsw/src/cf_cfdp_r.c:825-843 | one period of the timer after a NAK, ticks of a receiver that misses data send nothing but one NAK at its end, count it and restart the timer |
| NakRound.FirstNak | apps/cf/fsw/src/cf_cfdp_r.c:1083-1121 | from its entry into DATA_EOF the receiver acknowledges the EOF and reports its gaps within two ticks |
| NakRound.Hears | apps/cf/fsw/src/cf_cfdp_r.c:643-679 | whatever true pieces arrive in whatever order: the receiver goes on waiting, its timers and NAK count start anew, and it misses fewer bytes exactly when the list had a place for one of them |
| NakRound.AnswerHelps | apps/cf/fsw/src/cf_cfdp_s.c:1004-1028 | every piece of the answer to a NAK is one the list has a place for while it has room; without room the first one sent is, if the beginning of the file is there and the requests fit the sender's list |
| Rounds.RoundStep | apps/cf/fsw/src/cf_cfdp_r.c:875-910 | one round with any losses leaves the sender idle and the receiver waiting, with fewer bytes missing exactly when something useful arrived |
| Rounds.RoundsFill | apps/cf/fsw/src/cf_cfdp_r.c:875-910 | as many useful rounds as bytes are missing, among others that the NAK limit and the inactivity timer allow, end with nothing missing |
| Rounds.RoundsDeliver | apps/cf/fsw/src/cf_cfdp_r.c:1129-1188 | file size plus five ticks later the source is in place and reported RETAINED |
| Rounds.WholeIsAnswered | apps/cf/fsw/src/cf_cfdp_s.c:108-150 | a sender whose reads deliver all they are asked for or nothing gives a true answer in each of any number of rounds |
| LossyRounds.RoundsRun | apps/cf/fsw/src/cf_cfdp.c:1467-1570 | the NAK rounds of Rounds.RoundsFill as runs of the two-party system, what was lost before included |
| RxFaults.FirstFaultIsStatus | apps/cf/fsw/src/cf_cfdp_r.c:1002-1075 | in every run the receiver's status is the first thing that went wrong, by a table of what can go wrong at each event, and no error if nothing did |
| RxFaults.FinCarriesFirstFault | apps/cf/fsw/src/cf_cfdp.c:610-652 | a FIN at the end of any run carries the condition code of the first thing that went wrong in it |
| RxFaults.CodesAreStatuses | apps/cf/fsw/src/cf_utils.c:600-630 | statuses 1 to 11, 14 and 15 are sent as themselves, those of a missing FIN or EOF as 8, all other errors as 15 |
| RxFaults.PeerTakesCode | apps/cf/fsw/src/cf_cfdp_s.c:203-257 | a class 2 sender puts the code of the first FIN on record and takes it for its status, unless it has an error of its own or is still sending |
| RxFaults.Disposal | apps/cf/fsw/src/cf_cfdp_r.c:687-817 | the tick in FILESTORE puts the file in place exactly if nothing was or goes wrong, removes it otherwise, and sets delivery code, file status and status; a FIN follows in class 2, and in class 1 if closure was requested |
| RxFaults.CompleteIffFound | apps/cf/fsw/src/cf_cfdp_r.c:875-910 | in every run the transaction counts as complete exactly when a check of the run, made in order, found the file so |
| RxFaults.FirstEofIsOnRecord | apps/cf/fsw/src/cf_cfdp_r.c:184-229 | in every run condition code, checksum and size on record are those of the first EOF that was looked at |
| RxStart.NewStatus | apps/cf/fsw/src/cf_cfdp_r.c:387-428 | the status of a new transaction after any run, the creation of its temporary file included |
| RxStart.RefusedFile | apps/cf/fsw/src/cf_cfdp_r.c:687-817 | without a temporary file no run puts a file in place, and every FIN says FILESTORE_REJECTION, with codes that arrive as COMPLETE and DISCARDED |
| RxStart.HeldFromTheStart | apps/cf/fsw/src/cf_cfdp.c:1112-1147 | a transaction whose history entry held an error keeps that error and never sends anything, in any run |
| TxFaults.FirstFaultIsStatus | apps/cf/fsw/src/cf_cfdp_s.c:824-878 | in every run the sender's status is the first thing that went wrong |
| TxFaults.EofCarriesFirstFault | apps/cf/fsw/src/cf_cfdp.c:492-535 | an EOF that a run sends carries the condition code of the first thing that went wrong in it |
| TxFaults.LeavesDataNormal | apps/cf/fsw/src/cf_cfdp_s.c:663-680 | exactly when a tick of the first pass goes on to DATA_EOF, and when it gives up |
| TxFaults.LeavesDataEof | apps/cf/fsw/src/cf_cfdp_s.c:688-794 | exactly when a sender of either class leaves DATA_EOF, and when it counts as complete |
| TxFaults.SourceDisposed | apps/cf/fsw/src/cf_cfdp_s.c:548-630 | what becomes of the source file at the end, by class, outcome, report and configuration |
| Holdover.ReceiverIsKept | apps/cf/fsw/src/cf_cfdp.c:163-171 | a receive transaction that ends is recycled after exactly twice the acknowledgement timer's ticks, if nothing arrives |
| Holdover.ReceiverIsKeptOn | apps/cf/fsw/src/cf_cfdp.c:237-251 | whatever arrives for it begins that time anew |
| Holdover.HeldReceiverAnswers | apps/cf/fsw/src/cf_cfdp.c:998-1034 | a held class 2 receiver acknowledges a repeated EOF once, and answers nothing else |
| Holdover.SenderIsKept | apps/cf/fsw/src/cf_cfdp.c:163-171 | a send transaction that ends is kept as long |
| Holdover.SenderIsKeptOn | apps/cf/fsw/src/cf_cfdp.c:237-251 | whatever arrives for it begins that time anew |
| Holdover.HeldSenderAnswers | apps/cf/fsw/src/cf_cfdp.c:998-1034 | a held class 2 sender acknowledges a repeated FIN once, and answers nothing else |
| Throttles.NewPieceSize | apps/cf/fsw/src/cf_cfdp_s.c:49-108 | a piece of the first pass is exactly as long as the rest of the file, the room in the packet and the configured size allow |
| Throttles.RepeatedPieceSize | apps/cf/fsw/src/cf_cfdp_s.c:49-108 | one that is sent again, the same with the lowest request |
| Throttles.WakeupReaches | apps/cf/fsw/src/cf_cfdp_r.c:485-549 | one wakeup takes the check of a readable file on by the configured number of bytes, rounded up to blocks of 1024, or to the end; there, and only there, the checksum is final |
| TxRetransmit.NakRequests | apps/cf/fsw/src/cf_cfdp_s.c:265-340 | after a NAK the sender owes exactly what it owed and the accepted segments, if the list has room, and never anything else |
| TxRetransmit.TickNakServes | apps/cf/fsw/src/cf_cfdp_s.c:1004-1028 | whatever the read delivers: a successful call sends a piece under the offset of the lowest request and takes exactly its length off; any other leaves the list alone |
| TxRetransmit.DrainSplits | apps/cf/fsw/src/cf_cfdp_s.c:1004-1028 | over any calls, the offsets sent and those still owed split those owed before: none lost, none twice, no other |
| TxRetransmit.DrainInOrder | apps/cf/fsw/src/cf_cfdp_s.c:1004-1028 | over any calls the pieces are sent lowest offset first and do not overlap |
| TxRetransmit.PieceTrueIff | apps/cf/fsw/src/cf_cfdp_s.c:49-168 | a piece holds the bytes its offset names exactly when no needed seek was skipped, or nothing was sent, or the bytes at the true position happen to be equal |
| TxRetransmit.DrainIsTrue | apps/cf/fsw/src/cf_cfdp_s.c:1004-1028 | calls none of which skips a needed seek send slices of the source only |
| TxRetransmit.NoneShortIsPlaced | apps/cf/fsw/src/cf_cfdp_s.c:108-150 | calls none of which reads some but not all of what it asked for never skip a needed seek |
| TxRetransmit.TickNakOutstanding | apps/cf/fsw/src/cf_cfdp_s.c:1004-1028 | each call lowers the bytes owed by exactly what it sent |
| TxRetransmit.DrainFinishes | apps/cf/fsw/src/cf_cfdp_s.c:1004-1028 | with enough good calls among any others, whatever the reads deliver, the pending flag clears exactly when no request was empty, the lowest one fits into the file from where it will be read, and no read of the calls runs past that; nothing is owed then |
| TxRetransmit.OverrunIff | apps/cf/fsw/src/cf_cfdp_s.c:108-150 | one call leaves the lowest request reaching beyond the end of the file from where the file stands exactly when its read stops short and the request does not fit behind it |
| TxRetransmit.ShortReadOverruns | apps/cf/fsw/src/cf_cfdp_s.c:108-150 | a short read from the right place does that exactly when request and delivered bytes together reach beyond the file, so always for the last bytes of the file |
| TxRetransmit.OverrunStays | apps/cf/fsw/src/cf_cfdp_s.c:1004-1028 | no sequence of calls undoes it, whatever the reads deliver |
| TxRetransmit.OverrunSilent | apps/cf/fsw/src/cf_cfdp_s.c:1004-1028 | with the file at its end, no sequence of calls sends another byte or changes what is owed |
| TxRetransmit.RepeatedNak | apps/cf/fsw/src/cf_cfdp_s.c:265-340 | a NAK for what is owed already changes neither the requests nor the file position |
| TxRetransmit.WholeReadsFit | apps/cf/fsw/src/cf_cfdp_s.c:108-150 | where the lowest request fits, calls without short reads never run past the end |
| WedgedSender.RunWedges | apps/cf/fsw/src/cf_cfdp_s.c:1004-1028 | a concrete run of both parties: the last four of twelve bytes are lost and asked for, two short reads, and nothing was sent again |
| WedgedSender.NeverAnswers | apps/cf/fsw/src/cf_cfdp_s.c:1004-1028 | from there, however good all later calls are, none of the missing bytes is sent, not even when they are asked for again |
| TxRetransmit.EmptySegmentAccepted | apps/cf/fsw/src/cf_cfdp_s.c:265-340 | for every list of requests: a NAK segment leaves an empty request exactly when start equals end, nonzero and inside the file, it touches no other request and there is room |
| TxRetransmit.NeverDrains | apps/cf/fsw/src/cf_cfdp_s.c:1004-1028 | an empty request is there, and the sender pending, after any number of retransmission calls |
| TxRetransmit.NakKeepsNonEmpty | apps/cf/fsw/src/cf_cfdp_s.c:265-340 | a NAK without such segments leaves no empty request |
| TxRetransmit.DriftIff | apps/cf/fsw/src/cf_cfdp_s.c:49-168 | the cached position stays the true one exactly when no read delivers some but not all of what was asked |
| TxRetransmit.DriftedRetry | apps/cf/fsw/src/cf_cfdp_s.c:49-168 | after such a read, while the request still fits, the retry sends the bytes of another offset under the requested one |
| Repair.NakSentIff | apps/cf/fsw/src/cf_cfdp_r.c:297-379 | the receiver sends no NAK exactly when nothing is missing, or its one-chunk list is full and starts at 0 |
| Repair.NakCarriesAllGaps | apps/cf/fsw/src/cf_cfdp_r.c:265-289 | the NAK lists every gap when they fit |
| Repair.SegmentsAreTheMissing | apps/cf/fsw/src/cf_cfdp_r.c:265-289 | its segments contain an offset exactly when it is missing |
| Repair.AnswerFillsGaps | apps/cf/fsw/src/cf_cfdp_s.c:1004-1028 | what an idle sender transmits in answer, failed calls and short reads in between included: it gets through exactly when it can answer, and then covers exactly the missing offsets, in order; it is true if no read comes up short |
| Repair.PiecesComplete | apps/cf/fsw/src/cf_cfdp_r.c:109-176 | pieces that fill the gaps in order, whatever bytes they hold, complete the receiver's list even when it was full |
| Repair.OneRoundRepairs | apps/cf/fsw/src/cf_cfdp_r.c:297-379 | one NAK round is through exactly when the sender can answer; it leaves the sender with nothing to send and the receiver with a complete file, which is the source exactly when the pieces were true; both hold when no read comes up short |
| RxTransactions.RxTransaction.constructor | apps/cf/fsw/src/cf_cfdp_r.c:387-428 | a new receive transaction is the specified one |
| RxTransactions.RxTransaction.SetTxnStatus | apps/cf/fsw/src/cf_cfdp.c:2156-2162 | the first error status sticks |
| RxTransactions.RxTransaction.SubstateRecvFileData | apps/cf/fsw/src/cf_cfdp_r.c:236-257 | seek, write and chunk bookkeeping in place give the specified state, on the error paths too |
| RxTransactions.RxTransaction.SubstateRecvEof | apps/cf/fsw/src/cf_cfdp_r.c:184-228 | only the first EOF is taken over; every one is counted up to the limit |
| RxTransactions.RxTransaction.SubstateRecvMd | apps/cf/fsw/src/cf_cfdp_r.c:604-616 | until metadata with acceptable file names has come, any metadata sets the size and the closure request; only such metadata counts as received |
| RxTransactions.RxTransaction.DispatchRecv | apps/cf/fsw/src/cf_cfdp_dispatch.c:40-94 | reception in every state, class and sub-state gives the specified state |
| RxTransactions.RxTransaction.IsFileComplete | apps/cf/fsw/src/cf_cfdp_r.c:78-101 | the completeness check over the list object agrees with the specified one |
| RxTransactions.RxTransaction.ReadCrcChunks | apps/cf/fsw/src/cf_cfdp_r.c:485-549 | the read and digest loop of one wakeup gives the specified state |
| RxTransactions.RxTransaction.DisposeOfFile | apps/cf/fsw/src/cf_cfdp_r.c:687-817 | the disposition of the file in all its branches is the specified one |
| RxTransactions.RxTransaction.CheckAndChangeState | apps/cf/fsw/src/cf_cfdp_r.c:1002-1075 | checks, transition and entry actions give the specified state |
| RxTransactions.RxTransaction.SendNak | apps/cf/fsw/src/cf_cfdp_r.c:297-379 | the NAK is the specified one, none when no gap is found |
| RxTransactions.RxTransaction.TickTransaction | apps/cf/fsw/src/cf_cfdp_r.c:1129-1188 | one tick gives the specified state, PDUs and recycling decision |
| TxTransactions.TxTransaction.constructor | apps/cf/fsw/src/cf_cfdp_s.c:440-540 | a new send transaction with its source open is the specified one |
| TxTransactions.TxTransaction.SendData | apps/cf/fsw/src/cf_cfdp_s.c:49-168 | seek, read, digest and send give the specified state, result and PDU, on the error paths too |
| TxTransactions.TxTransaction.SendNextData | apps/cf/fsw/src/cf_cfdp_s.c:176-195 | the next piece of the first pass; a missing buffer is benign, other failures are errors |
| TxTransactions.TxTransaction.TickNakRequests | apps/cf/fsw/src/cf_cfdp_s.c:1004-1028 | one retransmission call gives the specified state and PDUs |
| TxTransactions.TxTransaction.SubstateNak | apps/cf/fsw/src/cf_cfdp_s.c:265-340 | the loop over the segments gives the specified requests and flags |
| TxTransactions.TxTransaction.SubstateRecvFin | apps/cf/fsw/src/cf_cfdp_s.c:227-257 | only the first FIN is taken over; every one is counted up to the limit |
| TxTransactions.TxTransaction.DispatchRecv | apps/cf/fsw/src/cf_cfdp_dispatch.c:102-157 | reception in every state, class and sub-state gives the specified state |
| TxTransactions.TxTransaction.DisposeOfFile | apps/cf/fsw/src/cf_cfdp_s.c:548-630 | the fate of the source file is the specified one |
| TxTransactions.TxTransaction.CheckAndChangeState | apps/cf/fsw/src/cf_cfdp_s.c:824-878 | checks, transition and entry actions give the specified state |
| TxTransactions.TxTransaction.TickTransaction | apps/cf/fsw/src/cf_cfdp_s.c:886-946 | one tick gives the specified state, PDUs and recycling decision |
| CLists.CList.InsertFront | apps/cf/fsw/src/cf_clist.c:52-73 | the ring is the node followed by the old ring, next and prev mutually inverse |
| CLists.CList.InsertBack | apps/cf/fsw/src/cf_clist.c:81-103 | the ring is the old ring followed by the node |
| CLists.CList.InsertAfter | apps/cf/fsw/src/cf_clist.c:167-180 | the node stands right after the given one, the others in their order |
| CLists.CList.Remove | apps/cf/fsw/src/cf_clist.c:132-159 | the ring without the node, which is alone again; the head moves on if it was the head |
| CLists.CList.Pop | apps/cf/fsw/src/cf_clist.c:111-124 | takes the first node; none exactly when the list is empty |
| CLists.CList.Traverse | apps/cf/fsw/src/cf_clist.c:188-219 | visits each node once and in order until the callback ends it, even when callbacks remove the visited node, and the list afterwards is the nodes not removed |
| CLists.CList.TraverseBack | apps/cf/fsw/src/cf_clist.c:227-265 | the same from the last node to the first |
| CLists.NextIsStart | apps/cf/fsw/src/cf_clist.c:200-217 | after any removals so far, the saved successor is the start exactly at the last node |
| CLists.PrevIsEnd | apps/cf/fsw/src/cf_clist.c:245-263 | the same backwards |
| Queues.Channel.RemoveEx | apps/cf/fsw/src/cf_utils.h:141-146 | the node is in no queue, the counter is the ring length, the other queues are as before |
| Queues.Channel.InsertBackEx | apps/cf/fsw/src/cf_utils.h:155-159 | the node is at the back of one queue, counters and other queues as they should be |
| Queues.Channel.InsertAfterEx | apps/cf/fsw/src/cf_utils.h:148-153 | the same behind a given node |
| Queues.Channel.MoveTransaction | apps/cf/fsw/src/cf_utils.h:130-139 | the node goes from its queue to the back of another or the same one, counters included |
| Queues.MoveConserves | apps/cf/fsw/src/cf_utils.h:130-139 | a move keeps the total, leaves other queues alone and ends at the back |
| Queues.MovesConserve | apps/cf/fsw/src/cf_utils.h:130-139 | over any sequence of moves each node is in exactly one queue, the same nodes are queued, the total is constant |
| CodecSpec.IntegerRoundTrip | apps/cf/fsw/src/cf_codec.c:345-362 | an integer that fits its width comes back at every width up to eight bytes |
| CodecSpec.LeastWidth | apps/cf/fsw/src/cf_codec.c:326-337 | CF_CFDP_GetValueEncodedSize is the least sufficient width |
| CodecSpec.EncodeAllTlvEmits | apps/cf/fsw/src/cf_codec.c:542-550 | a TLV list is appended whole, or the encoder is in error |
| CodecSpec.AllTlvAt | apps/cf/fsw/src/cf_codec.c:1087-1114 | decoding the wire form of a TLV list returns the list |
| CodecSpec.EncodeAllSegmentsEmits | apps/cf/fsw/src/cf_codec.c:558-566 | a segment list is appended whole, or the encoder is in error |
| CodecSpec.AllSegmentsAt | apps/cf/fsw/src/cf_codec.c:1122-1149 | decoding the wire form of a segment list returns the list |
| CodecPdus.HeaderAt | apps/cf/fsw/src/cf_codec.c:767-807 | decoding the wire form of a header returns its fields, cut to their widths, and the length |
| CodecPdus.PacketRoundTrip | apps/cf/fsw/src/cf_codec.c:370-430 | a header written first and patched with the length after any body decodes to the same header and length, the cursor on the body |
| CodecPackets.WholePacketRoundTrip | apps/cf/fsw/src/cf_cfdp.c:307-374 | for every header and PDU: a packet is sent exactly when it fits, and a receiver of exactly those bytes gets the header, the length and the PDU, each field cut to its width |
| WireLayout.PacketLayout | apps/cf/fsw/src/cf_codec.c:68-117 | every packet that is sent is, bit for bit, the fields of the common header, the directive code and the fields of the PDU, in the order and width of the standard's tables, each cut to its width |
| WireLayout.HeaderLayout | apps/cf/fsw/src/cf_codec.c:370-430 | the same of the common header with the length field: version, type, direction, mode, two zero bits, length, segmentation control, id length, segment metadata, number length, source, sequence number, destination |
| WireLayout.CodedLayout | apps/cf/fsw/src/cf_cfdp_pdu.h:204-356 | the same of each PDU behind its directive code, TLVs and segment requests included |
| WireLayout.NumberBits | apps/cf/fsw/src/cf_codec.c:345-362 | an integer of n octets is its 8n low bits |
| CodecDrops.LargeFileDropped | apps/cf/fsw/src/cf_cfdp.c:691-747 | a message with the large-file bit is dropped |
| CodecDrops.WideIdsDropped | apps/cf/fsw/src/cf_codec.c:767-807 | so is one whose ids or sequence number are announced as longer than four octets |
| CodecDrops.ShortHeaderDropped | apps/cf/fsw/src/cf_codec.c:767-807 | so is one too short for the header it announces |
| CodecDrops.UnknownDirectiveDropped | apps/cf/fsw/src/cf_cfdp.c:691-747 | so is a directive with any code but 4 to 8 |
| CodecDrops.CrcIsCutOff | apps/cf/fsw/src/cf_cfdp.c:841-880 | with the CRC flag the last four octets are not taken for data |
| CodecDrops.TooManySegmentsFail | apps/cf/fsw/src/cf_codec.c:925-979 | segment metadata with more segments than the list holds is an error before any is read |
| CodecDrops.TruncatedData | apps/cf/fsw/src/cf_cfdp.c:841-880 | a file data packet that lost its last octets is received as a shorter piece, whatever its length field says |
| CodecPdus.AckRoundTrip | apps/cf/fsw/src/cf_codec.c:679-694 | encoding succeeds exactly when it fits; decoding returns the PDU, unchanged exactly when its fields are in range |
| CodecPdus.FinRoundTrip | apps/cf/fsw/src/cf_codec.c:657-671 | the same for FIN with its TLVs |
| CodecPdus.EofRoundTrip | apps/cf/fsw/src/cf_codec.c:635-649 | the same for EOF |
| CodecPdus.NakRoundTrip | apps/cf/fsw/src/cf_codec.c:702-714 | the same for NAK with its segments |
| CodecPdus.MdRoundTrip | apps/cf/fsw/src/cf_codec.c:574-590 | the same for metadata with its file names |
| CodecPdus.FileDataRoundTrip | apps/cf/fsw/src/cf_codec.c:598-627 | the same for file data, with and without segment metadata |
| CodecPdus.InitialFinCodes | apps/cf/fsw/src/cf_codec.c:657-671 | the receiver's initial FIN codes arrive as COMPLETE and DISCARDED |
| CodecPdus.DecodersOnward | apps/cf/fsw/src/cf_codec.c:1004-1079 | on any bytes the cursor only moves forward, never past the PDU, and an error stays an error: ACK, FIN, EOF, NAK |
| CodecPdus.MetadataOnward | apps/cf/fsw/src/cf_codec.c:902-917 | the same for metadata |
| CodecPdus.FileDataOnward | apps/cf/fsw/src/cf_codec.c:925-979 | the same for file data |
| CodecPdus.HeaderOnward | apps/cf/fsw/src/cf_codec.c:767-807 | the same for the common header |
| Codec.ValueEncodedSize | apps/cf/fsw/src/cf_codec.c:326-337 | the loop with its 64-bit shifts returns the specified width |
| Codec.Encoder.DoEncodeChunk | apps/cf/fsw/src/cf_codec.c:290-300 | reserves room at the cursor, or puts the encoder in error |
| Codec.Encoder.EncodeIntegerInSize | apps/cf/fsw/src/cf_codec.c:345-362 | the backward byte loop stores the big-endian value in the buffer |
| Codec.Encoder.EncodeTLV | apps/cf/fsw/src/cf_codec.c:486-516 | stores the type, length and value as specified |
| Codec.Encoder.EncodeFinPdu | apps/cf/fsw/src/cf_codec.c:657-671 | the buffer holds the specified FIN |
| Codec.Encoder.EncodeEofPdu | apps/cf/fsw/src/cf_codec.c:635-649 | the buffer holds the specified EOF |
| Codec.Encoder.EncodeNakPdu | apps/cf/fsw/src/cf_codec.c:702-714 | the buffer holds the specified NAK |
| Codec.Encoder.EncodeAckPdu | apps/cf/fsw/src/cf_codec.c:679-694 | the buffer holds the specified ACK |
| Codec.Encoder.EncodeMdPdu | apps/cf/fsw/src/cf_codec.c:574-590 | the buffer holds the specified metadata PDU |
| Codec.Encoder.EncodeFileDataPdu | apps/cf/fsw/src/cf_codec.c:598-627 | the buffer holds the specified file data PDU |
| Codec.Encoder.EncodeHeaderWithoutSize | apps/cf/fsw/src/cf_codec.c:370-400 | the header is stored and the two length bytes are left as they were |
| Codec.Encoder.EncodeHeaderFinalSize | apps/cf/fsw/src/cf_codec.c:408-430 | the length is patched in and the packet is closed |
| Codec.Decoder.DoDecodeChunk | apps/cf/fsw/src/cf_codec.c:308-318 | hands out the next bytes, or puts the decoder in error |
| Codec.Decoder.DecodeIntegerInSize | apps/cf/fsw/src/cf_codec.c:739-759 | the forward loop with its 64-bit accumulator returns the specified value |
| Codec.Decoder.DecodeSegmentList | apps/cf/fsw/src/cf_codec.c:1122-1149 | the loop over the segments returns the specified list |
| TblCrc.StepIsMirrored | tools/tblCRCTool/cfe_ts_crc.c:70-92 | the reflected step is the step of division by 0x8005 seen in a mirror |
| TblCrc.TableDivides | tools/tblCRCTool/cfe_ts_crc.c:70-92 | every one of the 256 table entries is eight steps of the bitwise division |
| TblCrc.TableStepDivides | tools/tblCRCTool/cfe_ts_crc.c:93-102 | one turn of the signed loop, sign extension and all, is eight steps of the division |
| TblCrc.CrcIsDivision | tools/tblCRCTool/cfe_ts_crc.c:63-103 | for every buffer and input the function returns the bit-by-bit remainder, sign-extended to 32 bits |
| TblCrc.Chaining | tools/tblCRCTool/cfe_ts_crc.c:149-164 | feeding each result into the next call equals one call on the concatenation |
| TblCrc.InputInjective | tools/tblCRCTool/cfe_ts_crc.c:93-102 | for the same data, inputs that differ in their low 16 bits give different results |
| TblCrc.BurstDetected | tools/tblCRCTool/cfe_ts_crc.c:93-102 | two bit strings that differ only inside 16 consecutive bits leave different remainders, for every register |
| TblCrc.BurstChangesCrc | tools/tblCRCTool/cfe_ts_crc.c:63-103 | two buffers that differ only inside 16 consecutive bits have results that differ in their low 16 bits |
| TblCrc.AdjacentBytes | tools/tblCRCTool/cfe_ts_crc.c:63-103 | in particular when at most two adjacent bytes differ, for every prefix, suffix and input |
| TblCrc.CalculateCRC | tools/tblCRCTool/cfe_ts_crc.c:63-103 | the loop over the buffer computes the specified function |
| TblCrc.ChecksumFile | tools/tblCRCTool/cfe_ts_crc.c:132-164 | whatever pieces the reads come in, size and CRC are those of the bytes after the 116-byte header; only a failed read stops it |
| ElfBytes.ReversedDecodes | tools/elf2cfetbl/elf2cfetbl.c:2221-2264 | reversed bytes read in the other order give the same number |
| ElfBytes.SwapAllField | tools/elf2cfetbl/elf2cfetbl.c:2125-2215 | swapping fields that do not overlap reverses each of them once |
| ElfBytes.HostIndependentField | tools/elf2cfetbl/elf2cfetbl.c:1579-1621 | on every host a field loaded after the conditional swap has the value it has in the file's declared order |
| ElfBytes.SwapUInt16 | tools/elf2cfetbl/elf2cfetbl.c:2221-2227 | reverses two bytes in place and nothing else |
| ElfBytes.SwapUInt32 | tools/elf2cfetbl/elf2cfetbl.c:2233-2242 | reverses four bytes in place and nothing else |
| ElfBytes.SwapUInt64 | tools/elf2cfetbl/elf2cfetbl.c:2244-2264 | reverses eight bytes in place and nothing else |
| ElfHost.HeaderHostIndependent | tools/elf2cfetbl/elf2cfetbl.c:2125-2159 | both ELF header layouts: every host gets the same header, and accepts the same ones |
| ElfHost.SectionHostIndependent | tools/elf2cfetbl/elf2cfetbl.c:2165-2193 | both section header layouts: every host gets the same fields |
| ElfHost.SymbolHostIndependent | tools/elf2cfetbl/elf2cfetbl.c:2199-2215 | both symbol layouts: every host gets the same fields |
| ElfHost.DefHostIndependent | tools/elf2cfetbl/elf2cfetbl.c:2299-2337 | the table definition: ObjectSize is host-independent, the texts are untouched |
| ElfHost.StoredHostIndependent | tools/elf2cfetbl/elf2cfetbl.c:2600-2656 | a header field stored, swapped on little-endian hosts and written is big-endian on every host |
| Elf2CfeTbl.Tool.GetElfHeader | tools/elf2cfetbl/elf2cfetbl.c:1505-1713 | accepts exactly the headers the specification accepts and keeps the same fields |
| Elf2CfeTbl.Tool.GetSectionHeader | tools/elf2cfetbl/elf2cfetbl.c:1719-1912 | the header, its name and what it says of the string and symbol tables are the specified ones, failures included |
| Elf2CfeTbl.Tool.GetSections | tools/elf2cfetbl/elf2cfetbl.c:650-679 | the names' section first, then all sections in order: the specified scan |
| Elf2CfeTbl.Tool.GetSymbol | tools/elf2cfetbl/elf2cfetbl.c:1918-2003 | the symbol, its name and the table definition's index are the specified ones |
| Elf2CfeTbl.Tool.GetSymbols | tools/elf2cfetbl/elf2cfetbl.c:681-698 | the loop over the symbols gives the specified table |
| Elf2CfeTbl.Tool.GetTblDefInfo | tools/elf2cfetbl/elf2cfetbl.c:2299-2367 | the table definition is the specified one |
| Elf2CfeTbl.Tool.LocateAndReadUserObject | tools/elf2cfetbl/elf2cfetbl.c:2373-2534 | the object, its size and the file position are the specified ones, Verbose or not |
| Elf2CfeTbl.Tool.OutputDataToTargetFile | tools/elf2cfetbl/elf2cfetbl.c:2540-2677 | the file written is the specified one on every host |
| Elf2CfeTbl.Tool.Convert | tools/elf2cfetbl/elf2cfetbl.c:628-717 | the whole tool: its outcome and the bytes it writes are a function of the source file and the options alone |
| ElfTables.ScanIsFold | tools/elf2cfetbl/elf2cfetbl.c:668-673 | the scan is a fold over the headers it reads |
| ElfTables.StringsChosen | tools/elf2cfetbl/elf2cfetbl.c:1822-1836 | symbol names come from the last .strtab, without one from the first string table that is not the section names', else none is found |
| ElfTables.SymbolsChosen | tools/elf2cfetbl/elf2cfetbl.c:1801-1820 | the symbol table used is the last SHT_SYMTAB |
| ElfTables.SymbolsAreRead | tools/elf2cfetbl/elf2cfetbl.c:1918-1952 | with entries of the structure's size, the tool reads ELF symbols 1 to n once each and in order, skipping only the null symbol |
| ElfTables.ObjectFoundIff | tools/elf2cfetbl/elf2cfetbl.c:2389-2421 | the object is found under its own name exactly when no earlier symbol is that name and one character more |
| ElfTables.WrongObjectFound | tools/elf2cfetbl/elf2cfetbl.c:2396-2404 | a concrete symbol table for which another symbol is taken |
| ElfTables.FileHeaderWords | tools/elf2cfetbl/elf2cfetbl.c:2546-2612 | a reader of big-endian words finds each field of the file header in its place |
| ElfTables.OutputShape | tools/elf2cfetbl/elf2cfetbl.c:2614-2674 | 116 bytes of headers, NumBytes equal to what follows, the table name in its field, the payload last |
| ElfTables.TableHoldsObject | tools/elf2cfetbl/elf2cfetbl.c:2373-2534 | every table file holds the chosen object: zeros for .bss, else the bytes at sh_offset + st_value, as many as ObjectSize when st_size is 0 and else the smaller of the two, 0xFF for those beyond the end of the file |
| ElfTables.CrcToolSeesPayload | tools/tblCRCTool/cfe_ts_crc.c:132-164 | of every table file made from an ELF file the CRC tool checksums exactly the object: its result is the object's CRC |
| ElfTables.NoSymbols | tools/elf2cfetbl/elf2cfetbl.c:1801-1820 | a symbol table without symbols, or whose entries have no size, makes the tool fail |
| ElfLayout.HeaderIsRead | tools/elf2cfetbl/ELF_Structures.h:43-80 | for all member values in range, both word sizes and both byte orders: of a file that begins with e_ident and the members of the C declaration in their order and width, the tool reads shoff, shentsize, shnum and shstrndx, or rejects it for its type, machine or version |
| ElfLayout.OtherIdentsFail | tools/elf2cfetbl/elf2cfetbl.c:1505-1713 | a file that begins with anything but such an identification is rejected |
| ElfLayout.MachinesKnown | tools/elf2cfetbl/elf2cfetbl.c:175-358 | the machines and types that are accepted, by the numbers the tables leave out |
| ElfLayout.SectionIsRead | tools/elf2cfetbl/ELF_Structures.h:340-369 | section header i, laid out as declared at its place in the table, is read with its type, offset, size and entry size, and its name once the names are known |
| ElfLayout.SectionMisnamed | tools/elf2cfetbl/elf2cfetbl.c:1719-1912 | with a name position that is negative after conversion, the name is the string behind the header itself |
| ElfLayout.SymbolIsRead | tools/elf2cfetbl/ELF_Structures.h:421-442 | symbol i, laid out as declared where the tool looks for it, is read with its value, size and section, and its name among the strings |
| ElfLayout.SymbolMisnamed | tools/elf2cfetbl/elf2cfetbl.c:1918-2003 | with a name position that is negative after conversion, the name is the string behind the symbol itself |
| ElfLayout.DefIsRead | cfe/modules/core_api/fsw/inc/cfe_tbl_filedef.h:58-113 | a CFE_TBL_FileDef_t laid out as declared where its symbol points is read with its three texts and the object's size |
| ElfConvert.ObjectIsConverted | tools/elf2cfetbl/elf2cfetbl.c:628-717 | every ELF object in a file, of either word size and byte order, whose table definition and object stand where their symbols say, becomes a table file with exactly that object as its contents and, unless the command line gives others, the names of the definition |
| ElfConvert.NoStringsFails | tools/elf2cfetbl/elf2cfetbl.c:675-679 | without a string table besides that of the section names the tool fails |
| ElfConvert.NoDefinitionFails | tools/elf2cfetbl/elf2cfetbl.c:692-698 | without a symbol that names a table definition it fails |
| ElfConvert.WrongDefinitionFails | tools/elf2cfetbl/elf2cfetbl.c:2299-2337 | with a definition whose symbol has another size than the structure it fails |
| ElfConvert.NoObjectFails | tools/elf2cfetbl/elf2cfetbl.c:2389-2421 | without a symbol that has the object's name, or that name and one character more, it fails |
| DsLog.IterPackets | tools/DS_app_logs/view_ds_log.py:63-77 | the loop yields the specified packets in order |
| DsLog.PacketsOfJoin | tools/DS_app_logs/view_ds_log.py:63-77 | any 140 bytes of header followed by any packets yield exactly those packets |
| DsLog.PacketsCover | tools/DS_app_logs/view_ds_log.py:63-77 | on any bytes the yields are packets, a prefix of the body, and no complete packet is left over |
| DsLog.PacketsExtend | tools/DS_app_logs/view_ds_log.py:63-77 | appending bytes only extends the list |
| DsLog.PacketIffSpacePacket | tools/DS_app_logs/view_ds_log.py:63-77 | the packets of the walk are exactly the packets of the standard: identification, sequence control, the octets of the data field less one, the data field |
| DsLog.ComputeChecksum | tools/DS_app_logs/view_ds_log.py:131-137 | the loop computes the exclusive or of 0xFF and all bytes |
| DsLog.BuildCommand | tools/DS_app_logs/view_ds_log.py:140-147 | the command carries the checksum of itself with the checksum byte zero |
| DsLog.CommandCloses | tools/DS_app_logs/view_ds_log.py:131-147 | every command whose payload fits the length field parses as one packet whose checksum recomputes to zero |
| DsLog.CommandIsSpacePacket | tools/DS_app_logs/view_ds_log.py:140-147 | a command is the packet of the standard with that message id, unsegmented with count 0, and the function code, the checksum and the payload as its data |
| Frames.WrapKeepsSequence | ESP32_Bridge/ESP32 CCSDS Temp Humid Collector/src/main.cpp:130-131 | the firmware's 16-bit counter and an unbounded one give the same 14 bits for ever |
| Frames.SameFrame | tools/ESP32_tools/esp32_sim.py:36-46 | for equal raw readings the n-th frames of firmware and simulator are the same 18 bytes, for every n: the sync bytes, the length 14 low byte first, and the packet |
| Frames.RunFirmware | tools/ESP32_tools/esp32_sim.py:67-75 | a firmware fresh from reset sends the simulator's frames, however long both run |
| Frames.Unpacks | tools/ESP32_tools/esp32_sim.py:36-42 | unpacking a packet recovers identifier, count, length, an empty time and both readings |
| Frames.SwapThenStore | ESP32_Bridge/ESP32 CCSDS Temp Humid Collector/src/main.cpp:119-121 | swapping and storing little-endian is packing big-endian |
| Frames.Firmware.CreatePacketAndSend | ESP32_Bridge/ESP32 CCSDS Temp Humid Collector/src/main.cpp:123-149 | one turn of the task emits the specified frame and advances the wrapping counter |

## Left out

- Protocol.NoDataLoss: covers class 2; in class 1 the sender removes its file without hearing from the receiver, so no such statement holds. Its condition on retransmissions is only needed for the copy in place to equal the source (GivenUp.GivenUpOnReport has the rest); whether a run that breaks it loses the file depends on whether the checksum notices the wrong bytes (LostSource.SourceIsLost is one in which it does not).
- Protocol.StepKeeps: one transaction; the pairing of PDUs with transactions by entity and sequence number is taken as given.
- EndToEnd.LossFree: one loss-free schedule, in which each PDU is delivered as soon as it is sent and the receiver ticks after the EOF; LossyTransfer.LossyTransfer has others, and the safety results have all of them.
- EndToEnd.OneRoundDelivers: one round, with gaps that fit into one NAK; Rounds.RoundsDeliver composes any number of rounds, with any number of gaps.
- ClassOne.LossFreeClassOne: one schedule, as in EndToEnd.LossFree; class 1 has no recovery, so losses are left to the theorems about single parties (RxProgress.Terminates, RxFaults.FirstFaultIsStatus).
- LossyTransfer.LossyTransfer: one phase after the other: the first pass, the EOF until it is acknowledged, the metadata until it is there, the NAK rounds, the check and the FIN until it is acknowledged. Both parties have the same configuration, the sender ticks while it waits for an acknowledgement and the receiver while it waits for an answer, and the receiver's list has room for more than one chunk. The first acknowledgement of the FIN arrives: those that a held sender sends after it do not count (FinRepeat.HeldAckIsIgnored), and FinRepeat.EndsWithoutAnswer says what follows if it is lost.
- Throttles.WakeupReaches: the file can be read to its announced end; RxFaults.FirstFaultIsStatus has the other case.
- Rounds.RoundsDeliver: the sender answers each NAK before the next one is due, and what arrives of its pieces arrives between two NAKs; a list with room for one chunk is excluded, because such a receiver may send no NAK (Repair.NakSentIff). That every round brings something useful is a hypothesis: NakRound.AnswerHelps says which pieces are.
- ChunkLists.ChunkList.ListAdd: offset plus size must stay below 2^32, which the source asserts.
- RxValidate.RetainedIffChecksum: runs with file data written during the check are excluded here; RxValidate.RetainedIffSum has them all, and the lemmas of RxLateData spell out the ones with a single such write.
- RxSpec, TxSpec: PDUs arrive decoded; one that is too short, or has segment metadata, which CF does not support, changes nothing but the timers, as a PDU of an ignored kind does. Metadata whose file names are rejected does reach the receiver and is modelled (Misnamed). Counters of the housekeeping packet, events, end-of-transaction packets and the EOF condition code's fault location are not kept.
- TxTransactions.TxTransaction.constructor: the failure paths of CF_CFDP_S_Init (a source that cannot be opened, sized or rewound) end the transaction at once and are not modelled.
- TxTransactions.TxTransaction.TickNakRequests: one call; the throttling loops of CF_CFDP_TickTransactions that call it are represented by arbitrary sequences of calls.
- CLists.CList.Traverse: traversals start at the head of the list, as all callers do; the callback may remove the node it is given, not others.
- Queues.Channel.MoveTransaction: CF_FindUnusedTransaction and the history queue are not modelled, nor CF_InsertSortPrio, which puts a transaction at the back when it finds no entry to insert it after, so that sortedness is no invariant.
- Codec.Decoder: the decoders of whole PDUs are modelled on values in CodecPdus; only the chunk, integer and list decoders are objects.
- CodecPdus.FileDataRoundTrip: the optional CRC trailer of a PDU, which CF never sends, is not modelled in the encoders; CodecPackets.Receive cuts it off as CF_CFDP_RecvFd does.
- CodecPackets.WholePacketRoundTrip: a file data packet without segment metadata, which is all CF ever sends; a received one with it is dropped. Bit fields are arithmetic on the byte, where the source masks and shifts.
- Elf2CfeTbl.Tool.Convert: command line and epoch parsing, the name of the target file, file permissions, printing and malloc failures are left out; the options and the time arrive as values. Where the C code would run past a buffer, read a section name that was never stored, or overflow an int, the outcome is Undefined. The sizes of the cFE structures are those of the default mission configuration.
- Elf2CfeTbl.Tool.OutputDataToTargetFile: each header field is set, swapped and written in turn; the source sets all, swaps all and then writes all.
- TblCrc.ChecksumFile: opening and seeking are assumed to work; the printed report is left out.
- ElfConvert.ObjectIsConverted: asks for a file of less than 2^31 bytes, contents inside the file (ElfTables.TableHoldsObject has those beyond its end) and names of less than 60 characters, the size of the tool's buffer; a longer one overruns it, and the outcome is Undefined.
- ElfTables.SymbolsAreRead: asks for a symbol table inside a file of less than 2^31 bytes; beyond that the tool's 32-bit offsets are modelled but nothing is promised.
- Frames.SameFrame: the raw readings are the inputs; scaling from floating point (the firmware truncates, the simulator rounds), the sensor, the display and the tasks are left out.
- DsLog.IterPackets: decoding of packet contents, sockets and the graphical tools are left out.
- The other applications, cFE and OSAL services, configuration headers and static tables are not modelled: no property of comparable depth lives there.
