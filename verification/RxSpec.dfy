/** A receive transaction (cf_cfdp_r.c) as a value and what each of its entry points makes of it. */
module RxSpec {
  import opened Bytes
  import opened Cfdp
  import opened ChunkSpec
  import opened GapSpec
  import opened Wrappers
  import CfCrc

  datatype SubState = DataNormal | DataEof | Validate | Filestore | FinAck | Complete

  const CRC_CHUNK: nat := 1024

  /** The file side of a transaction: whether the temporary file is open, where the code believes
      the position is, the size the metadata announced, the checksum and the chunk list. */
  datatype RxFile = RxFile(open: bool, cachedPos: nat, size: nat, crc: CfCrc.CrcState, chunks: seq<Chunk>, store: Store)

  /** CF_Flags_Rx_t. */
  datatype RxFlags = RxFlags(
    tempCreated: bool, mdRecv: bool, eofCount: nat, eofAckCount: nat, finackRecv: bool, sendNak: bool, sendFin: bool)

  /** CF_Flags_Common_t. */
  datatype Common = Common(closeReq: bool, ackArmed: bool, isComplete: bool, crcComplete: bool, inactFired: bool)

  /** What the first EOF said, and what the FIN will say. */
  datatype Reports = Reports(eofCc: nat, eofCrc: nat, eofSize: nat, finDc: nat, finFs: nat)

  /** CF_Transaction_t with its history entry, as far as a receiver uses them.  hold says that the
      transaction is in the HOLD state rather than R1 or R2. */
  datatype Rx = Rx(
    hold: bool, reliable: bool, sub: SubState, stat: int, flags: RxFlags, com: Common, acknak: nat,
    reports: Reports, ackTimer: nat, inactTimer: nat, file: RxFile)
  {
    predicate Ok() { !IsError(stat) }

    function SetStat(update: int): Rx { this.(stat := SetStatus(stat, update)) }
  }

  /** The file side after an operation that may fail. */
  datatype Outcome = Outcome(file: RxFile, ok: bool)

  /** A transaction after the checks of its sub-state, and the sub-state they choose. */
  datatype Choice = Choice(r: Rx, next: SubState)

  /** A transaction after a call that may send PDUs. */
  datatype Sending = Sending(r: Rx, sent: seq<Pdu>)

  /** What the operating system and the output channel answer during one call. */
  datatype RxIo = RxIo(canSend: bool, seekOk: bool, goodReads: nat, writable: nat, mvOk: bool)

  function ArmAck(cfg: Config, r: Rx): Rx {
    r.(ackTimer := cfg.ackTicks, com := r.com.(ackArmed := true))
  }

  function ArmInact(cfg: Config, r: Rx): Rx {
    r.(inactTimer := if r.hold then cfg.ackTicks * 2 else cfg.inactTicks)
  }

  /** CF_CFDP_SetupRxTransaction with CF_CFDP_R_Init: a new transaction whose history entry still
      holds the status stat, and which may fail to create its temporary file. */
  function Setup(cfg: Config, reliable: bool, stat: int, openOk: bool, dst: Option<Bytes>): Rx {
    var usable := !IsError(stat);
    ArmInact(cfg, Rx(
      !usable, usable && reliable, DataNormal, if openOk then stat else SetStatus(stat, FILESTORE_REJECTION),
      RxFlags(usable && openOk, false, 0, 0, false, false, false), Common(false, false, false, false, false), 0,
      Reports(0, 0, 0, if usable then DC_INVALID else 0, if usable then FS_INVALID else 0), 0, 0,
      RxFile(usable && openOk, 0, 0, CfCrc.START, [], Store([], 0, dst))))
  }

  // ------------------------------------------------------------------ receiving PDUs

  /** The first half of CF_CFDP_R_ProcessFd: seek if the position differs. */
  function SeekTo(f: RxFile, offset: nat, seekOk: bool): Outcome {
    if f.cachedPos == offset then Outcome(f, true)
    else if f.open && seekOk then Outcome(f.(cachedPos := offset, store := f.store.(pos := offset)), true)
    else Outcome(f, false)
  }

  /** The second half: write, and note the chunk. */
  function WriteFd(max: nat, f: RxFile, offset: nat, data: Bytes, writable: nat): Outcome {
    var wrote := if f.open then Min(writable, |data|) else 0;
    var store := f.store.(temp := WriteAt(f.store.temp, f.store.pos, data[..wrote]), pos := f.store.pos + wrote);
    if f.open && wrote == |data|
    then Outcome(f.(store := store, cachedPos := |data| + offset,
                    chunks := Add(f.chunks, max, Chunk(offset, |data|))), true)
    else Outcome(f.(store := store), false)
  }

  /** CF_CFDP_R_SubstateRecvFileData. */
  function RecvFd(cfg: Config, r: Rx, offset: nat, data: Bytes, io: RxIo): Rx {
    var s := SeekTo(r.file, offset, io.seekOk);
    if !s.ok then r.SetStat(FILE_SIZE_ERROR)
    else
      var w := WriteFd(cfg.maxChunks, s.file, offset, data, io.writable);
      if w.ok then r.(file := w.file, acknak := 0)
      else r.(file := w.file).SetStat(FILESTORE_REJECTION)
  }

  /** CF_CFDP_R_SubstateRecvEof: only the first EOF counts, every one is acknowledged. */
  function RecvEof(cfg: Config, r: Rx, cc: nat, crc: nat, size: nat): Rx {
    var s := if r.flags.eofCount == 0
             then r.(reports := r.reports.(eofCc := cc, eofCrc := crc, eofSize := size)).SetStat(cc) else r;
    if UnderLimit(cfg, s.flags.eofCount) then s.(flags := s.flags.(eofCount := s.flags.eofCount + 1))
    else s.SetStat(POS_ACK_LIMIT_REACHED)
  }

  /** CF_CFDP_R_SubstateRecvMd: size and closure request are taken over even if the names are not. */
  function RecvMd(r: Rx, size: nat, closeReq: bool, named: bool): Rx {
    if r.flags.mdRecv then r
    else r.(com := r.com.(closeReq := closeReq), file := r.file.(size := size), flags := r.flags.(mdRecv := named))
  }

  /** CF_CFDP_R2_SubstateRecvFinAck. */
  function RecvFinAck(r: Rx, directive: nat): Rx {
    if directive == DIR_FIN then r.(flags := r.flags.(finackRecv := true)) else r
  }

  predicate Receiving(sub: SubState) { sub.DataNormal? || sub.DataEof? }

  /** CF_CFDP_R_DispatchRecv with the table of CF_CFDP_R1_Recv. */
  function R1Recv(cfg: Config, r: Rx, p: Pdu, io: RxIo): Rx {
    match p
    case Fd(offset, data) => if r.Ok() then RecvFd(cfg, r, offset, data, io) else r
    case Eof(cc, crc, size) => if Receiving(r.sub) then RecvEof(cfg, r, cc, crc, size) else r
    case Md(size, closeReq) => if Receiving(r.sub) then RecvMd(r, size, closeReq, true) else r
    case Misnamed(size, closeReq) => if Receiving(r.sub) then RecvMd(r, size, closeReq, false) else r
    case _ => r
  }

  /** CF_CFDP_R_DispatchRecv with the tables of CF_CFDP_R2_Recv. */
  function R2Dispatch(cfg: Config, r: Rx, p: Pdu, io: RxIo): Rx {
    match p
    case Fd(offset, data) => if r.Ok() then RecvFd(cfg, r, offset, data, io) else r
    case Eof(cc, crc, size) => RecvEof(cfg, r, cc, crc, size)
    case Md(size, closeReq) => if Receiving(r.sub) then RecvMd(r, size, closeReq, true) else r
    case Misnamed(size, closeReq) => if Receiving(r.sub) then RecvMd(r, size, closeReq, false) else r
    case Ack(directive) => if r.sub.FinAck? || r.sub.Complete? then RecvFinAck(r, directive) else r
    case _ => r
  }

  /** CF_CFDP_R2_Recv: any activity defers the timer of a pending NAK or FIN. */
  function R2Recv(cfg: Config, r: Rx, p: Pdu, io: RxIo): Rx {
    var s := R2Dispatch(cfg, r, p, io);
    if s.com.ackArmed then ArmAck(cfg, s) else s
  }

  /** CF_CFDP_DispatchRecv on a receive transaction, HOLD included; a PDU of the other class
      only restarts the inactivity timer. */
  function Recv(cfg: Config, r: Rx, class2: bool, p: Pdu, io: RxIo): Rx {
    ArmInact(cfg,
      if class2 != r.reliable then r
      else if r.hold then (if p.Eof? then RecvEof(cfg, r, p.cc, p.crc, p.size) else r)
      else if r.reliable then R2Recv(cfg, r, p, io)
      else R1Recv(cfg, r, p, io))
  }

  // ------------------------------------------------------------------ the state machine

  /** CF_CFDP_R_CheckComplete. */
  predicate CheckComplete(r: Rx) {
    && !r.flags.sendNak && r.flags.eofCount != 0 && r.flags.mdRecv
    && ComputeGaps(r.file.chunks, 1, r.file.size, 0) == []
  }

  /** CF_CFDP_R_CalcCrcStart. */
  function CalcCrcStart(r: Rx, io: RxIo): Rx {
    if r.file.size != r.reports.eofSize || !(r.file.open && io.seekOk)
    then r.SetStat(FILE_SIZE_ERROR).(com := r.com.(crcComplete := true))
    else r.(file := r.file.(crc := CfCrc.START, cachedPos := 0, store := r.file.store.(pos := 0)))
  }

  /** One read and digest of CF_CFDP_R_CalcCrcChunk. */
  function CrcRead(f: RxFile, n: nat): RxFile
    requires f.store.pos + n <= |f.store.temp|
  {
    f.(crc := CfCrc.Digest(f.crc, f.store.temp[f.store.pos..f.store.pos + n]),
       cachedPos := f.cachedPos + n, store := f.store.(pos := f.store.pos + n))
  }

  /** The loop of CF_CFDP_R_CalcCrcChunk after count bytes of this wakeup. */
  function CrcLoop(cfg: Config, f: RxFile, count: nat, goodReads: nat): Outcome
    decreases f.size - f.cachedPos
  {
    if count < cfg.crcBytesPerWakeup && f.cachedPos < f.size then
      var n := Min(CRC_CHUNK, f.size - f.cachedPos);
      if f.open && goodReads > 0 && f.store.pos + n <= |f.store.temp|
      then CrcLoop(cfg, CrcRead(f, n), count + n, goodReads - 1)
      else Outcome(f, false)
    else Outcome(f, true)
  }

  /** CF_CFDP_R_CalcCrcChunk. */
  function CalcCrcChunk(cfg: Config, r: Rx, io: RxIo): Rx {
    var s := CrcLoop(cfg, r.file, 0, io.goodReads);
    if !s.ok then r.(file := s.file, com := r.com.(crcComplete := true)).SetStat(FILE_SIZE_ERROR)
    else if s.file.cachedPos == s.file.size
    then r.(file := s.file.(crc := CfCrc.Finalize(s.file.crc)), com := r.com.(crcComplete := true))
    else r.(file := s.file)
  }

  /** The temporary file is removed and its fate recorded. */
  function Discard(r: Rx, dc: nat): Rx {
    r.(reports := r.reports.(finDc := dc,
         finFs := if r.stat == FILESTORE_REJECTION then DISCARDED_FILESTORE else DISCARDED),
       file := r.file.(open := false, store := r.file.store.(temp := [])))
  }

  /** The good file is moved to its destination. */
  function Retain(r: Rx): Rx {
    r.(reports := r.reports.(finDc := COMPLETE, finFs := RETAINED),
       file := r.file.(open := false, store := r.file.store.(temp := [], dst := Some(r.file.store.temp))))
  }

  /** CF_CFDP_R_HandleFileRetention. */
  function HandleFileRetention(r: Rx, io: RxIo): Rx {
    if !r.flags.tempCreated then
      r.SetStat(FILESTORE_REJECTION).(reports := r.reports.(finDc := DC_INVALID, finFs := FS_INVALID),
                                      file := r.file.(open := false))
    else if !r.com.isComplete then Discard(r.SetStat(INVALID_FILE_STRUCTURE), INCOMPLETE)
    else if !r.Ok() || r.file.crc.result != r.reports.eofCrc then Discard(r.SetStat(FILE_CHECKSUM_FAILURE), COMPLETE)
    else if io.mvOk then Retain(r.SetStat(NO_ERROR))
    else Discard(r.SetStat(FILESTORE_REJECTION), COMPLETE)
  }

  function CheckDataNormal(r: Rx): Choice {
    Choice(r, if r.flags.eofCount != 0 then DataEof else if !r.Ok() then Filestore else DataNormal)
  }

  function CheckDataEof(cfg: Config, r: Rx): Choice {
    if !r.Ok() then Choice(r, Filestore)
    else if CheckComplete(r) then Choice(r.(com := r.com.(isComplete := true)), Validate)
    else if r.reliable && !r.flags.sendNak && !r.com.ackArmed then
      if UnderLimit(cfg, r.acknak)
      then Choice(r.(acknak := r.acknak + 1, flags := r.flags.(sendNak := true)), DataEof)
      else Choice(r.SetStat(NAK_LIMIT_REACHED), Filestore)
    else Choice(r, DataEof)
  }

  function CheckValidate(cfg: Config, r: Rx, io: RxIo): Choice {
    if !r.Ok() || r.file.cachedPos == r.file.size then Choice(r, Filestore)
    else Choice(CalcCrcChunk(cfg, r, io), Validate)
  }

  function CheckFilestore(r: Rx, io: RxIo): Choice {
    Choice(HandleFileRetention(r, io), if r.reliable || r.com.closeReq then FinAck else Complete)
  }

  function CheckFinAck(cfg: Config, r: Rx): Choice {
    if r.flags.sendFin then Choice(r, FinAck)
    else if !r.reliable || r.flags.finackRecv || r.com.inactFired then Choice(r, Complete)
    else if !r.com.ackArmed then
      if UnderLimit(cfg, r.acknak)
      then Choice(r.(acknak := r.acknak + 1, flags := r.flags.(sendFin := true)), FinAck)
      else Choice(r, Complete)
    else Choice(r, FinAck)
  }

  function NextState(cfg: Config, r: Rx, io: RxIo): Choice {
    match r.sub
    case DataNormal => CheckDataNormal(r)
    case DataEof => CheckDataEof(cfg, r)
    case Validate => CheckValidate(cfg, r, io)
    case Filestore => CheckFilestore(r, io)
    case FinAck => CheckFinAck(cfg, r)
    case Complete => Choice(r, Complete)
  }

  /** CF_CFDP_FinishTransaction. */
  function Finish(cfg: Config, r: Rx): Rx {
    ArmInact(cfg, r.(hold := true, file := r.file.(open := false)))
  }

  /** The entry actions of CF_CFDP_R_CheckState. */
  function Enter(cfg: Config, r: Rx, next: SubState, io: RxIo): Rx {
    var s := r.(sub := next, com := r.com.(ackArmed := false));
    match next
    case DataEof => s.(acknak := 0, flags := s.flags.(sendNak := s.reliable || s.flags.sendNak))
    case Validate => CalcCrcStart(s, io)
    case FinAck => s.(acknak := 0, flags := s.flags.(sendFin := true))
    case Complete => Finish(cfg, s)
    case _ => s
  }

  /** CF_CFDP_R_CheckState. */
  function CheckState(cfg: Config, r: Rx, io: RxIo): Rx {
    var c := NextState(cfg, r, io);
    if c.next != r.sub then Enter(cfg, c.r, c.next, io) else c.r
  }

  /** CF_CFDP_R_AckTimerTick. */
  function AckTimerTick(r: Rx): Rx {
    if !r.reliable || !r.com.ackArmed then r
    else if r.ackTimer > 0 then r.(ackTimer := r.ackTimer - 1)
    else r.(com := r.com.(ackArmed := false))
  }

  /** The inactivity part of CF_CFDP_R_Tick. */
  function InactTimerTick(r: Rx): Rx {
    if r.com.inactFired then r
    else if r.inactTimer > 0 then r.(inactTimer := r.inactTimer - 1)
    else
      var s := r.(com := r.com.(inactFired := true));
      if r.hold then s else s.SetStat(INACTIVITY_DETECTED)
  }

  /** The limit CF_CFDP_R_SendNak puts on the number of gaps. */
  function NakLimit(max: nat, chunks: seq<Chunk>): nat
    requires max > 0
  {
    if |chunks| < max then max else max - 1
  }

  function Segments(gaps: seq<Chunk>): (segs: seq<Segment>)
    ensures |segs| == |gaps|
    ensures forall i :: 0 <= i < |gaps| ==> segs[i] == Segment(gaps[i].offset, gaps[i].End())
  {
    seq(|gaps|, i requires 0 <= i < |gaps| => Segment(gaps[i].offset, gaps[i].End()))
  }

  /** CF_CFDP_R_SendNak once a buffer is at hand: the gaps, at most CF_NAK_MAX_SEGMENTS of them,
      or the request for metadata; nothing when no gap is found. */
  function NakPdus(cfg: Config, r: Rx): seq<Pdu>
    requires cfg.Valid()
  {
    if !r.flags.mdRecv then [Nak([Segment(0, 0)])]
    else
      var gaps := ComputeGaps(r.file.chunks, NakLimit(cfg.maxChunks, r.file.chunks), r.file.size, 0);
      if gaps == [] then [] else [Nak(Segments(gaps[..Min(|gaps|, NAK_MAX_SEGMENTS)]))]
  }

  function FinPdu(r: Rx): Pdu {
    Fin(ConditionCode(r.stat), r.reports.finDc % 2, r.reports.finFs % 4)
  }

  /** CF_CFDP_R_Tick_Maintenance. */
  function Maintenance(cfg: Config, r: Rx, io: RxIo): Sending
    requires cfg.Valid()
  {
    if !io.canSend then Sending(r, [])
    else if r.reliable && r.flags.eofAckCount != r.flags.eofCount then
      Sending(r.(flags := r.flags.(eofAckCount := r.flags.eofCount)), [Ack(DIR_EOF)])
    else if r.flags.sendNak then
      var pdus := NakPdus(cfg, r);
      Sending((if pdus != [] then ArmAck(cfg, r) else r).(flags := r.flags.(sendNak := false)), pdus)
    else if r.flags.sendFin then
      Sending((if r.reliable then ArmAck(cfg, r) else r).(flags := r.flags.(sendFin := false)), [FinPdu(r)])
    else Sending(r, [])
  }

  /** The part of CF_CFDP_R_Tick before maintenance. */
  function Advance(cfg: Config, r: Rx, io: RxIo): Rx {
    var s := InactTimerTick(r);
    if r.hold then s else CheckState(cfg, AckTimerTick(s), io)
  }

  /** CF_CFDP_R_Tick: the new state and what was sent. */
  function Tick(cfg: Config, r: Rx, io: RxIo): Sending
    requires cfg.Valid()
  {
    Maintenance(cfg, Advance(cfg, r, io), io)
  }

  /** CF_CFDP_R_Tick ends by recycling a transaction that is held and has been quiet long enough. */
  predicate Recycles(r: Rx) { r.com.inactFired && r.hold }

  /** CF_CFDP_CancelTransaction; the canceled flag only guards a second SetTxnStatus, which would
      change nothing. */
  function Cancel(r: Rx): Rx { r.SetStat(CANCEL_REQUEST_RECEIVED) }
}
