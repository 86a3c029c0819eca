/** A send transaction (cf_cfdp_s.c) as a value and what each of its entry points makes of it. */
module TxSpec {
  import opened Bytes
  import opened Cfdp
  import opened ChunkSpec
  import CfCrc

  datatype SubState = DataNormal | DataEof | Filestore | Complete

  /** What became of the source file. */
  datatype Fate = InPlace | Removed | MovedAway | MovedToFailDir

  /** The file side of a transaction: the source, whether it is open, the position the operating
      system keeps, the position the code believes in, and how far the first pass has come. */
  datatype TxFile = TxFile(
    src: Bytes, open: bool, fate: Fate, pos: nat, cachedPos: nat, foffs: nat, crc: CfCrc.CrcState)

  /** CF_Flags_Tx_t. */
  datatype TxFlags = TxFlags(
    cmdTx: bool, fdNakPending: bool, eofAckRecv: bool, finCount: nat, finAckCount: nat, sendMd: bool, sendEof: bool)

  /** CF_Flags_Common_t. */
  datatype Common = Common(closeReq: bool, ackArmed: bool, isComplete: bool, crcComplete: bool, inactFired: bool)

  /** What the first FIN said. */
  datatype Report = Report(cc: nat, dc: nat, fs: nat)

  datatype Tx = Tx(
    hold: bool, reliable: bool, keep: bool, sub: SubState, stat: int, flags: TxFlags, com: Common, acknak: nat,
    fin: Report, ackTimer: nat, inactTimer: nat, fsize: nat, chunks: seq<Chunk>, file: TxFile)
  {
    predicate Ok() { !IsError(stat) }

    function SetStat(update: int): Tx { this.(stat := SetStatus(stat, update)) }
  }

  /** A transaction after the checks of its sub-state, and the sub-state they choose. */
  datatype Choice = Choice(t: Tx, next: SubState)

  /** A transaction after a call that may send PDUs. */
  datatype Sending = Sending(t: Tx, sent: seq<Pdu>)

  /** CF_CFDP_S_SendFileData: the bytes sent, or which way it failed. */
  datatype SendResult = Sent(n: nat) | NoBuffer | Failed

  datatype DataSending = DataSending(file: TxFile, result: SendResult, sent: seq<Pdu>)

  /** What the operating system and the output channel answer during one call: readable bounds
      what one read delivers, room is the space left in the PDU. */
  datatype TxIo = TxIo(canSend: bool, seekOk: bool, readable: nat, room: nat, fileOk: bool)

  function ArmAck(cfg: Config, t: Tx): Tx {
    t.(ackTimer := cfg.ackTicks, com := t.com.(ackArmed := true))
  }

  function ArmInact(cfg: Config, t: Tx): Tx {
    t.(inactTimer := if t.hold then cfg.ackTicks * 2 else cfg.inactTicks)
  }

  /** CF_CFDP_SetupTxTransaction with a successful CF_CFDP_S_Init: the source is open at its
      beginning, its size is known, and the metadata is due. */
  function Setup(cfg: Config, reliable: bool, keep: bool, cmdTx: bool, closeReq: bool, src: Bytes): Tx {
    ArmInact(cfg, Tx(
      false, reliable, keep, DataNormal, NO_ERROR,
      TxFlags(cmdTx, false, false, 0, 0, true, false), Common(closeReq, false, false, false, false), 0,
      Report(0, 0, 0), 0, 0, |src|, [], TxFile(src, true, InPlace, 0, 0, 0, CfCrc.START)))
  }

  // ------------------------------------------------------------------ file data

  /** The file side after a seek or a read that may fail. */
  datatype Seeking = Seeking(file: TxFile, ok: bool)
  datatype Reading = Reading(file: TxFile, ok: bool, data: Bytes)

  /** The seek of CF_CFDP_S_SendFileData, if the position differs. */
  function SeekFor(f: TxFile, offset: nat, seekOk: bool): Seeking {
    if f.open && f.cachedPos == offset then Seeking(f, true)
    else if f.open && seekOk then Seeking(f.(cachedPos := offset, pos := offset), true)
    else Seeking(f, false)
  }

  /** Its read.  A read that delivers too little moves the true position all the same. */
  function ReadFrom(f: TxFile, n: nat, readable: nat): Reading {
    var got := Min(Min(readable, n), if f.pos < |f.src| then |f.src| - f.pos else 0);
    var data := if got == 0 then [] else f.src[f.pos..f.pos + got];
    if got == n then Reading(f.(pos := f.pos + n, cachedPos := f.cachedPos + n), true, data)
    else Reading(f.(pos := f.pos + got), false, [])
  }

  /** How much one call asks the file system for. */
  function Wanted(cfg: Config, want: nat, room: nat): nat { Min(Min(room, want), cfg.fileChunkSize) }

  /** CF_CFDP_S_SendFileData. */
  function SendFileData(cfg: Config, f: TxFile, offset: nat, want: nat, calcCrc: bool, io: TxIo): DataSending {
    if !io.canSend then DataSending(f, NoBuffer, [])
    else
      var s := SeekFor(f, offset, io.seekOk);
      if !s.ok then DataSending(s.file, Failed, [])
      else
        var n := Wanted(cfg, want, io.room);
        var r := ReadFrom(s.file, n, io.readable);
        if !r.ok then DataSending(r.file, Failed, [])
        else DataSending(r.file.(crc := if calcCrc then CfCrc.Digest(r.file.crc, r.data) else r.file.crc),
                         Sent(n), [Fd(offset, r.data)])
  }

  /** How many bytes the call transmitted. */
  function Transmitted(result: SendResult): nat { if result.Sent? then result.n else 0 }

  /** The next piece of the first pass. */
  function FirstPass(cfg: Config, f: TxFile, fsize: nat, io: TxIo): DataSending
    requires f.foffs <= fsize
  {
    var d := SendFileData(cfg, f, f.foffs, fsize - f.foffs, true, io);
    d.(file := d.file.(foffs := f.foffs + Transmitted(d.result)))
  }

  /** CF_CFDP_S_SubstateSendFileData: a missing buffer is benign, anything else that moved no
      data is an error. */
  function SendNewData(cfg: Config, t: Tx, io: TxIo): Sending {
    if t.file.foffs >= t.fsize then Sending(t, [])
    else
      var d := FirstPass(cfg, t.file, t.fsize, io);
      var fine := Transmitted(d.result) > 0 || d.result.NoBuffer?;
      Sending(t.(file := d.file, stat := if fine then t.stat else SetStatus(t.stat, READ_FAILURE)), d.sent)
  }

  /** One turn of CF_CFDP_S_Tick_NewData. */
  function TickNewData(cfg: Config, t: Tx, io: TxIo): Sending {
    if t.sub.DataNormal? then SendNewData(cfg, t, io) else Sending(t, [])
  }

  /** CF_CFDP_S_Tick_Nak. */
  function TickNak(cfg: Config, t: Tx, io: TxIo): Sending {
    if !t.flags.fdNakPending then Sending(t, [])
    else if t.chunks == [] then Sending(t.(flags := t.flags.(fdNakPending := false)), [])
    else
      var d := SendFileData(cfg, t.file, t.chunks[0].offset, t.chunks[0].size, false, io);
      var n := Transmitted(d.result);
      Sending(t.(file := d.file, chunks := if n > 0 then RemoveFromFirst(t.chunks, n) else t.chunks), d.sent)
  }

  // ------------------------------------------------------------------ receiving PDUs

  /** CF_CFDP_S_SubstateRecvFin: only the first FIN counts, every one is acknowledged. */
  function RecvFin(cfg: Config, t: Tx, cc: nat, dc: nat, fs: nat): Tx {
    var s := if t.flags.finCount == 0 then t.(fin := Report(cc, dc, fs)).SetStat(cc) else t;
    if UnderLimit(cfg, s.flags.finCount) then s.(flags := s.flags.(finCount := s.flags.finCount + 1))
    else s.SetStat(POS_ACK_LIMIT_REACHED)
  }

  /** CF_CFDP_S_SubstateEarlyFin. */
  function EarlyFin(cfg: Config, t: Tx, cc: nat, dc: nat, fs: nat): Tx {
    RecvFin(cfg, t.SetStat(EARLY_FIN), cc, dc, fs)
  }

  /** One segment of a NAK: metadata again, a rejected range, or a range to send again. */
  function RecvSegment(cfg: Config, t: Tx, s: Segment): Tx {
    if s.start == 0 && s.end == 0 then t.(flags := t.flags.(sendMd := true))
    else if s.end < s.start || s.end > t.fsize then t
    else t.(chunks := Add(t.chunks, cfg.maxChunks, Chunk(s.start, s.end - s.start)),
            flags := t.flags.(fdNakPending := true))
  }

  /** CF_CFDP_S2_SubstateNak. */
  function RecvNak(cfg: Config, t: Tx, segs: seq<Segment>): Tx
    decreases |segs|
  {
    if segs == [] then t else RecvNak(cfg, RecvSegment(cfg, t, segs[0]), segs[1..])
  }

  /** CF_CFDP_S2_SubstateEofAck. */
  function RecvEofAck(t: Tx, directive: nat): Tx {
    if directive == DIR_EOF then t.(flags := t.flags.(eofAckRecv := true)) else t
  }

  /** CF_CFDP_S_DispatchRecv with the tables of CF_CFDP_S1_Recv. */
  function S1Recv(cfg: Config, t: Tx, p: Pdu): Tx {
    if !p.Fin? then t
    else match t.sub
      case DataNormal => EarlyFin(cfg, t, p.cc, p.dc, p.fs)
      case DataEof => RecvFin(cfg, t, p.cc, p.dc, p.fs)
      case _ => t
  }

  /** CF_CFDP_S_DispatchRecv with the tables of CF_CFDP_S2_Recv. */
  function S2Recv(cfg: Config, t: Tx, p: Pdu): Tx {
    match p
    case Fin(cc, dc, fs) => if t.sub.DataNormal? then EarlyFin(cfg, t, cc, dc, fs) else RecvFin(cfg, t, cc, dc, fs)
    case Nak(segs) => RecvNak(cfg, t, segs)
    case Ack(directive) => if t.sub.DataNormal? then t else RecvEofAck(t, directive)
    case _ => t
  }

  /** CF_CFDP_DispatchRecv on a send transaction, HOLD included; a PDU of the other class only
      restarts the inactivity timer. */
  function Recv(cfg: Config, t: Tx, class2: bool, p: Pdu): Tx {
    ArmInact(cfg,
      if class2 != t.reliable then t
      else if t.hold then (if p.Fin? then RecvFin(cfg, t, p.cc, p.dc, p.fs) else t)
      else if t.reliable then S2Recv(cfg, t, p)
      else S1Recv(cfg, t, p))
  }

  // ------------------------------------------------------------------ the state machine

  /** The peer reported a complete file that it kept, or class 1 is in use. */
  predicate MayRemove(t: Tx) {
    && t.Ok() && t.com.isComplete && !t.keep
    && (!t.reliable || (t.fin.fs == RETAINED && t.fin.dc == COMPLETE))
  }

  /** CF_CFDP_S_HandleFileRetention: the fate of the source file. */
  function RetentionFate(cfg: Config, t: Tx, io: TxIo): Fate {
    if !io.fileOk then t.file.fate
    else if !t.Ok() || !t.com.isComplete then
      if !t.flags.cmdTx && cfg.failDir then MovedToFailDir else t.file.fate
    else if MayRemove(t) then (if cfg.moveDir then MovedAway else Removed)
    else t.file.fate
  }

  function CheckDataNormal(t: Tx): Choice {
    Choice(t, if t.file.foffs >= t.fsize then DataEof
              else if !t.Ok() || t.flags.finCount != 0 then Filestore else DataNormal)
  }

  /** CF_CFDP_S1_CheckState_DATA_EOF; fin_dc takes the value the source writes, which is the
      file status code UNREPORTED. */
  function CheckDataEof1(t: Tx): Choice {
    if !t.com.closeReq then
      Choice(t.(fin := t.fin.(dc := UNREPORTED), com := t.com.(isComplete := true)), Filestore)
    else if t.flags.finCount != 0 then Choice(t.(com := t.com.(isComplete := true)), Filestore)
    else Choice(t, DataEof)
  }

  /** CF_CFDP_S2_CheckState_DATA_EOF. */
  function CheckDataEof2(cfg: Config, t: Tx): Choice {
    if t.flags.finCount != t.flags.finAckCount then Choice(t, DataEof)
    else if t.flags.eofAckRecv then
      if t.flags.finCount != 0 then Choice(t.(com := t.com.(isComplete := true)), Filestore) else Choice(t, DataEof)
    else if !t.com.ackArmed then
      if t.flags.finCount != 0 then Choice(t, Filestore)
      else if UnderLimit(cfg, t.acknak)
      then Choice(t.(acknak := t.acknak + 1, flags := t.flags.(sendEof := true)), DataEof)
      else Choice(t.SetStat(NAK_LIMIT_REACHED), Filestore)
    else Choice(t, DataEof)
  }

  function CheckDataEof(cfg: Config, t: Tx): Choice {
    if !t.Ok() then Choice(t, Filestore)
    else if t.flags.sendEof then Choice(t, DataEof)
    else if !t.reliable then CheckDataEof1(t)
    else CheckDataEof2(cfg, t)
  }

  function NextState(cfg: Config, t: Tx, io: TxIo): Choice {
    match t.sub
    case DataNormal => CheckDataNormal(t)
    case DataEof => CheckDataEof(cfg, t)
    case Filestore => Choice(t.(file := t.file.(fate := RetentionFate(cfg, t, io))), Complete)
    case Complete => Choice(t, Complete)
  }

  /** CF_CFDP_FinishTransaction. */
  function Finish(cfg: Config, t: Tx): Tx {
    ArmInact(cfg, t.(hold := true, file := t.file.(open := false)))
  }

  /** The first EOF is due, with the finalized checksum of the first pass. */
  function StartEof(t: Tx): Tx {
    t.(acknak := 0, file := t.file.(crc := CfCrc.Finalize(t.file.crc)),
       com := t.com.(crcComplete := true), flags := t.flags.(sendEof := true))
  }

  /** The entry actions of CF_CFDP_S_CheckState. */
  function Enter(cfg: Config, t: Tx, next: SubState): Tx {
    var s := t.(sub := next, com := t.com.(ackArmed := false));
    match next
    case DataEof => StartEof(s)
    case Complete => Finish(cfg, s)
    case _ => s
  }

  /** CF_CFDP_S_CheckState. */
  function CheckState(cfg: Config, t: Tx, io: TxIo): Tx {
    var c := NextState(cfg, t, io);
    if c.next != t.sub then Enter(cfg, c.t, c.next) else c.t
  }

  /** CF_CFDP_S_AckTimerTick. */
  function AckTimerTick(t: Tx): Tx {
    if !t.reliable || !t.com.ackArmed then t
    else if t.ackTimer > 0 then t.(ackTimer := t.ackTimer - 1)
    else t.(com := t.com.(ackArmed := false))
  }

  /** The inactivity part of CF_CFDP_S_Tick: no answer is expected while data is being sent. */
  function InactTimerTick(t: Tx): Tx {
    if t.com.inactFired || t.sub.DataNormal? then t
    else if t.inactTimer > 0 then t.(inactTimer := t.inactTimer - 1)
    else
      var s := t.(com := t.com.(inactFired := true));
      if t.hold then s else s.SetStat(INACTIVITY_DETECTED)
  }

  /** CF_CFDP_S_Tick_Maintenance. */
  function Maintenance(cfg: Config, t: Tx, io: TxIo): Sending {
    if !io.canSend then Sending(t, [])
    else if t.flags.sendMd then
      Sending(t.(flags := t.flags.(sendMd := false)), [Md(t.fsize, t.com.closeReq)])
    else if t.flags.sendEof then
      Sending((if t.reliable then ArmAck(cfg, t) else t).(flags := t.flags.(sendEof := false)),
              [Eof(ConditionCode(t.stat), t.file.crc.result, t.fsize)])
    else if t.reliable && t.flags.finAckCount != t.flags.finCount then
      Sending(t.(flags := t.flags.(finAckCount := t.flags.finCount)), [Ack(DIR_FIN)])
    else Sending(t, [])
  }

  /** CF_CFDP_S_Tick. */
  function Tick(cfg: Config, t: Tx, io: TxIo): Sending {
    var s := InactTimerTick(t);
    Maintenance(cfg, if t.hold then s else CheckState(cfg, AckTimerTick(s), io), io)
  }

  predicate Recycles(t: Tx) { t.com.inactFired && t.hold }

  /** CF_CFDP_CancelTransaction. */
  function Cancel(t: Tx): Tx { t.SetStat(CANCEL_REQUEST_RECEIVED) }
}
