/** The receive side of CF_Transaction_t, updated in place by the functions of cf_cfdp_r.c; every
    method is tied to the value-level step of RxSpec it performs. */
module RxTransactions {
  import opened Bytes
  import opened Cfdp
  import opened ChunkSpec
  import opened GapSpec
  import opened RxSpec
  import opened Wrappers
  import CfCrc
  import ChunkLists
  import RxSafety

  class RxTransaction {
    const cfg: Config
    const chunks: ChunkLists.ChunkList
    const crc: CfCrc.Crc

    var hold: bool
    var reliable: bool
    var sub: SubState
    var stat: int
    var flags: RxFlags
    var com: Common
    var acknak: nat
    var reports: Reports
    var ackTimer: nat
    var inactTimer: nat
    var open: bool
    var cachedPos: nat
    var size: nat
    var store: Store

    ghost predicate Valid()
      reads this, chunks, chunks.chunks, crc
    {
      && cfg.Valid() && chunks.Valid() && chunks.chunks.Length == cfg.maxChunks && Separated(chunks.Contents())
      && crc.View().Valid()
    }

    ghost function View(): Rx
      requires Valid()
      reads this, chunks, chunks.chunks, crc
    {
      Rx(hold, reliable, sub, stat, flags, com, acknak, reports, ackTimer, inactTimer,
         RxFile(open, cachedPos, size, crc.View(), chunks.Contents(), store))
    }

    /** CF_CFDP_SetupRxTransaction with CF_CFDP_R_Init. */
    constructor (cfg: Config, class2: bool, status: int, openOk: bool, dst: Option<Bytes>)
      requires cfg.Valid()
      ensures Valid() && fresh(chunks) && fresh(chunks.chunks) && fresh(crc)
      ensures this.cfg == cfg && View() == Setup(cfg, class2, status, openOk, dst)
    {
      this.cfg := cfg;
      chunks := new ChunkLists.ChunkList(cfg.maxChunks);
      crc := new CfCrc.Crc();
      var usable := !IsError(status);
      hold, reliable, sub := !usable, usable && class2, DataNormal;
      stat := if openOk then status else SetStatus(status, FILESTORE_REJECTION);
      flags := RxFlags(usable && openOk, false, 0, 0, false, false, false);
      com := Common(false, false, false, false, false);
      reports := Reports(0, 0, 0, if usable then DC_INVALID else 0, if usable then FS_INVALID else 0);
      acknak, ackTimer, cachedPos, size := 0, 0, 0, 0;
      inactTimer := if usable then cfg.inactTicks else cfg.ackTicks * 2;
      open := usable && openOk;
      store := Store([], 0, dst);
    }

    /** CF_CFDP_SetTxnStatus. */
    method SetTxnStatus(update: int)
      requires Valid()
      modifies this`stat
      ensures Valid() && View() == old(View()).SetStat(update)
    {
      if !IsError(stat) {
        stat := update;
      }
    }

    method ArmAckTimer()
      requires Valid()
      modifies this`ackTimer, this`com
      ensures Valid() && View() == ArmAck(cfg, old(View()))
    {
      ackTimer := cfg.ackTicks;
      com := com.(ackArmed := true);
    }

    method ArmInactTimer()
      requires Valid()
      modifies this`inactTimer
      ensures Valid() && View() == ArmInact(cfg, old(View()))
    {
      inactTimer := if hold then cfg.ackTicks * 2 else cfg.inactTicks;
    }

    /** The first half of CF_CFDP_R_ProcessFd. */
    method SeekForFd(offset: nat, io: RxIo) returns (ok: bool)
      requires Valid()
      modifies this`stat, this`store, this`cachedPos
      ensures Valid()
      ensures var s := SeekTo(old(View()).file, offset, io.seekOk);
              ok == s.ok && View() == if ok then old(View()).(file := s.file) else old(View()).SetStat(FILE_SIZE_ERROR)
    {
      ok := true;
      if cachedPos != offset {
        if open && io.seekOk {
          store := store.(pos := offset);
          cachedPos := offset;
        } else {
          SetTxnStatus(FILE_SIZE_ERROR);
          ok := false;
        }
      }
    }

    /** The second half: the write, and the chunk list. */
    method WriteFdData(offset: nat, data: Bytes, io: RxIo) returns (ok: bool)
      requires Valid() && offset + |data| < TWO_32
      modifies this`stat, this`store, this`cachedPos, chunks, chunks.chunks
      ensures Valid()
      ensures var w := WriteFd(cfg.maxChunks, old(View()).file, offset, data, io.writable);
              ok == w.ok && View() == if ok then old(View()).(file := w.file)
                                      else old(View()).(file := w.file).SetStat(FILESTORE_REJECTION)
    {
      hide Add;
      hide WriteAt;
      ok := true;
      var wrote := if open then Min(io.writable, |data|) else 0;
      store := store.(temp := WriteAt(store.temp, store.pos, data[..wrote]), pos := store.pos + wrote);
      if !open || wrote != |data| {
        SetTxnStatus(FILESTORE_REJECTION);
        ok := false;
      } else {
        cachedPos := |data| + offset;
        chunks.ListAdd(offset, |data|);
      }
    }

    /** CF_CFDP_R_SubstateRecvFileData. */
    method SubstateRecvFileData(offset: nat, data: Bytes, io: RxIo)
      requires Valid() && offset + |data| < TWO_32
      modifies this, chunks, chunks.chunks
      ensures Valid() && View() == RecvFd(cfg, old(View()), offset, data, io)
    {
      hide SeekTo;
      hide WriteFd;
      var ok := SeekForFd(offset, io);
      if ok {
        ok := WriteFdData(offset, data, io);
        if ok {
          acknak := 0;
        }
      }
    }

    /** CF_CFDP_R_SubstateRecvEof. */
    method SubstateRecvEof(cc: nat, eofCrc: nat, eofSize: nat)
      requires Valid()
      modifies this
      ensures Valid() && View() == RecvEof(cfg, old(View()), cc, eofCrc, eofSize)
    {
      if flags.eofCount == 0 {
        reports := reports.(eofCrc := eofCrc, eofSize := eofSize, eofCc := cc);
        SetTxnStatus(cc);
      }
      if UnderLimit(cfg, flags.eofCount) {
        flags := flags.(eofCount := flags.eofCount + 1);
      } else {
        SetTxnStatus(POS_ACK_LIMIT_REACHED);
      }
    }

    /** CF_CFDP_R_SubstateRecvMd. */
    method SubstateRecvMd(mdSize: nat, closeReq: bool, named: bool)
      requires Valid()
      modifies this
      ensures Valid() && View() == RecvMd(old(View()), mdSize, closeReq, named)
    {
      if !flags.mdRecv {
        com := com.(closeReq := closeReq);
        size := mdSize;
        if named {
          flags := flags.(mdRecv := true);
        }
      }
    }

    /** CF_CFDP_R2_SubstateRecvFinAck. */
    method SubstateRecvFinAck(directive: nat)
      requires Valid()
      modifies this
      ensures Valid() && View() == RecvFinAck(old(View()), directive)
    {
      if directive == DIR_FIN {
        flags := flags.(finackRecv := true);
      }
    }

    /** CF_CFDP_R_DispatchRecv with the tables of CF_CFDP_R1_Recv. */
    method R1RecvPdu(p: Pdu, io: RxIo)
      requires Valid() && (p.Fd? ==> p.offset + |p.data| < TWO_32)
      modifies this, chunks, chunks.chunks
      ensures Valid() && View() == R1Recv(cfg, old(View()), p, io)
    {
      hide RecvFd;
      hide RecvEof;
      hide RecvMd;
      match p {
        case Fd(offset, data) =>
          if !IsError(stat) {
            SubstateRecvFileData(offset, data, io);
          }
        case Eof(cc, eofCrc, eofSize) =>
          if Receiving(sub) {
            SubstateRecvEof(cc, eofCrc, eofSize);
          }
        case Md(mdSize, closeReq) =>
          if Receiving(sub) {
            SubstateRecvMd(mdSize, closeReq, true);
          }
        case Misnamed(mdSize, closeReq) =>
          if Receiving(sub) {
            SubstateRecvMd(mdSize, closeReq, false);
          }
        case _ =>
      }
    }

    /** CF_CFDP_R2_Recv. */
    method R2RecvPdu(p: Pdu, io: RxIo)
      requires Valid() && (p.Fd? ==> p.offset + |p.data| < TWO_32)
      modifies this, chunks, chunks.chunks
      ensures Valid() && View() == R2Recv(cfg, old(View()), p, io)
    {
      hide RecvFd;
      hide RecvEof;
      hide RecvMd;
      hide RecvFinAck;
      hide ArmAck;
      match p {
        case Fd(offset, data) =>
          if !IsError(stat) {
            SubstateRecvFileData(offset, data, io);
          }
        case Eof(cc, eofCrc, eofSize) => SubstateRecvEof(cc, eofCrc, eofSize);
        case Md(mdSize, closeReq) =>
          if Receiving(sub) {
            SubstateRecvMd(mdSize, closeReq, true);
          }
        case Misnamed(mdSize, closeReq) =>
          if Receiving(sub) {
            SubstateRecvMd(mdSize, closeReq, false);
          }
        case Ack(directive) =>
          if sub.FinAck? || sub.Complete? {
            SubstateRecvFinAck(directive);
          }
        case _ =>
      }
      if com.ackArmed {
        ArmAckTimer();
      }
    }

    /** CF_CFDP_DispatchRecv. */
    method DispatchRecv(class2: bool, p: Pdu, io: RxIo)
      requires Valid() && (p.Fd? ==> p.offset + |p.data| < TWO_32)
      modifies this, chunks, chunks.chunks
      ensures Valid() && View() == Recv(cfg, old(View()), class2, p, io)
    {
      hide R1Recv;
      hide R2Recv;
      hide RecvEof;
      hide ArmInact;
      if class2 == reliable {
        if hold {
          if p.Eof? {
            SubstateRecvEof(p.cc, p.crc, p.size);
          }
        } else if reliable {
          R2RecvPdu(p, io);
        } else {
          R1RecvPdu(p, io);
        }
      }
      ArmInactTimer();
    }

    // ---------------------------------------------------------------- the state machine

    /** CF_CFDP_R_CheckComplete. */
    method IsFileComplete() returns (complete: bool)
      requires Valid()
      ensures complete == CheckComplete(View())
    {
      if flags.sendNak || flags.eofCount == 0 || !flags.mdRecv {
        return false;
      }
      hide ComputeGaps;
      var gaps := chunks.ListComputeGaps(1, size, 0);
      complete := |gaps| == 0;
    }

    /** CF_CRC_Start on the transaction's own state. */
    method StartCrc(io: RxIo)
      requires Valid()
      modifies this, crc
      ensures Valid() && View() == CalcCrcStart(old(View()), io)
    {
      if size != reports.eofSize || !(open && io.seekOk) {
        SetTxnStatus(FILE_SIZE_ERROR);
        com := com.(crcComplete := true);
      } else {
        crc.Restart();
        cachedPos := 0;
        store := store.(pos := 0);
      }
    }

    /** The loop of CF_CFDP_R_CalcCrcChunk. */
    method ReadCrcChunks(io: RxIo) returns (success: bool)
      requires Valid()
      modifies this`cachedPos, this`store, crc
      ensures Valid()
      ensures var w := CrcLoop(cfg, old(View()).file, 0, io.goodReads);
              success == w.ok && View() == old(View()).(file := w.file)
    {
      hide ChunkLists.ChunkList.Valid;
      hide ChunkLists.ChunkList.Contents;
      hide Separated;
      hide CfCrc.Digest;
      success := true;
      var countBytes: nat, goodReads: nat := 0, io.goodReads;
      while countBytes < cfg.crcBytesPerWakeup && cachedPos < size
        invariant Valid()
        invariant CrcLoop(cfg, View().file, countBytes, goodReads) == CrcLoop(cfg, old(View()).file, 0, io.goodReads)
        decreases size - cachedPos
      {
        var readSize := if cachedPos + CRC_CHUNK > size then size - cachedPos else CRC_CHUNK;
        if !(open && goodReads > 0 && store.pos + readSize <= |store.temp|) {
          success := false;
          return;
        }
        crc.DigestData(store.temp[store.pos..store.pos + readSize]);
        store := store.(pos := store.pos + readSize);
        cachedPos := cachedPos + readSize;
        countBytes, goodReads := countBytes + readSize, goodReads - 1;
      }
    }

    /** CF_CFDP_R_CalcCrcChunk. */
    method ContinueCrc(io: RxIo)
      requires Valid()
      modifies this, crc
      ensures Valid() && View() == CalcCrcChunk(cfg, old(View()), io)
    {
      hide CrcLoop;
      hide CfCrc.Finalize;
      var success := ReadCrcChunks(io);
      if !success {
        SetTxnStatus(FILE_SIZE_ERROR);
        com := com.(crcComplete := true);
      } else if cachedPos == size {
        crc.FinalizeResult();
        com := com.(crcComplete := true);
      }
    }

    /** CF_CFDP_R_HandleFileRetention. */
    method DisposeOfFile(io: RxIo)
      requires Valid()
      modifies this
      ensures Valid() && View() == HandleFileRetention(old(View()), io)
    {
      hide ChunkLists.ChunkList.Valid;
      hide ChunkLists.ChunkList.Contents;
      hide Separated;
      var pendingFs, pendingDc := FS_INVALID, DC_INVALID;
      open := false;
      if !flags.tempCreated {
        SetTxnStatus(FILESTORE_REJECTION);
      } else {
        var left := true;
        if !com.isComplete {
          pendingDc := INCOMPLETE;
          SetTxnStatus(INVALID_FILE_STRUCTURE);
        } else {
          pendingDc := COMPLETE;
          if IsError(stat) || crc.result != reports.eofCrc {
            SetTxnStatus(FILE_CHECKSUM_FAILURE);
          } else if io.mvOk {
            SetTxnStatus(NO_ERROR);
            pendingFs := RETAINED;
            store := store.(dst := Some(store.temp), temp := []);
            left := false;
          } else {
            SetTxnStatus(FILESTORE_REJECTION);
          }
        }
        if left {
          store := store.(temp := []);
          pendingFs := if stat == FILESTORE_REJECTION then DISCARDED_FILESTORE else DISCARDED;
        }
      }
      reports := reports.(finDc := pendingDc, finFs := pendingFs);
    }

    /** CF_CFDP_R_CheckState_DATA_NORMAL. */
    method CheckStateDataNormal() returns (next: SubState)
      requires Valid()
      ensures CheckDataNormal(View()) == Choice(View(), next)
    {
      next := if flags.eofCount != 0 then DataEof else if IsError(stat) then Filestore else DataNormal;
    }

    /** CF_CFDP_R_CheckState_DATA_EOF. */
    method CheckStateDataEof() returns (next: SubState)
      requires Valid()
      modifies this
      ensures Valid() && CheckDataEof(cfg, old(View())) == Choice(View(), next)
    {
      hide CheckComplete;
      next := DataEof;
      if IsError(stat) {
        next := Filestore;
      } else {
        var complete := IsFileComplete();
        if complete {
          com := com.(isComplete := true);
          next := Validate;
        } else if reliable && !flags.sendNak && !com.ackArmed {
          if UnderLimit(cfg, acknak) {
            acknak := acknak + 1;
            flags := flags.(sendNak := true);
          } else {
            SetTxnStatus(NAK_LIMIT_REACHED);
            next := Filestore;
          }
        }
      }
    }

    /** CF_CFDP_R_CheckState_VALIDATE. */
    method CheckStateValidate(io: RxIo) returns (next: SubState)
      requires Valid()
      modifies this, crc
      ensures Valid() && CheckValidate(cfg, old(View()), io) == Choice(View(), next)
    {
      hide CalcCrcChunk;
      next := Validate;
      if IsError(stat) || cachedPos == size {
        next := Filestore;
      } else {
        ContinueCrc(io);
      }
    }

    /** CF_CFDP_R_CheckState_FILESTORE. */
    method CheckStateFilestore(io: RxIo) returns (next: SubState)
      requires Valid()
      modifies this
      ensures Valid() && CheckFilestore(old(View()), io) == Choice(View(), next)
    {
      hide HandleFileRetention;
      DispositionTerms(View(), io);
      DisposeOfFile(io);
      next := if reliable || com.closeReq then FinAck else Complete;
    }

    /** CF_CFDP_R_CheckState_FINACK. */
    method CheckStateFinAck() returns (next: SubState)
      requires Valid()
      modifies this
      ensures Valid() && CheckFinAck(cfg, old(View())) == Choice(View(), next)
    {
      next := FinAck;
      if !flags.sendFin {
        if !reliable || flags.finackRecv || com.inactFired {
          next := Complete;
        } else if !com.ackArmed {
          if UnderLimit(cfg, acknak) {
            acknak := acknak + 1;
            flags := flags.(sendFin := true);
          } else {
            next := Complete;
          }
        }
      }
    }

    /** CF_CFDP_FinishTransaction. */
    method FinishTransaction()
      requires Valid()
      modifies this
      ensures Valid() && View() == Finish(cfg, old(View()))
    {
      open := false;
      hold := true;
      ArmInactTimer();
    }

    /** The one-time actions of CF_CFDP_R_CheckState on entering a sub-state. */
    method EnterState(next: SubState, io: RxIo)
      requires Valid()
      modifies this, crc
      ensures Valid() && View() == Enter(cfg, old(View()), next, io)
    {
      hide ChunkLists.ChunkList.Valid;
      hide ChunkLists.ChunkList.Contents;
      hide Separated;
      hide CalcCrcStart;
      hide Finish;
      ghost var was := View();
      sub := next;
      com := com.(ackArmed := false);
      assert View() == was.(sub := next, com := was.com.(ackArmed := false));
      match next {
        case DataEof =>
          acknak := 0;
          if reliable {
            flags := flags.(sendNak := true);
          }
        case Validate => StartCrc(io);
        case FinAck =>
          acknak := 0;
          flags := flags.(sendFin := true);
        case Complete => FinishTransaction();
        case _ =>
      }
    }

    /** The switch of CF_CFDP_R_CheckState. */
    method ChooseState(io: RxIo) returns (next: SubState)
      requires Valid()
      modifies this, crc
      ensures Valid() && NextState(cfg, old(View()), io) == Choice(View(), next)
    {
      hide CheckDataNormal;
      hide CheckDataEof;
      hide CheckValidate;
      hide CheckFilestore;
      hide CheckFinAck;
      match sub {
        case DataNormal => next := CheckStateDataNormal();
        case DataEof => next := CheckStateDataEof();
        case Validate => next := CheckStateValidate(io);
        case Filestore => next := CheckStateFilestore(io);
        case FinAck => next := CheckStateFinAck();
        case Complete => next := Complete;
      }
    }

    /** CF_CFDP_R_CheckState. */
    method CheckAndChangeState(io: RxIo)
      requires Valid()
      modifies this, crc
      ensures Valid() && View() == CheckState(cfg, old(View()), io)
    {
      hide NextState;
      hide Enter;
      RxSafety.SameSub(cfg, View(), io);
      var next := ChooseState(io);
      if next != sub {
        EnterState(next, io);
      }
    }

    /** CF_CFDP_R_AckTimerTick. */
    method TickAckTimer()
      requires Valid()
      modifies this
      ensures Valid() && View() == AckTimerTick(old(View()))
    {
      if reliable && com.ackArmed {
        if ackTimer > 0 {
          ackTimer := ackTimer - 1;
        } else {
          com := com.(ackArmed := false);
        }
      }
    }

    /** The inactivity part of CF_CFDP_R_Tick. */
    method TickInactTimer()
      requires Valid()
      modifies this
      ensures Valid() && View() == InactTimerTick(old(View()))
    {
      if !com.inactFired {
        if inactTimer > 0 {
          inactTimer := inactTimer - 1;
        } else {
          com := com.(inactFired := true);
          if !hold {
            SetTxnStatus(INACTIVITY_DETECTED);
          }
        }
      }
    }

    /** CF_CFDP_R_SendNak once a buffer is at hand. */
    method SendNak() returns (sent: seq<Pdu>)
      requires Valid()
      ensures sent == NakPdus(cfg, View())
    {
      hide ComputeGaps;
      if !flags.mdRecv {
        sent := [Nak([Segment(0, 0)])];
      } else {
        var maxGaps := if chunks.count < chunks.chunks.Length then chunks.chunks.Length else chunks.chunks.Length - 1;
        var gaps := chunks.ListComputeGaps(maxGaps, size, 0);
        if |gaps| == 0 {
          sent := [];
        } else {
          sent := [Nak(Segments(gaps[..Min(|gaps|, NAK_MAX_SEGMENTS)]))];
        }
      }
    }

    /** CF_CFDP_R_Tick_Maintenance. */
    method TickMaintenance(io: RxIo) returns (sent: seq<Pdu>)
      requires Valid()
      modifies this
      ensures Valid() && Maintenance(cfg, old(View()), io) == Sending(View(), sent)
    {
      hide NakPdus;
      sent := [];
      if reliable && flags.eofAckCount != flags.eofCount {
        if io.canSend {
          sent := [Ack(DIR_EOF)];
          flags := flags.(eofAckCount := flags.eofCount);
        }
      } else if flags.sendNak {
        if io.canSend {
          sent := SendNak();
          if sent != [] {
            ArmAckTimer();
          }
          flags := flags.(sendNak := false);
        }
      } else if flags.sendFin {
        if io.canSend {
          sent := [Fin(ConditionCode(stat), reports.finDc % 2, reports.finFs % 4)];
          flags := flags.(sendFin := false);
          if reliable {
            ArmAckTimer();
          }
        }
      }
    }

    /** CF_CFDP_R_Tick: what was sent, and whether the transaction is to be recycled. */
    method TickTransaction(io: RxIo) returns (sent: seq<Pdu>, recycle: bool)
      requires Valid()
      modifies this, crc
      ensures Valid() && Tick(cfg, old(View()), io) == Sending(View(), sent) && recycle == Recycles(View())
    {
      hide InactTimerTick;
      hide AckTimerTick;
      hide CheckState;
      hide Maintenance;
      var active := !hold;
      TickInactTimer();
      if active {
        TickAckTimer();
        CheckAndChangeState(io);
      }
      sent := TickMaintenance(io);
      recycle := com.inactFired && hold;
    }
  }

  /** Disposing of the file does not change how the transaction closes. */
  lemma DispositionTerms(r: Rx, io: RxIo)
    ensures var u := HandleFileRetention(r, io); u.reliable == r.reliable && u.com == r.com
  {}
}
