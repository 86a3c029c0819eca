/** The send side of CF_Transaction_t, updated in place by the functions of cf_cfdp_s.c; every
    method is tied to the value-level step of TxSpec it performs. */
module TxTransactions {
  import opened Bytes
  import opened Cfdp
  import opened ChunkSpec
  import opened TxSpec
  import CfCrc
  import ChunkLists

  class TxTransaction {
    const cfg: Config
    const src: Bytes
    const keep: bool
    const reliable: bool
    const chunks: ChunkLists.ChunkList
    const crc: CfCrc.Crc

    var hold: bool
    var sub: SubState
    var stat: int
    var flags: TxFlags
    var com: Common
    var acknak: nat
    var fin: Report
    var ackTimer: nat
    var inactTimer: nat
    var fsize: nat
    var open: bool
    var fate: Fate
    var pos: nat
    var cachedPos: nat
    var foffs: nat

    ghost predicate Valid()
      reads this, chunks, chunks.chunks, crc
    {
      && cfg.Valid() && chunks.Valid() && chunks.chunks.Length == cfg.maxChunks && Separated(chunks.Contents())
      && crc.View().Valid() && fsize < TWO_32
    }

    ghost function FileView(): TxFile
      requires Valid()
      reads this, chunks, chunks.chunks, crc
    {
      TxFile(src, open, fate, pos, cachedPos, foffs, crc.View())
    }

    ghost function View(): Tx
      requires Valid()
      reads this, chunks, chunks.chunks, crc
    {
      Tx(hold, reliable, keep, sub, stat, flags, com, acknak, fin, ackTimer, inactTimer, fsize,
         chunks.Contents(), FileView())
    }

    /** CF_CFDP_SetupTxTransaction with a successful CF_CFDP_S_Init; sizes are 32 bits wide. */
    constructor (cfg: Config, class2: bool, keep: bool, cmdTx: bool, closeReq: bool, src: Bytes)
      requires cfg.Valid() && |src| < TWO_32
      ensures Valid() && fresh(chunks) && fresh(chunks.chunks) && fresh(crc)
      ensures this.cfg == cfg && View() == Setup(cfg, class2, keep, cmdTx, closeReq, src)
    {
      this.cfg, this.src, this.keep, reliable := cfg, src, keep, class2;
      chunks := new ChunkLists.ChunkList(cfg.maxChunks);
      crc := new CfCrc.Crc();
      hold, sub, stat := false, DataNormal, NO_ERROR;
      flags := TxFlags(cmdTx, false, false, 0, 0, true, false);
      com := Common(closeReq, false, false, false, false);
      fin := Report(0, 0, 0);
      acknak, ackTimer, inactTimer := 0, 0, cfg.inactTicks;
      fsize, open, fate, pos, cachedPos, foffs := |src|, true, InPlace, 0, 0, 0;
    }

    /** CF_CFDP_SetTxnStatus. */
    method SetTxnStatus(update: int)
      requires Valid()
      modifies this`stat
      ensures Valid() && View() == old(View()).SetStat(update)
    {
      if !IsError(stat) {
        stat := update;
      }
    }

    method ArmAckTimer()
      requires Valid()
      modifies this`ackTimer, this`com
      ensures Valid() && View() == ArmAck(cfg, old(View()))
    {
      ackTimer := cfg.ackTicks;
      com := com.(ackArmed := true);
    }

    method ArmInactTimer()
      requires Valid()
      modifies this`inactTimer
      ensures Valid() && View() == ArmInact(cfg, old(View()))
    {
      inactTimer := if hold then cfg.ackTicks * 2 else cfg.inactTicks;
    }

    // ---------------------------------------------------------------- file data

    /** The seek of CF_CFDP_S_SendFileData. */
    method SeekForData(offset: nat, io: TxIo) returns (ok: bool)
      requires Valid()
      modifies this`pos, this`cachedPos
      ensures Valid() && SeekFor(old(FileView()), offset, io.seekOk) == Seeking(FileView(), ok)
    {
      ok := open;
      if ok && cachedPos != offset {
        ok := io.seekOk;
        if ok {
          pos := offset;
          cachedPos := offset;
        }
      }
    }

    /** The read of CF_CFDP_S_SendFileData. */
    method ReadData(actual: nat, io: TxIo) returns (ok: bool, data: Bytes)
      requires Valid()
      modifies this`pos, this`cachedPos
      ensures Valid() && ReadFrom(old(FileView()), actual, io.readable) == Reading(FileView(), ok, data)
    {
      var left := if pos < |src| then |src| - pos else 0;
      var status := Min(Min(io.readable, actual), left);
      data := if status == 0 then [] else src[pos..pos + status];
      pos := pos + status;
      ok := status == actual;
      if ok {
        cachedPos := cachedPos + actual;
      } else {
        data := [];
      }
    }

    /** CF_CFDP_S_SendFileData. */
    method SendData(offset: nat, want: nat, calcCrc: bool, io: TxIo) returns (result: SendResult, sent: seq<Pdu>)
      requires Valid()
      modifies this`pos, this`cachedPos, crc
      ensures Valid()
      ensures SendFileData(cfg, old(FileView()), offset, want, calcCrc, io) == DataSending(FileView(), result, sent)
      ensures View() == old(View()).(file := FileView())
    {
      hide CfCrc.Digest;
      hide SeekFor;
      hide ReadFrom;
      if !io.canSend {
        return NoBuffer, [];
      }
      var actual := io.room;
      if actual > want {
        actual := want;
      }
      if actual > cfg.fileChunkSize {
        actual := cfg.fileChunkSize;
      }
      var ok := SeekForData(offset, io);
      if !ok {
        return Failed, [];
      }
      var data;
      ok, data := ReadData(actual, io);
      if !ok {
        return Failed, [];
      }
      if calcCrc {
        crc.DigestData(data);
      }
      return SendResult.Sent(actual), [Fd(offset, data)];
    }

    /** CF_CFDP_S_SubstateSendFileData, called by CF_CFDP_S_Tick_NewData in the first pass. */
    method SendNextData(io: TxIo) returns (sent: seq<Pdu>)
      requires Valid()
      modifies this`stat, this`foffs, this`pos, this`cachedPos, crc
      ensures Valid() && SendNewData(cfg, old(View()), io) == Sending(View(), sent)
    {
      hide SendFileData;
      sent := [];
      if foffs < fsize {
        var result;
        result, sent := SendData(foffs, fsize - foffs, true, io);
        if result.Sent? && result.n > 0 {
          foffs := foffs + result.n;
        } else if !result.NoBuffer? {
          SetTxnStatus(READ_FAILURE);
        }
      }
    }

    /** CF_CFDP_S_Tick_Nak. */
    method TickNakRequests(io: TxIo) returns (sent: seq<Pdu>)
      requires Valid()
      modifies this, chunks, chunks.chunks, crc
      ensures Valid() && TickNak(cfg, old(View()), io) == Sending(View(), sent)
    {
      hide SendFileData;
      hide RemoveFromFirst;
      sent := [];
      if flags.fdNakPending {
        var found, chunk := chunks.GetFirstChunk();
        if !found {
          flags := flags.(fdNakPending := false);
        } else {
          var result;
          result, sent := SendData(chunk.offset, chunk.size, false, io);
          if result.Sent? && result.n > 0 {
            chunks.ListRemoveFromFirst(result.n);
          }
        }
      }
    }

    // ---------------------------------------------------------------- receiving PDUs

    /** CF_CFDP_S_SubstateRecvFin. */
    method SubstateRecvFin(cc: nat, dc: nat, fs: nat)
      requires Valid()
      modifies this
      ensures Valid() && View() == RecvFin(cfg, old(View()), cc, dc, fs)
    {
      if flags.finCount == 0 {
        fin := Report(cc, dc, fs);
        SetTxnStatus(cc);
      }
      if UnderLimit(cfg, flags.finCount) {
        flags := flags.(finCount := flags.finCount + 1);
      } else {
        SetTxnStatus(POS_ACK_LIMIT_REACHED);
      }
    }

    /** CF_CFDP_S_SubstateEarlyFin. */
    method SubstateEarlyFin(cc: nat, dc: nat, fs: nat)
      requires Valid()
      modifies this
      ensures Valid() && View() == EarlyFin(cfg, old(View()), cc, dc, fs)
    {
      hide RecvFin;
      SetTxnStatus(EARLY_FIN);
      SubstateRecvFin(cc, dc, fs);
    }

    /** One turn of the loop of CF_CFDP_S2_SubstateNak. */
    method TakeSegment(s: Segment)
      requires Valid()
      modifies this`flags, chunks, chunks.chunks
      ensures Valid() && View() == RecvSegment(cfg, old(View()), s)
    {
      hide Add;
      if s.start == 0 && s.end == 0 {
        flags := flags.(sendMd := true);
      } else if s.end < s.start || s.end > fsize {
      } else {
        chunks.ListAdd(s.start, s.end - s.start);
        flags := flags.(fdNakPending := true);
      }
    }

    /** CF_CFDP_S2_SubstateNak. */
    method SubstateNak(segs: seq<Segment>)
      requires Valid()
      modifies this`flags, chunks, chunks.chunks
      ensures Valid() && View() == RecvNak(cfg, old(View()), segs)
    {
      hide RecvSegment;
      for i := 0 to |segs|
        invariant Valid()
        invariant RecvNak(cfg, View(), segs[i..]) == RecvNak(cfg, old(View()), segs)
      {
        assert segs[i..] == [segs[i]] + segs[i + 1..];
        TakeSegment(segs[i]);
      }
    }

    /** CF_CFDP_S2_SubstateEofAck. */
    method SubstateEofAck(directive: nat)
      requires Valid()
      modifies this
      ensures Valid() && View() == RecvEofAck(old(View()), directive)
    {
      if directive == DIR_EOF {
        flags := flags.(eofAckRecv := true);
      }
    }

    /** CF_CFDP_S_DispatchRecv with the tables of CF_CFDP_S1_Recv. */
    method S1RecvPdu(p: Pdu)
      requires Valid()
      modifies this
      ensures Valid() && View() == S1Recv(cfg, old(View()), p)
    {
      hide EarlyFin;
      hide RecvFin;
      if p.Fin? {
        if sub.DataNormal? {
          SubstateEarlyFin(p.cc, p.dc, p.fs);
        } else if sub.DataEof? {
          SubstateRecvFin(p.cc, p.dc, p.fs);
        }
      }
    }

    /** CF_CFDP_S_DispatchRecv with the tables of CF_CFDP_S2_Recv. */
    method S2RecvPdu(p: Pdu)
      requires Valid()
      modifies this, chunks, chunks.chunks
      ensures Valid() && View() == S2Recv(cfg, old(View()), p)
    {
      hide EarlyFin;
      hide RecvFin;
      hide RecvNak;
      hide RecvEofAck;
      match p {
        case Fin(cc, dc, fs) =>
          if sub.DataNormal? {
            SubstateEarlyFin(cc, dc, fs);
          } else {
            SubstateRecvFin(cc, dc, fs);
          }
        case Nak(segs) => SubstateNak(segs);
        case Ack(directive) =>
          if !sub.DataNormal? {
            SubstateEofAck(directive);
          }
        case _ =>
      }
    }

    /** CF_CFDP_DispatchRecv. */
    method DispatchRecv(class2: bool, p: Pdu)
      requires Valid()
      modifies this, chunks, chunks.chunks
      ensures Valid() && View() == Recv(cfg, old(View()), class2, p)
    {
      hide S1Recv;
      hide S2Recv;
      hide RecvFin;
      hide ArmInact;
      if class2 == reliable {
        if hold {
          if p.Fin? {
            SubstateRecvFin(p.cc, p.dc, p.fs);
          }
        } else if reliable {
          S2RecvPdu(p);
        } else {
          S1RecvPdu(p);
        }
      }
      ArmInactTimer();
    }

    // ---------------------------------------------------------------- the state machine

    /** CF_CFDP_S_HandleFileRetention; fileOk says whether the move or the removal succeeds. */
    method DisposeOfFile(io: TxIo)
      requires Valid()
      modifies this`fate
      ensures Valid() && fate == RetentionFate(cfg, old(View()), io)
      ensures View() == old(View()).(file := old(FileView()).(fate := fate))
    {
      var allowLocalRemove, moveToFail, moveAway := false, false, false;
      if IsError(stat) || !com.isComplete {
        moveToFail := !flags.cmdTx && cfg.failDir;
      } else if !keep {
        allowLocalRemove := !reliable || (fin.fs == RETAINED && fin.dc == COMPLETE);
        moveAway := allowLocalRemove && cfg.moveDir;
      }
      if io.fileOk {
        if moveToFail {
          fate := MovedToFailDir;
        } else if moveAway {
          fate := MovedAway;
        } else if allowLocalRemove {
          fate := Removed;
        }
      }
    }

    /** CF_CFDP_S1_CheckState_DATA_EOF. */
    method CheckStateDataEof1() returns (next: SubState)
      requires Valid()
      modifies this
      ensures Valid() && CheckDataEof1(old(View())) == Choice(View(), next)
    {
      next := DataEof;
      if !com.closeReq {
        fin := fin.(dc := UNREPORTED);
        com := com.(isComplete := true);
        next := Filestore;
      } else if flags.finCount != 0 {
        com := com.(isComplete := true);
        next := Filestore;
      }
    }

    /** CF_CFDP_S2_CheckState_DATA_EOF. */
    method CheckStateDataEof2() returns (next: SubState)
      requires Valid()
      modifies this
      ensures Valid() && CheckDataEof2(cfg, old(View())) == Choice(View(), next)
    {
      next := DataEof;
      if flags.finCount != flags.finAckCount {
      } else if flags.eofAckRecv {
        if flags.finCount != 0 {
          com := com.(isComplete := true);
          next := Filestore;
        }
      } else if !com.ackArmed {
        if flags.finCount != 0 {
          next := Filestore;
        } else if UnderLimit(cfg, acknak) {
          acknak := acknak + 1;
          flags := flags.(sendEof := true);
        } else {
          SetTxnStatus(NAK_LIMIT_REACHED);
          next := Filestore;
        }
      }
    }

    /** The switch of CF_CFDP_S_CheckState. */
    method ChooseState(io: TxIo) returns (next: SubState)
      requires Valid()
      modifies this
      ensures Valid() && NextState(cfg, old(View()), io) == Choice(View(), next)
    {
      hide CheckDataEof1;
      hide CheckDataEof2;
      hide RetentionFate;
      match sub {
        case DataNormal =>
          next := if foffs >= fsize then DataEof
                  else if IsError(stat) || flags.finCount != 0 then Filestore else DataNormal;
        case DataEof =>
          if IsError(stat) {
            next := Filestore;
          } else if flags.sendEof {
            next := DataEof;
          } else if !reliable {
            next := CheckStateDataEof1();
          } else {
            next := CheckStateDataEof2();
          }
        case Filestore =>
          DisposeOfFile(io);
          next := Complete;
        case Complete => next := Complete;
      }
    }

    /** CF_CFDP_FinishTransaction. */
    method FinishTransaction()
      requires Valid()
      modifies this
      ensures Valid() && View() == Finish(cfg, old(View()))
    {
      open := false;
      hold := true;
      ArmInactTimer();
    }

    /** The actions on entering DATA_EOF. */
    method BeginEof()
      requires Valid()
      modifies this, crc
      ensures Valid() && View() == StartEof(old(View()))
    {
      hide CfCrc.Finalize;
      acknak := 0;
      crc.FinalizeResult();
      com := com.(crcComplete := true);
      flags := flags.(sendEof := true);
    }

    /** The one-time actions of CF_CFDP_S_CheckState on entering a sub-state. */
    method EnterState(next: SubState)
      requires Valid()
      modifies this, crc
      ensures Valid() && View() == Enter(cfg, old(View()), next)
    {
      hide StartEof;
      hide Finish;
      sub := next;
      com := com.(ackArmed := false);
      match next {
        case DataEof => BeginEof();
        case Complete => FinishTransaction();
        case _ =>
      }
    }

    /** CF_CFDP_S_CheckState. */
    method CheckAndChangeState(io: TxIo)
      requires Valid()
      modifies this, crc
      ensures Valid() && View() == CheckState(cfg, old(View()), io)
    {
      hide NextState;
      hide Enter;
      ChecksKeepSub(cfg, View(), io);
      var next := ChooseState(io);
      if next != sub {
        EnterState(next);
      }
    }

    /** CF_CFDP_S_AckTimerTick. */
    method TickAckTimer()
      requires Valid()
      modifies this
      ensures Valid() && View() == AckTimerTick(old(View()))
    {
      if reliable && com.ackArmed {
        if ackTimer > 0 {
          ackTimer := ackTimer - 1;
        } else {
          com := com.(ackArmed := false);
        }
      }
    }

    /** The inactivity part of CF_CFDP_S_Tick. */
    method TickInactTimer()
      requires Valid()
      modifies this
      ensures Valid() && View() == InactTimerTick(old(View()))
    {
      if !com.inactFired && !sub.DataNormal? {
        if inactTimer > 0 {
          inactTimer := inactTimer - 1;
        } else {
          com := com.(inactFired := true);
          if !hold {
            SetTxnStatus(INACTIVITY_DETECTED);
          }
        }
      }
    }

    /** CF_CFDP_S_Tick_Maintenance. */
    method TickMaintenance(io: TxIo) returns (sent: seq<Pdu>)
      requires Valid()
      modifies this
      ensures Valid() && Maintenance(cfg, old(View()), io) == Sending(View(), sent)
    {
      sent := [];
      if !io.canSend {
      } else if flags.sendMd {
        sent := [Md(fsize, com.closeReq)];
        flags := flags.(sendMd := false);
      } else if flags.sendEof {
        sent := [Eof(ConditionCode(stat), crc.result, fsize)];
        flags := flags.(sendEof := false);
        if reliable {
          ArmAckTimer();
        }
      } else if reliable && flags.finAckCount != flags.finCount {
        sent := [Ack(DIR_FIN)];
        flags := flags.(finAckCount := flags.finCount);
      }
    }

    /** CF_CFDP_S_Tick: what was sent, and whether the transaction is to be recycled. */
    method TickTransaction(io: TxIo) returns (sent: seq<Pdu>, recycle: bool)
      requires Valid()
      modifies this, crc
      ensures Valid() && Tick(cfg, old(View()), io) == Sending(View(), sent) && recycle == Recycles(View())
    {
      hide InactTimerTick;
      hide AckTimerTick;
      hide CheckState;
      hide Maintenance;
      var active := !hold;
      TickInactTimer();
      if active {
        TickAckTimer();
        CheckAndChangeState(io);
      }
      sent := TickMaintenance(io);
      recycle := com.inactFired && hold;
    }
  }

  /** The checks choose a sub-state, they do not enter it. */
  lemma ChecksKeepSub(cfg: Config, t: Tx, io: TxIo)
    ensures NextState(cfg, t, io).t.sub == t.sub
  {
    hide RetentionFate;
  }
}
