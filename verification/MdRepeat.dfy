/** Lost metadata: a receiver that has the EOF but no metadata asks for it, the sender sends it again, and
    the receiver takes it. */
module MdRepeat {
  import opened Bytes
  import opened Cfdp
  import opened ChunkGrowth
  import opened ChunkSpec
  import opened EndToEnd
  import opened EofRepeat
  import opened GapSpec
  import opened NakRound
  import CfCrc
  import R = RxSpec
  import RP = Repair
  import RS = RxSafety
  import RV = RxValidate
  import T = TxSpec
  import TS = TxSafety

  /** A class 2 receiver in DATA_EOF without metadata whose next tick asks for it: a NAK is due, or the timer
      of the last one has run out and the limit on NAKs is not reached. */
  predicate AsksForMd(cfg: Config, r: R.Rx) {
    && !r.hold && r.reliable && r.Ok() && r.sub.DataEof? && !r.com.inactFired && r.inactTimer > 0
    && !r.flags.mdRecv && r.flags.eofAckCount == r.flags.eofCount
    && (r.flags.sendNak || (r.com.ackArmed && r.ackTimer == 0 && UnderLimit(cfg, r.acknak)))
  }

  lemma RequestsMd(cfg: Config, r: R.Rx, io: R.RxIo)
    requires cfg.Valid() && AsksForMd(cfg, r) && io.canSend
    ensures var x := R.Tick(cfg, r, io);
            && x.sent == R.NakPdus(cfg, r) && |x.sent| == 1
            && x.r == r.(inactTimer := r.inactTimer - 1, ackTimer := cfg.ackTicks,
                         acknak := if r.flags.sendNak then r.acknak else r.acknak + 1,
                         com := r.com.(ackArmed := true), flags := r.flags.(sendNak := false))
  {
    hide ComputeGaps;
  }

  /** What the request for metadata makes of a sender: the metadata is due, and nothing else changes. */
  lemma RequestTaken(cfg: Config, r: R.Rx, tcfg: Config, t: T.Tx)
    requires cfg.Valid() && !r.flags.mdRecv && !t.hold && t.reliable
    ensures var p := R.NakPdus(cfg, r)[0];
            T.Recv(tcfg, t, true, p) == t.(flags := t.flags.(sendMd := true), inactTimer := tcfg.inactTicks)
  {
    var segs := R.NakPdus(cfg, r)[0].segments;
    assert segs[1..] == [];
    assert T.RecvNak(tcfg, t, segs) == T.RecvSegment(tcfg, t, segs[0]);
  }

  /** What is due in any case. */
  predicate SameDues(t: T.Tx, u: T.Tx) {
    u.flags.sendMd == t.flags.sendMd && u.fsize == t.fsize && u.com.closeReq == t.com.closeReq
  }

  lemma NextStateDues(cfg: Config, t: T.Tx, io: T.TxIo)
    ensures SameDues(t, T.NextState(cfg, t, io).t)
  {
    hide T.RetentionFate;
  }

  lemma CheckStateDues(cfg: Config, t: T.Tx, io: T.TxIo)
    ensures SameDues(t, T.CheckState(cfg, t, io))
  {
    NextStateDues(cfg, t, io);
    hide T.NextState;
    hide CfCrc.Finalize;
  }

  lemma SendsMd(tcfg: Config, t: T.Tx, io: T.TxIo)
    requires t.flags.sendMd && io.canSend
    ensures var x := T.Tick(tcfg, t, io);
            x.sent == [Md(t.fsize, t.com.closeReq)]
  {
    var s := T.InactTimerTick(t);
    assert SameDues(t, s) && SameDues(s, T.AckTimerTick(s));
    CheckStateDues(tcfg, T.AckTimerTick(s), io);
    hide T.InactTimerTick;
    hide T.AckTimerTick;
    hide T.CheckState;
  }

  /** For every such receiver and every class 2 sender that is not held: the one PDU the receiver sends makes the
      sender's next tick send the metadata, and with that the receiver knows the size. */
  lemma MetadataComesBack(cfg: Config, r: R.Rx, io: R.RxIo, tcfg: Config, t: T.Tx, tio: T.TxIo, rio: R.RxIo)
    requires cfg.Valid() && AsksForMd(cfg, r) && io.canSend && !t.hold && t.reliable && tio.canSend
    ensures var x := R.Tick(cfg, r, io);
            && |x.sent| == 1
            && var y := T.Tick(tcfg, T.Recv(tcfg, t, true, x.sent[0]), tio);
               var u := R.Recv(cfg, x.r, true, Md(t.fsize, t.com.closeReq), rio);
               && y.sent == [Md(t.fsize, t.com.closeReq)]
               && u.flags.mdRecv && u.file.size == t.fsize && u.com.closeReq == t.com.closeReq
  {
    RequestsMd(cfg, r, io);
    RequestTaken(cfg, r, tcfg, t);
    SendsMd(tcfg, T.Recv(tcfg, t, true, R.NakPdus(cfg, r)[0]), tio);
    hide R.Tick;
    hide T.Tick;
    hide T.Recv;
    hide R.NakPdus;
  }

  // ------------------------------------------------------------------ the parties of a transfer of src

  /** The sender, its EOF acknowledged, waits for the FIN. */
  predicate Acknowledged(src: Bytes, keep: bool, t: T.Tx) {
    && t.reliable && t.flags.eofAckRecv && Awaiting(src, keep, t.(flags := t.flags.(eofAckRecv := false)))
  }

  /** It sends metadata again without further ado. */
  lemma AnswersMd(tcfg: Config, src: Bytes, keep: bool, t: T.Tx, io: T.TxIo)
    requires Acknowledged(src, keep, t) && io.canSend && tcfg.inactTicks > 0
    ensures var u := t.(flags := t.flags.(sendMd := true), inactTimer := tcfg.inactTicks);
            var x := T.Tick(tcfg, u, io);
            && x.sent == [Md(|src|, t.com.closeReq)] && Acknowledged(src, keep, x.t) && !T.Recycles(x.t)
            && x.t.com.closeReq == t.com.closeReq && x.t.inactTimer == tcfg.inactTicks - 1
            && x.t.file == t.file && x.t.chunks == t.chunks
  {
    var u := t.(flags := t.flags.(sendMd := true), inactTimer := tcfg.inactTicks);
    var s := T.AckTimerTick(T.InactTimerTick(u));
    assert T.CheckState(tcfg, s, io) == s;
    hide T.CheckState;
  }

  /** The receiver has the EOF but no metadata, and its request for it is out. */
  ghost predicate Deaf(cfg: Config, src: Bytes, r: R.Rx) {
    && RS.Inv(cfg, src, r) && RP.Receptive(r) && NakRound.Waiting(r) && !r.flags.mdRecv && RV.Checking(r)
    && Orderly(r.file.chunks, cfg.maxChunks, |src|)
    && r.reports.eofSize == |src| && r.reports.eofCrc == CfCrc.Checksum(src)
  }

  /** The first request. */
  lemma NotedAsksForMd(cfg: Config, src: Bytes, r: R.Rx, io: R.RxIo)
    requires cfg.Valid() && Noted(cfg, src, r) && !r.flags.mdRecv && r.inactTimer > 0 && io.canSend
    ensures var x := R.Tick(cfg, r, io);
            && x.sent == R.NakPdus(cfg, r) && |x.sent| == 1 && Deaf(cfg, src, x.r)
            && x.r.acknak == 0 && x.r.ackTimer == cfg.ackTicks && x.r.inactTimer == r.inactTimer - 1
            && x.r.file == r.file
  {
    RequestsMd(cfg, r, io);
    RS.TickKeeps(cfg, src, r, io);
    hide R.Tick;
    hide R.NakPdus;
    hide RS.Inv;
    hide Orderly;
    hide CfCrc.Checksum;
  }

  /** Each period of the timer asks again, up to the limit. */
  lemma DeafAsks(cfg: Config, src: Bytes, r: R.Rx, ios: seq<R.RxIo>)
    requires cfg.Valid() && Deaf(cfg, src, r) && r.inactTimer > r.ackTimer && UnderLimit(cfg, r.acknak)
    requires |ios| == r.ackTimer + 1 && ios[r.ackTimer].canSend
    ensures var x := TickAll(cfg, r, ios);
            && x.sent == R.NakPdus(cfg, r) && |x.sent| == 1 && Deaf(cfg, src, x.r)
            && x.r == r.(ackTimer := cfg.ackTicks, inactTimer := r.inactTimer - |ios|, acknak := r.acknak + 1)
  {
    assert |R.NakPdus(cfg, r)| == 1;
    Asks(cfg, r, ios);
    hide TickAll;
    hide R.NakPdus;
    hide Orderly;
    hide CfCrc.Checksum;
  }

  /** With the metadata the receiver knows all it needs to ask for data. */
  lemma DeafNoMore(cfg: Config, src: Bytes, r: R.Rx, closeReq: bool, io: R.RxIo)
    requires cfg.Valid() && Deaf(cfg, src, r)
    ensures var u := R.Recv(cfg, r, true, Md(|src|, closeReq), io);
            && Open(cfg, src, u) && u.acknak == r.acknak && u.ackTimer == cfg.ackTicks && u.inactTimer == cfg.inactTicks
            && u.file.chunks == r.file.chunks && u.file.store == r.file.store
  {
    RS.RecvKeeps(cfg, src, r, true, Md(|src|, closeReq), io);
    MdRecorded(cfg, src, r, closeReq, io);
    hide R.Recv;
    hide RS.Inv;
    hide Orderly;
    hide CfCrc.Checksum;
  }

  lemma MdRecorded(cfg: Config, src: Bytes, r: R.Rx, closeReq: bool, io: R.RxIo)
    requires !r.hold && r.reliable && R.Receiving(r.sub) && !r.flags.mdRecv && r.com.ackArmed
    ensures R.Recv(cfg, r, true, Md(|src|, closeReq), io) ==
            r.(com := r.com.(closeReq := closeReq), file := r.file.(size := |src|), flags := r.flags.(mdRecv := true),
               ackTimer := cfg.ackTicks, inactTimer := cfg.inactTicks)
  {}
}
