/** The good case in class 1, without acknowledgements: what the sender sends in its one pass makes the
    receiver put the source in place, and both ends complete on their own, or, if closure was requested,
    the sender once it has the FIN. */
module ClassOne {
  import opened Bytes
  import opened Cfdp
  import opened EndToEnd
  import opened FirstPass
  import opened NakRound
  import opened Wrappers
  import CfCrc
  import D = RxDelivery
  import R = RxSpec
  import RS = RxSafety
  import T = TxSpec
  import opened ChunkSpec
  import opened GapSpec
  import RV = RxValidate

  // ------------------------------------------------------------------ reception

  /** PDUs arrive in class 1, one after the other. */
  function Hear(cfg: Config, r: R.Rx, ps: seq<Pdu>, io: R.RxIo): R.Rx
    decreases |ps|
  {
    if ps == [] then r else Hear(cfg, R.Recv(cfg, r, false, ps[0], io), ps[1..], io)
  }

  lemma {:induction false} HearConcat(cfg: Config, r: R.Rx, ps: seq<Pdu>, qs: seq<Pdu>, io: R.RxIo)
    ensures Hear(cfg, r, ps + qs, io) == Hear(cfg, Hear(cfg, r, ps, io), qs, io)
    decreases |ps|
  {
    hide R.Recv;
    if ps == [] {
      assert ps + qs == qs;
    } else {
      assert (ps + qs)[1..] == ps[1..] + qs;
      HearConcat(cfg, R.Recv(cfg, r, false, ps[0], io), ps[1..], qs, io);
    }
  }

  /** A class 1 receiver with nothing of its own to say. */
  predicate Mute(r: R.Rx, closeReq: bool) {
    !r.reliable && r.com.closeReq == closeReq && !r.flags.sendNak && !r.flags.sendFin
  }

  predicate SameCalls(r: R.Rx, u: R.Rx) { u.flags.sendNak == r.flags.sendNak && u.flags.sendFin == r.flags.sendFin }

  lemma HearKeepsFlags(cfg: Config, r: R.Rx, p: Pdu, io: R.RxIo)
    requires !r.reliable
    ensures SameCalls(r, R.Recv(cfg, r, false, p, io))
  {
    if p.Fd? {
      RecvFdCalls(cfg, r, p.offset, p.data, io);
    }
    hide R.RecvFd;
  }

  lemma RecvFdCalls(cfg: Config, r: R.Rx, offset: nat, data: Bytes, io: R.RxIo)
    ensures SameCalls(r, R.RecvFd(cfg, r, offset, data, io))
  {
    hide Add;
    hide WriteAt;
  }

  lemma {:induction false} HearsPieces(cfg: Config, src: Bytes, r: R.Rx, ps: seq<Pdu>, k: nat, closeReq: bool,
                                       io: R.RxIo)
    requires cfg.Valid() && Holding(src, r, k) && Mute(r, closeReq) && Consecutive(src, ps, k) && GoodRx(src, io)
    ensures var u := Hear(cfg, r, ps, io);
            Holding(src, u, |src|) && Mute(u, closeReq) && u.file.store.dst == r.file.store.dst
    decreases |ps|
  {
    if ps != [] {
      var n := |ps[0].data|;
      TakesPiece(cfg, src, r, k, n, io);
      HearKeepsFlags(cfg, r, ps[0], io);
      assert ps[0] == Fd(k, src[k..k + n]);
      hide Holding;
      hide R.Recv;
      hide GoodRx;
      HearsPieces(cfg, src, R.Recv(cfg, r, false, ps[0], io), ps[1..], k + n, closeReq, io);
    } else {
      hide Holding;
    }
  }

  /** Metadata, the pieces in order, the EOF: everything is here. */
  lemma HearsAll1(cfg: Config, src: Bytes, stat: int, closeReq: bool, ps: seq<Pdu>, io: R.RxIo)
    requires cfg.Valid() && cfg.ackLimit > 0 && !IsError(stat) && Consecutive(src, ps, 0) && GoodRx(src, io)
    ensures var r := R.Setup(cfg, false, stat, true, None);
            var u := Hear(cfg, r, [Md(|src|, closeReq)] + ps + [EofOf(src)], io);
            && Complete(src, u) && Mute(u, closeReq) && u.sub.DataNormal? && u.inactTimer == cfg.inactTicks
            && u.file.store.dst == None
  {
    hide R.Setup;
    hide R.Recv;
    hide Holding;
    hide D.Arrived;
    hide EofOf;
    var r := R.Setup(cfg, false, stat, true, None);
    var md, eof := Md(|src|, closeReq), EofOf(src);
    SetupSilent(cfg, stat);
    TakesMd(cfg, false, src, stat, closeReq, io);
    HearKeepsFlags(cfg, r, md, io);
    var a := R.Recv(cfg, r, false, md, io);
    HearsPieces(cfg, src, a, ps, 0, closeReq, io);
    var b := Hear(cfg, a, ps, io);
    TakesEof(cfg, src, b, io);
    HearKeepsFlags(cfg, b, eof, io);
    HearConcat(cfg, r, [md] + ps, [eof], io);
    HearConcat(cfg, r, [md], ps, io);
    HearOne(cfg, r, md, io);
    HearOne(cfg, b, eof, io);
  }

  lemma SetupSilent(cfg: Config, stat: int)
    ensures var r := R.Setup(cfg, false, stat, true, None); !r.reliable && !r.flags.sendNak && !r.flags.sendFin
  {}

  lemma HearOne(cfg: Config, r: R.Rx, p: Pdu, io: R.RxIo)
    ensures Hear(cfg, r, [p], io) == R.Recv(cfg, r, false, p, io)
  {
    hide R.Recv;
    assert Hear(cfg, R.Recv(cfg, r, false, p, io), [], io) == R.Recv(cfg, r, false, p, io);
  }

  // ------------------------------------------------------------------ the receiver's end

  lemma CheckStateMute(cfg: Config, r: R.Rx, closeReq: bool, io: R.RxIo)
    requires Mute(r, closeReq) && !RS.Done(r.sub) && !r.sub.Filestore?
    ensures Mute(R.CheckState(cfg, r, io), closeReq)
  {
    hide R.CrcLoop;
    hide R.CheckComplete;
    hide CfCrc.Finalize;
  }

  /** Before the decision it sends nothing. */
  lemma TickMute(cfg: Config, r: R.Rx, closeReq: bool, io: R.RxIo)
    requires cfg.Valid() && Mute(r, closeReq) && !r.hold && !RS.Done(r.sub) && !r.sub.Filestore?
    ensures var x := R.Tick(cfg, r, io); Mute(x.r, closeReq) && x.sent == []
  {
    var s := R.AckTimerTick(R.InactTimerTick(r));
    CheckStateMute(cfg, s, closeReq, io);
    hide R.CheckState;
    hide R.NakPdus;
  }

  /** The file is in place and reported, and nothing more is to be done. */
  predicate Over(src: Bytes, r: R.Rx) {
    && r.sub.Complete? && r.hold && r.Ok() && r.file.store.dst == Some(src)
    && r.reports.finDc == COMPLETE && r.reports.finFs == RETAINED
  }

  /** The file is in place, the FIN is out. */
  predicate Told(src: Bytes, r: R.Rx) {
    && Mute(r, true) && r.sub.FinAck? && !r.hold && r.Ok() && r.file.store.dst == Some(src)
    && r.reports.finDc == COMPLETE && r.reports.finFs == RETAINED
  }

  /** The tick that disposes of the file; a FIN only goes out if closure was requested. */
  lemma FilestoreTick1(cfg: Config, src: Bytes, r: R.Rx, closeReq: bool, io: R.RxIo)
    requires cfg.Valid() && Complete(src, r) && Mute(r, closeReq) && r.sub.Filestore? && GoodRx(src, io)
    requires r.inactTimer > 0
    ensures var x := R.Tick(cfg, r, io);
            if closeReq then Told(src, x.r) && x.sent == [GOOD_FIN] else Over(src, x.r) && x.sent == []
  {
    hide CfCrc.Checksum;
    hide ComputeGaps;
    hide RV.Underway;
    hide R.NakPdus;
    assert src[..|src|] == src;
  }

  /** It does not wait for an answer to its FIN. */
  lemma ToldEnds(cfg: Config, src: Bytes, r: R.Rx, io: R.RxIo)
    requires cfg.Valid() && Told(src, r)
    ensures var x := R.Tick(cfg, r, io); x.sent == [] && x.r.sub.Complete? && x.r.file.store.dst == Some(src)
  {
    hide R.NakPdus;
  }

  /** One tick more, and what it sent in front. */
  lemma TickThen(cfg: Config, r: R.Rx, ios: seq<R.RxIo>, k: nat)
    requires cfg.Valid() && k < |ios|
    ensures var x := R.Tick(cfg, r, ios[0]);
            var rest := TickAll(cfg, x.r, ios[1..][..k]);
            TickAll(cfg, r, ios[..k + 1]) == R.Sending(rest.r, x.sent + rest.sent)
  {
    hide R.Tick;
    assert ios[..k + 1][1..] == ios[1..][..k];
  }

  /** From the moment everything is here, file size plus eight ticks are enough. */
  lemma {:induction false} EndsAlone(cfg: Config, src: Bytes, r: R.Rx, closeReq: bool, ios: seq<R.RxIo>)
      returns (k: nat)
    requires cfg.Valid() && cfg.crcBytesPerWakeup > 0 && Complete(src, r) && Mute(r, closeReq)
    requires |ios| >= D.Due(r) + 2 && r.inactTimer >= D.Due(r) + 2 && forall io :: io in ios ==> GoodRx(src, io)
    ensures k <= |ios|
    ensures var x := TickAll(cfg, r, ios[..k]);
            && x.r.sub.Complete? && x.r.file.store.dst == Some(src)
            && x.sent == if closeReq then [GOOD_FIN] else []
    decreases |ios|
  {
    hide R.Tick;
    hide Complete;
    hide GoodRx;
    hide D.Due;
    hide Mute;
    var io := ios[0];
    assert io in ios;
    var x := R.Tick(cfg, r, io);
    if r.sub.Filestore? {
      k := LastTicks1(cfg, src, r, closeReq, ios);
    } else {
      CompleteTick(cfg, src, r, io);
      NotDone(src, r);
      TickMute(cfg, r, closeReq, io);
      var m := EndsAlone(cfg, src, x.r, closeReq, ios[1..]);
      k := m + 1;
      TickThen(cfg, r, ios, m);
      assert x.sent + TickAll(cfg, x.r, ios[1..][..m]).sent == TickAll(cfg, x.r, ios[1..][..m]).sent;
    }
  }

  lemma NotDone(src: Bytes, r: R.Rx)
    requires Complete(src, r)
    ensures !r.hold && !RS.Done(r.sub)
  {}

  lemma LastTicks1(cfg: Config, src: Bytes, r: R.Rx, closeReq: bool, ios: seq<R.RxIo>) returns (k: nat)
    requires cfg.Valid() && Complete(src, r) && Mute(r, closeReq) && r.sub.Filestore? && r.inactTimer > 0
    requires |ios| >= 2 && forall io :: io in ios ==> GoodRx(src, io)
    ensures k <= |ios|
    ensures var x := TickAll(cfg, r, ios[..k]);
            && x.r.sub.Complete? && x.r.file.store.dst == Some(src)
            && x.sent == if closeReq then [GOOD_FIN] else []
  {
    FilestoreTick1(cfg, src, r, closeReq, ios[0]);
    var x := R.Tick(cfg, r, ios[0]);
    k := if closeReq then 2 else 1;
    TickThen(cfg, r, ios, k - 1);
    if closeReq {
      ToldEnds(cfg, src, x.r, ios[1]);
      TickThen(cfg, x.r, ios[1..], 0);
    }
    hide R.Tick;
    hide Complete;
  }

  // ------------------------------------------------------------------ the sender's end

  /** About to dispose of the source. */
  predicate Leaving(src: Bytes, keep: bool, t: T.Tx) {
    && !t.reliable && !t.hold && t.keep == keep && t.stat == NO_ERROR && t.sub.Filestore? && t.com.isComplete
    && !t.flags.sendEof && !t.flags.sendMd && !t.com.inactFired && t.file.fate.InPlace?
  }

  /** Without closure the EOF is the end; with it the FIN is. */
  lemma Leaves(cfg: Config, src: Bytes, keep: bool, t: T.Tx, io: T.TxIo)
    requires Awaiting(src, keep, t) && !t.reliable && !t.com.closeReq && t.inactTimer > 0
    ensures var x := T.Tick(cfg, t, io);
            && Leaving(src, keep, x.t) && x.sent == [] && x.t.inactTimer == t.inactTimer - 1
            && x.t.fin.dc == UNREPORTED
  {}

  lemma {:induction false} WaitsForFin(cfg: Config, src: Bytes, keep: bool, t: T.Tx, ios: seq<T.TxIo>)
    requires Awaiting(src, keep, t) && !t.reliable && t.com.closeReq && t.inactTimer >= |ios|
    ensures var x := TxTicks(cfg, t, ios);
            Awaiting(src, keep, x.t) && !x.t.reliable && x.t.com.closeReq && x.sent == []
    decreases |ios|
  {
    if ios != [] {
      WaitsOne(cfg, src, keep, t, ios[0]);
      hide T.Tick;
      hide Awaiting;
      WaitsForFin(cfg, src, keep, T.Tick(cfg, t, ios[0]).t, ios[1..]);
    }
  }

  lemma WaitsOne(cfg: Config, src: Bytes, keep: bool, t: T.Tx, io: T.TxIo)
    requires Awaiting(src, keep, t) && !t.reliable && t.com.closeReq && t.inactTimer > 0
    ensures var x := T.Tick(cfg, t, io);
            && Awaiting(src, keep, x.t) && !x.t.reliable && x.t.com.closeReq && x.sent == []
            && x.t.inactTimer == t.inactTimer - 1
  {}

  /** The FIN is put on record and lets the sender go. */
  lemma FinLetsGo(cfg: Config, src: Bytes, keep: bool, t: T.Tx, io: T.TxIo)
    requires Awaiting(src, keep, t) && !t.reliable && cfg.ackLimit > 0 && cfg.inactTicks > 0
    ensures var u := T.Recv(cfg, t, false, GOOD_FIN);
            var x := T.Tick(cfg, u, io);
            && u.flags.finCount == 1 && u.fin == T.Report(NO_ERROR, COMPLETE, RETAINED)
            && (t.com.closeReq ==> Leaving(src, keep, x.t) && x.sent == [] && x.t.fin == u.fin
                                   && x.t.inactTimer == cfg.inactTicks - 1)
  {}

  lemma Left(cfg: Config, src: Bytes, keep: bool, t: T.Tx, io: T.TxIo)
    requires Leaving(src, keep, t) && t.inactTimer > 0 && io.fileOk
    ensures var x := T.Tick(cfg, t, io);
            && x.sent == [] && x.t.sub.Complete? && x.t.hold && x.t.Ok() && x.t.file.fate == FateOf(cfg, keep)
            && x.t.fin == t.fin
  {}

  /** The sender is through, its source disposed of. */
  predicate SenderOver(cfg: Config, keep: bool, t: T.Tx) {
    t.sub.Complete? && t.hold && t.Ok() && t.file.fate == FateOf(cfg, keep)
  }

  /** Without closure two ticks after the EOF end the sender. */
  lemma EndsUnasked(cfg: Config, src: Bytes, keep: bool, t: T.Tx, io1: T.TxIo, io2: T.TxIo)
    requires Awaiting(src, keep, t) && !t.reliable && !t.com.closeReq && t.inactTimer > 1 && io2.fileOk
    ensures var x := TxTicks(cfg, t, [io1, io2]);
            SenderOver(cfg, keep, x.t) && x.sent == [] && x.t.fin.dc == UNREPORTED
  {
    Leaves(cfg, src, keep, t, io1);
    Left(cfg, src, keep, T.Tick(cfg, t, io1).t, io2);
    TwoTxTicks(cfg, t, io1, io2);
    hide T.Tick;
  }

  /** With closure it waits, and two ticks after the FIN end it. */
  lemma EndsOnFin(cfg: Config, src: Bytes, keep: bool, t: T.Tx, wait: seq<T.TxIo>, io1: T.TxIo, io2: T.TxIo)
    requires Awaiting(src, keep, t) && !t.reliable && t.com.closeReq && t.inactTimer >= |wait| && io2.fileOk
    requires cfg.ackLimit > 0 && cfg.inactTicks > 1
    ensures var w := TxTicks(cfg, t, wait);
            var x := TxTicks(cfg, T.Recv(cfg, w.t, false, GOOD_FIN), [io1, io2]);
            && w.sent == [] && !w.t.sub.Complete?
            && SenderOver(cfg, keep, x.t) && x.sent == [] && x.t.fin == T.Report(NO_ERROR, COMPLETE, RETAINED)
  {
    WaitsForFin(cfg, src, keep, t, wait);
    var w := TxTicks(cfg, t, wait).t;
    FinLetsGo(cfg, src, keep, w, io1);
    var u := T.Recv(cfg, w, false, GOOD_FIN);
    Left(cfg, src, keep, T.Tick(cfg, u, io1).t, io2);
    TwoTxTicks(cfg, u, io1, io2);
    hide T.Tick;
    hide T.Recv;
  }

  /** Class 1 without losses: whatever the file, however its bytes come out of the file system and however
      often no buffer is to be had, the source ends up in place within file size plus nine ticks of the
      receiver.  A FIN is sent exactly when closure was requested; the sender then waits for it, completes
      on it and has it on record, and completes on its own otherwise. */
  lemma LossFreeClassOne(cfg: Config, src: Bytes, keep: bool, cmdTx: bool, closeReq: bool, stat: int,
                         first: T.TxIo, ios: seq<T.TxIo>, last: T.TxIo, rio: R.RxIo, rios: seq<R.RxIo>,
                         wait: seq<T.TxIo>, io1: T.TxIo, io2: T.TxIo) returns (k: nat)
    requires cfg.Valid() && cfg.crcBytesPerWakeup > 0 && cfg.fileChunkSize > 0 && cfg.ackLimit > 0
    requires cfg.inactTicks >= |src| + 9 && cfg.inactTicks > |wait| && !IsError(stat)
    requires first.canSend && last.canSend && io2.fileOk && GoodRx(src, rio)
    requires FirstPass.Goods(src, ios) >= |src| && forall io :: io in ios ==> Usable(src, io)
    requires |rios| >= |src| + 9 && forall io :: io in rios ==> GoodRx(src, io)
    ensures k <= |rios|
    ensures var x := SendAll(cfg, T.Setup(cfg, false, keep, cmdTx, closeReq, src), first, ios, last);
            var y := TickAll(cfg, Hear(cfg, R.Setup(cfg, false, stat, true, None), x.sent, rio), rios[..k]);
            && y.r.sub.Complete? && y.r.file.store.dst == Some(src)
            && (closeReq ==>
                  var w := TxTicks(cfg, x.t, wait);
                  var z := TxTicks(cfg, T.Recv(cfg, w.t, false, GOOD_FIN), [io1, io2]);
                  && y.sent == [GOOD_FIN] && !w.t.sub.Complete?
                  && SenderOver(cfg, keep, z.t) && z.t.fin == T.Report(NO_ERROR, COMPLETE, RETAINED))
            && (!closeReq ==>
                  var z := TxTicks(cfg, x.t, [io1, io2]);
                  y.sent == [] && SenderOver(cfg, keep, z.t) && z.t.fin.dc == UNREPORTED)
  {
    Announces(cfg, false, src, keep, cmdTx, closeReq, first, ios, last);
    hide SendAll;
    hide SentPieces;
    hide GoodRx;
    hide Awaiting;
    hide EofOf;
    hide T.Setup;
    hide R.Setup;
    hide T.Recv;
    var x := SendAll(cfg, T.Setup(cfg, false, keep, cmdTx, closeReq, src), first, ios, last);
    var ps := SentPieces(cfg, T.Setup(cfg, false, keep, cmdTx, closeReq, src), first, ios);
    HearsAll1(cfg, src, stat, closeReq, ps, rio);
    var r := Hear(cfg, R.Setup(cfg, false, stat, true, None), x.sent, rio);
    hide Hear;
    DueAtFirst(src, r);
    k := EndsAlone(cfg, src, r, closeReq, rios);
    hide TickAll;
    hide Complete;
    hide TxTicks;
    if closeReq {
      EndsOnFin(cfg, src, keep, x.t, wait, io1, io2);
    } else {
      EndsUnasked(cfg, src, keep, x.t, io1, io2);
    }
  }

  lemma DueAtFirst(src: Bytes, r: R.Rx)
    requires Complete(src, r) && r.sub.DataNormal?
    ensures D.Due(r) == |src| + 6
  {}
}
