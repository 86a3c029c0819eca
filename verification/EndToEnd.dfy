/** The good case of the whole system: when nothing is lost and the file systems do what they are
    asked to, a transfer ends with the source in place at the receiver, the sender informed, and
    both transactions complete. */
module EndToEnd {
  import opened Bytes
  import opened Cfdp
  import opened ChunkSpec
  import opened GapSpec
  import opened Protocol
  import opened RxProgress
  import opened Wrappers
  import CfCrc
  import D = RxDelivery
  import R = RxSpec
  import RS = RxSafety
  import H = RxHistory
  import RP = Repair
  import RV = RxValidate
  import T = TxSpec
  import TR = TxRetransmit
  import TS = TxSafety

  // ------------------------------------------------------------------ the schedule

  predicate GoodTx(src: Bytes, io: T.TxIo) { TR.Good(src, io) && io.fileOk }

  predicate GoodRx(src: Bytes, io: R.RxIo) { D.Good(io, |src|) && io.writable >= |src| }

  /** Every PDU is delivered once and in order. */
  function Deliver(ps: seq<Pdu>, io: R.RxIo, stat: int): seq<Event> {
    if ps == [] then [] else [RxRecv(ps[0], true, io, stat, true)] + Deliver(ps[1..], io, stat)
  }

  /** The first pass, each piece of it delivered at once. */
  function PassEvents(cfg: Config, t: T.Tx, ios: seq<T.TxIo>, rio: R.RxIo, stat: int): seq<Event>
    decreases |ios|
  {
    if ios == [] then []
    else
      var x := T.TickNewData(cfg, t, ios[0]);
      ([TxData(ios[0])] + Deliver(x.sent, rio, stat)) + PassEvents(cfg, x.t, ios[1..], rio, stat)
  }

  function RxTicks(ios: seq<R.RxIo>): seq<Event> {
    if ios == [] then [] else [RxTick(ios[0])] + RxTicks(ios[1..])
  }

  lemma {:induction false} RunConcat(cfg: Config, s: System, es: seq<Event>, fs: seq<Event>)
    requires cfg.Valid() && Run(cfg, s, es).Some?
    ensures Run(cfg, s, es + fs) == Run(cfg, Run(cfg, s, es).value, fs)
    decreases |es|
  {
    hide Step;
    hide Possible;
    if es == [] {
      assert es + fs == fs;
    } else {
      assert (es + fs)[0] == es[0] && (es + fs)[1..] == es[1..] + fs;
      RunConcat(cfg, Step(cfg, s, es[0]), es[1..], fs);
    }
  }

  lemma RunOne(cfg: Config, s: System, e: Event)
    requires cfg.Valid() && Possible(s, e)
    ensures Run(cfg, s, [e]) == Some(Step(cfg, s, e))
  {
    hide Step;
    assert [e][1..] == [];
    assert Run(cfg, Step(cfg, s, e), []) == Some(Step(cfg, s, e));
  }

  /** Only the sender has moved, to x.t, and x.sent is on the channel. */
  predicate Moved(s: System, u: System, x: T.Sending) {
    && !u.recycled && u.t == x.t && u.r == s.r && u.dst == s.dst && u.toTx == s.toTx
    && forall p :: p in x.sent ==> p in u.toRx
  }

  lemma TxSteps(cfg: Config, s: System, io: T.TxIo)
    requires cfg.Valid() && !s.recycled
    ensures Moved(s, Step(cfg, s, TxData(io)), T.TickNewData(cfg, s.t, io))
    ensures !T.Recycles(T.Tick(cfg, s.t, io).t) ==> Moved(s, Step(cfg, s, TxTick(io)), T.Tick(cfg, s.t, io))
  {
    hide T.TickNewData;
    hide T.Tick;
    hide T.Recycles;
  }

  // ------------------------------------------------------------------ the sender's first pass

  /** The first k bytes have been sent; nothing has come back. */
  ghost predicate Passing(src: Bytes, keep: bool, t: T.Tx, k: nat) {
    && k <= |src| && Plain(src, keep, t) && t.sub.DataNormal? && !t.flags.sendEof
    && t.file.pos == t.file.cachedPos == t.file.foffs == k
    && t.file.crc == CfCrc.Digest(CfCrc.START, src[..k])
  }

  /** A transaction in order that has received nothing yet. */
  predicate Plain(src: Bytes, keep: bool, t: T.Tx) {
    && !t.hold && t.keep == keep && t.stat == NO_ERROR && t.fsize == |src| && t.chunks == []
    && !t.flags.fdNakPending && !t.flags.eofAckRecv && t.flags.finCount == t.flags.finAckCount == 0
    && !t.com.inactFired && !t.com.isComplete
    && t.file.src == src && t.file.foffs <= |src| && t.file.open && t.file.fate.InPlace?
  }

  /** What the first pass leaves alone. */
  predicate Alike(t: T.Tx, u: T.Tx) {
    && u.reliable == t.reliable && u.com.closeReq == t.com.closeReq && u.flags.cmdTx == t.flags.cmdTx
    && u.inactTimer == t.inactTimer
  }

  /** The EOF with the checksum of the whole source is due. */
  predicate Announcing(src: Bytes, keep: bool, t: T.Tx) {
    && Plain(src, keep, t) && t.sub.DataEof? && t.flags.sendEof && t.acknak == 0
    && t.file.crc.result == CfCrc.Checksum(src)
  }

  function EofOf(src: Bytes): Pdu { Eof(NO_ERROR, CfCrc.Checksum(src), |src|) }

  /** One good call of the first pass sends the next piece, if one is left. */
  lemma PassStep(cfg: Config, src: Bytes, keep: bool, t: T.Tx, k: nat, io: T.TxIo) returns (n: nat)
    requires cfg.fileChunkSize > 0 && Passing(src, keep, t, k) && !t.flags.sendMd && GoodTx(src, io)
    ensures var x := T.TickNewData(cfg, t, io);
            && k + n <= |src| && (n == 0 <==> k == |src|)
            && Passing(src, keep, x.t, k + n) && !x.t.flags.sendMd && Alike(t, x.t)
            && x.sent == if n == 0 then [] else [Fd(k, src[k..k + n])]
  {
    hide CfCrc.Digest;
    if k == |src| {
      n := 0;
    } else {
      n := T.Wanted(cfg, |src| - k, io.room);
      TS.FirstPassCrc(src, k, n);
    }
  }

  /** The metadata goes out first; an empty file needs no pieces. */
  lemma FirstTick(cfg: Config, reliable: bool, src: Bytes, keep: bool, cmdTx: bool, closeReq: bool, io: T.TxIo)
    requires cfg.inactTicks > 0 && io.canSend
    ensures var x := T.Tick(cfg, T.Setup(cfg, reliable, keep, cmdTx, closeReq, src), io);
            && x.sent == [Md(|src|, closeReq)] && !x.t.flags.sendMd && !T.Recycles(x.t)
            && x.t.inactTimer == cfg.inactTicks && x.t.reliable == reliable && x.t.com.closeReq == closeReq
            && x.t.flags.cmdTx == cmdTx
            && if src == [] then Announcing(src, keep, x.t) else Passing(src, keep, x.t, 0)
  {
    SumOfNothing();
    hide CfCrc.Digest;
    hide CfCrc.Finalize;
    hide CfCrc.Checksum;
    assert src[..0] == [];
  }

  lemma SumOfNothing()
    ensures CfCrc.Digest(CfCrc.START, []) == CfCrc.START
    ensures CfCrc.Finalize(CfCrc.START).result == CfCrc.Checksum([])
  {
    CfCrc.FinalizeIsChecksum(CfCrc.START, []);
  }

  predicate Awaiting(src: Bytes, keep: bool, t: T.Tx) {
    Plain(src, keep, t) && t.sub.DataEof? && !t.flags.sendEof && !t.flags.sendMd
  }

  /** An EOF is out, and the timer for its acknowledgement is running. */
  predicate Out(cfg: Config, src: Bytes, t: T.Tx) {
    && t.com.ackArmed && t.ackTimer == cfg.ackTicks && t.acknak == 0
    && t.file.crc.result == CfCrc.Checksum(src)
  }

  /** The tick after the last piece announces the file. */
  lemma EofTick(cfg: Config, src: Bytes, keep: bool, t: T.Tx, io: T.TxIo)
    requires Passing(src, keep, t, |src|) || Announcing(src, keep, t)
    requires !t.flags.sendMd && t.inactTimer > 0 && io.canSend
    ensures var x := T.Tick(cfg, t, io);
            && x.sent == [EofOf(src)] && Awaiting(src, keep, x.t) && !T.Recycles(x.t)
            && x.t.reliable == t.reliable && x.t.com.closeReq == t.com.closeReq && x.t.flags.cmdTx == t.flags.cmdTx
            && x.t.inactTimer >= t.inactTimer - 1
            && (t.reliable ==> Out(cfg, src, x.t))
  {
    var s := T.AckTimerTick(T.InactTimerTick(t));
    TimersPlain(src, keep, t);
    EofCheck(cfg, src, keep, s, io);
    EofOut(cfg, src, keep, T.CheckState(cfg, s, io), io);
    hide T.InactTimerTick;
    hide T.AckTimerTick;
    hide T.CheckState;
    hide T.Maintenance;
    hide EofOf;
    hide CfCrc.Digest;
  }

  lemma TimersPlain(src: Bytes, keep: bool, t: T.Tx)
    requires Plain(src, keep, t) && t.inactTimer > 0
    ensures var s := T.AckTimerTick(T.InactTimerTick(t));
            && Plain(src, keep, s) && s.sub == t.sub && s.file == t.file && s.flags == t.flags
            && s.reliable == t.reliable && s.com.closeReq == t.com.closeReq && s.inactTimer >= t.inactTimer - 1
            && s.acknak == t.acknak
  {}

  /** Where the first pass ends its sum is finalized. */
  lemma EofCheck(cfg: Config, src: Bytes, keep: bool, t: T.Tx, io: T.TxIo)
    requires Passing(src, keep, t, |src|) || Announcing(src, keep, t)
    ensures var u := T.CheckState(cfg, t, io);
            && Announcing(src, keep, u) && u.flags.sendMd == t.flags.sendMd && Alike(t, u)
  {
    hide CfCrc.Digest;
    hide CfCrc.Finalize;
    hide CfCrc.Checksum;
    assert src[..|src|] == src;
    CfCrc.FinalizeIsChecksum(CfCrc.START, src);
    ChecksumBelow(src);
  }

  lemma EofOut(cfg: Config, src: Bytes, keep: bool, t: T.Tx, io: T.TxIo)
    requires Announcing(src, keep, t) && !t.flags.sendMd && io.canSend
    ensures var x := T.Maintenance(cfg, t, io);
            && x.sent == [EofOf(src)] && Awaiting(src, keep, x.t) && !T.Recycles(x.t) && Alike(t, x.t)
            && (t.reliable ==> Out(cfg, src, x.t))
  {
    hide CfCrc.Checksum;
  }

  lemma ChecksumBelow(b: Bytes)
    ensures CfCrc.Checksum(b) % TWO_32 == CfCrc.Checksum(b)
  {}

  // ------------------------------------------------------------------ the receiver's first pass

  /** Metadata and the first k bytes have been received, in order. */
  predicate Holding(src: Bytes, r: R.Rx, k: nat) {
    && k <= |src| && !r.hold && r.Ok() && r.sub.DataNormal? && !r.com.inactFired
    && r.flags.tempCreated && r.flags.mdRecv && r.flags.eofCount == r.flags.eofAckCount == 0 && !r.flags.finackRecv
    && r.file.open && r.file.store.pos == r.file.cachedPos == k && r.file.size == |src|
    && r.file.chunks == (if k == 0 then [] else [Chunk(0, k)]) && r.file.store.temp == src[..k]
  }

  lemma TakesMd(cfg: Config, reliable: bool, src: Bytes, stat: int, closeReq: bool, io: R.RxIo)
    requires !IsError(stat)
    ensures var u := R.Recv(cfg, R.Setup(cfg, reliable, stat, true, None), reliable, Md(|src|, closeReq), io);
            Holding(src, u, 0) && u.file.store.dst == None && u.reliable == reliable && u.com.closeReq == closeReq
  {
    assert src[..0] == [];
  }

  lemma AddNext(max: nat, k: nat, n: nat)
    requires max > 0 && n > 0
    ensures Add(if k == 0 then [] else [Chunk(0, k)], max, Chunk(k, n)) == [Chunk(0, k + n)]
  {
    var cs := if k == 0 then [] else [Chunk(0, k)];
    if k == 0 {
      InsertPosUnique(cs, k, 0);
      MergeEndUnique(cs, 0, k + n, 0);
    } else {
      InsertPosUnique(cs, k, 1);
      MergeEndUnique(cs, 1, k + n, 1);
    }
  }

  lemma TakesPiece(cfg: Config, src: Bytes, r: R.Rx, k: nat, n: nat, io: R.RxIo)
    requires cfg.Valid() && Holding(src, r, k) && n > 0 && k + n <= |src| && GoodRx(src, io)
    ensures var u := R.Recv(cfg, r, r.reliable, Fd(k, src[k..k + n]), io);
            && Holding(src, u, k + n) && u.file.store.dst == r.file.store.dst
            && u.reliable == r.reliable && u.com.closeReq == r.com.closeReq
  {
    var data := src[k..k + n];
    assert data[..n] == data;
    assert WriteAt(src[..k], k, data) == src[..k + n];
    AddNext(cfg.maxChunks, k, n);
    hide WriteAt;
    hide Add;
  }

  /** With the EOF everything is here. */
  lemma TakesEof(cfg: Config, src: Bytes, r: R.Rx, io: R.RxIo)
    requires cfg.Valid() && cfg.ackLimit > 0 && Holding(src, r, |src|)
    ensures var u := R.Recv(cfg, r, r.reliable, EofOf(src), io);
            && D.Arrived(u) && u.sub.DataNormal? && u.reliable == r.reliable && u.com.closeReq == r.com.closeReq
            && u.flags.eofCount == 1 && u.flags.eofAckCount == 0
            && !u.flags.finackRecv
            && u.file.store.temp == src && u.file.size == |src| && u.reports.eofCrc == CfCrc.Checksum(src)
            && u.inactTimer == cfg.inactTicks && u.file.store.dst == r.file.store.dst
  {
    hide CfCrc.Checksum;
    assert src[..|src|] == src;
    OneChunkIsAll(|src|);
    hide ComputeGaps;
  }

  lemma OneChunkIsAll(n: nat)
    ensures ComputeGaps(if n == 0 then [] else [Chunk(0, n)], 1, n, 0) == []
  {}

  // ------------------------------------------------------------------ the receiver's ticks

  /** All of the source has arrived, and the sum will be right. */
  ghost predicate Complete(src: Bytes, r: R.Rx) {
    && D.Arrived(r) && r.file.store.temp == src && r.file.size == |src|
    && r.reports.eofCrc == CfCrc.Checksum(src) && !r.flags.finackRecv
  }

  /** The source is in place and waits to be reported. */
  predicate Retained(src: Bytes, r: R.Rx) {
    && r.sub.FinAck? && !r.hold && r.reliable && r.Ok() && !r.com.inactFired && r.file.store.dst == Some(src)
    && r.reports.finDc == COMPLETE && r.reports.finFs == RETAINED && !r.flags.finackRecv
  }

  /** It was reported, and nothing else is due. */
  predicate Reported(src: Bytes, r: R.Rx) {
    && Retained(src, r) && !r.flags.sendFin && !r.flags.sendNak && r.flags.eofAckCount == r.flags.eofCount
    && r.com.ackArmed
  }

  const GOOD_FIN := Fin(NO_ERROR, COMPLETE, RETAINED)

  lemma MaintainFin(cfg: Config, src: Bytes, r: R.Rx, io: R.RxIo)
    requires cfg.Valid() && Retained(src, r) && r.flags.sendFin && io.canSend
    ensures var x := R.Maintenance(cfg, r, io);
            && x.r.inactTimer == r.inactTimer && x.r.acknak == r.acknak
            && (Pending(r) == 1 ==> x.r.ackTimer == cfg.ackTicks)
            && if Pending(r) == 1 then Reported(src, x.r) && GOOD_FIN in x.sent
               else Retained(src, x.r) && x.r.flags.sendFin && Pending(x.r) == Pending(r) - 1
  {
    hide R.NakPdus;
  }

  lemma FinTick(cfg: Config, src: Bytes, r: R.Rx, io: R.RxIo)
    requires cfg.Valid() && Retained(src, r) && r.flags.sendFin && io.canSend && r.inactTimer > 0
    ensures var x := R.Tick(cfg, r, io);
            && x.r.inactTimer == r.inactTimer - 1 && x.r.acknak == r.acknak
            && (Pending(r) == 1 ==> x.r.ackTimer == cfg.ackTicks)
            && if Pending(r) == 1 then Reported(src, x.r) && GOOD_FIN in x.sent
               else Retained(src, x.r) && x.r.flags.sendFin && Pending(x.r) == Pending(r) - 1
  {
    var s := R.AckTimerTick(R.InactTimerTick(r));
    assert R.CheckState(cfg, s, io) == s && Retained(src, s) && s.flags == r.flags && s.inactTimer == r.inactTimer - 1;
    assert s.acknak == r.acknak;
    MaintainFin(cfg, src, s, io);
    hide R.Maintenance;
    hide R.CheckState;
  }

  lemma FilestoreTick(cfg: Config, src: Bytes, r: R.Rx, io: R.RxIo)
    requires cfg.Valid() && Complete(src, r) && r.reliable && r.sub.Filestore? && GoodRx(src, io) && r.inactTimer > 0
    ensures var x := R.Tick(cfg, r, io);
            && x.r.inactTimer == r.inactTimer - 1 && x.r.acknak == 0
            && (!x.r.flags.sendFin ==> x.r.ackTimer == cfg.ackTicks)
            && if x.r.flags.sendFin then Retained(src, x.r) else Reported(src, x.r) && GOOD_FIN in x.sent
  {
    var s := R.AckTimerTick(R.InactTimerTick(r));
    FilestoreRetains(cfg, src, r, io);
    MaintainFin(cfg, src, R.CheckState(cfg, s, io), io);
    hide Complete;
    hide R.Maintenance;
    hide R.CheckState;
    hide R.InactTimerTick;
    hide R.AckTimerTick;
  }

  lemma FilestoreRetains(cfg: Config, src: Bytes, r: R.Rx, io: R.RxIo)
    requires Complete(src, r) && r.reliable && r.sub.Filestore? && GoodRx(src, io) && r.inactTimer > 0
    ensures var u := R.CheckState(cfg, R.AckTimerTick(R.InactTimerTick(r)), io);
            Retained(src, u) && u.flags.sendFin && u.inactTimer == r.inactTimer - 1 && u.acknak == 0
    ensures !r.hold
  {
    hide CfCrc.Checksum;
    hide ComputeGaps;
    hide RV.Underway;
    assert src[..|src|] == src;
  }

  lemma CompleteTick(cfg: Config, src: Bytes, r: R.Rx, io: R.RxIo)
    requires cfg.Valid() && cfg.crcBytesPerWakeup > 0 && Complete(src, r) && GoodRx(src, io) && r.inactTimer > 0
    requires !r.sub.Filestore?
    ensures var x := R.Tick(cfg, r, io);
            && Complete(src, x.r) && D.Due(x.r) < D.Due(r) && x.r.inactTimer == r.inactTimer - 1
            && x.r.reliable == r.reliable
  {
    D.TickDelivers(cfg, r, io);
    TickReliable(cfg, r, io);
    TickAcks(cfg, r, io);
    hide D.Arrived;
    hide R.Tick;
    hide D.Due;
  }

  lemma TickReliable(cfg: Config, r: R.Rx, io: R.RxIo)
    requires cfg.Valid() && D.Arrived(r)
    ensures R.Tick(cfg, r, io).r.reliable == r.reliable
  {
    TickForward(cfg, r, io);
    hide R.Tick;
    hide ComputeGaps;
    hide RV.Checking;
  }

  lemma TickAcks(cfg: Config, r: R.Rx, io: R.RxIo)
    requires cfg.Valid()
    ensures var x := R.Tick(cfg, r, io);
            && x.r.flags.eofCount == r.flags.eofCount && x.r.flags.finackRecv == r.flags.finackRecv
            && (x.r.flags.eofAckCount == r.flags.eofAckCount || Ack(DIR_EOF) in x.sent)
  {
    var s := R.AckTimerTick(R.InactTimerTick(r));
    CheckStateAcks(cfg, s, io);
    MaintenanceAcks(cfg, R.Advance(cfg, r, io), io);
    hide R.CheckState;
    hide R.Maintenance;
  }

  predicate SameEofs(r: R.Rx, u: R.Rx) {
    && u.flags.eofCount == r.flags.eofCount && u.flags.eofAckCount == r.flags.eofAckCount
    && u.flags.finackRecv == r.flags.finackRecv
  }

  lemma CheckStateAcks(cfg: Config, r: R.Rx, io: R.RxIo)
    ensures SameEofs(r, R.CheckState(cfg, r, io))
  {
    var c := R.NextState(cfg, r, io);
    NextStateAcks(cfg, r, io);
    EnterAcks(cfg, c.r, c.next, io);
    hide R.NextState;
    hide R.Enter;
  }

  lemma NextStateAcks(cfg: Config, r: R.Rx, io: R.RxIo)
    ensures SameEofs(r, R.NextState(cfg, r, io).r)
  {
    RS.CalcCrcChunkSteers(cfg, r, io);
    RS.RetentionSteers(r, io);
    hide R.CalcCrcChunk;
    hide R.HandleFileRetention;
    hide R.CheckComplete;
  }

  lemma EnterAcks(cfg: Config, r: R.Rx, next: R.SubState, io: R.RxIo)
    ensures SameEofs(r, R.Enter(cfg, r, next, io))
  {}

  lemma MaintenanceAcks(cfg: Config, r: R.Rx, io: R.RxIo)
    requires cfg.Valid()
    ensures var x := R.Maintenance(cfg, r, io);
            && x.r.flags.eofCount == r.flags.eofCount && x.r.flags.finackRecv == r.flags.finackRecv
            && (x.r.flags.eofAckCount == r.flags.eofAckCount || Ack(DIR_EOF) in x.sent)
  {
    hide R.NakPdus;
    hide R.FinPdu;
  }

  // ------------------------------------------------------------------ the receiver up to its FIN

  /** The EOF is acknowledged, or will be. */
  predicate AckDue(s: System) {
    s.r.Some? && (s.r.value.flags.eofAckCount == s.r.value.flags.eofCount ==> Ack(DIR_EOF) in s.toTx)
  }

  /** Only the receiver has moved. */
  predicate OnlyRx(s: System, u: System) {
    u.t == s.t && u.recycled == s.recycled && u.toRx == s.toRx && s.toTx <= u.toTx
  }

  /** Its end of the transfer is done and said so. */
  predicate Finished(src: Bytes, s: System) {
    s.r.Some? && Reported(src, s.r.value) && s.dst == Some(src) && GOOD_FIN in s.toTx && Ack(DIR_EOF) in s.toTx
  }

  /** Only the receiver has moved, to x.r, and x.sent is on the channel. */
  predicate RxMoved(s: System, u: System, x: R.Sending) {
    && OnlyRx(s, u) && u.r == Some(x.r) && u.dst == x.r.file.store.dst
    && forall p :: p in x.sent ==> p in u.toTx
  }

  /** A tick of a receiver whose timer is running. */
  lemma RxTickStep(cfg: Config, s: System, io: R.RxIo)
    requires cfg.Valid() && AckDue(s) && !R.Recycles(R.Tick(cfg, s.r.value, io).r)
    ensures RxMoved(s, Step(cfg, s, RxTick(io)), R.Tick(cfg, s.r.value, io)) && AckDue(Step(cfg, s, RxTick(io)))
  {
    hide R.Tick;
    hide R.Recycles;
    hide ReplyFrom;
    var x := R.Tick(cfg, s.r.value, io);
    Replied(s, x);
    TickAcks(cfg, s.r.value, io);
    AckStaysDue(s, ReplyFrom(s, x), x);
  }

  lemma AckStaysDue(s: System, u: System, x: R.Sending)
    requires AckDue(s) && RxMoved(s, u, x) && x.r.flags.eofCount == s.r.value.flags.eofCount
    requires x.r.flags.eofAckCount == s.r.value.flags.eofAckCount || Ack(DIR_EOF) in x.sent
    ensures AckDue(u)
  {}

  lemma Replied(s: System, x: R.Sending)
    requires !R.Recycles(x.r)
    ensures RxMoved(s, ReplyFrom(s, x), x)
  {}

  lemma RunTick(cfg: Config, s: System, ios: seq<R.RxIo>)
    requires cfg.Valid() && ios != []
    ensures Run(cfg, s, RxTicks(ios)) == Run(cfg, Step(cfg, s, RxTick(ios[0])), RxTicks(ios[1..]))
  {
    hide Step;
    assert RxTicks(ios)[1..] == RxTicks(ios[1..]);
  }

  /** From the moment the file is in place. */
  /** The FIN has just been sent, k ticks after s. */
  predicate FinSent(cfg: Config, s: System, u: System, k: nat) {
    && s.r.Some? && u.r.Some? && u.r.value.acknak == 0 && u.r.value.ackTimer == cfg.ackTicks
    && u.r.value.inactTimer == s.r.value.inactTimer - k
  }

  lemma {:induction false} TicksToFin(cfg: Config, src: Bytes, s: System, ios: seq<R.RxIo>) returns (k: nat)
    requires cfg.Valid() && AckDue(s) && Retained(src, s.r.value) && s.r.value.flags.sendFin
    requires s.r.value.acknak == 0
    requires |ios| >= Pending(s.r.value) && s.r.value.inactTimer >= Pending(s.r.value)
    requires forall io :: io in ios ==> GoodRx(src, io)
    ensures 0 < k <= |ios| && Run(cfg, s, RxTicks(ios[..k])).Some?
    ensures var u := Run(cfg, s, RxTicks(ios[..k])).value; OnlyRx(s, u) && Finished(src, u) && FinSent(cfg, s, u, k)
    decreases |ios|
  {
    var r := s.r.value;
    assert ios[0] in ios;
    FinTick(cfg, src, r, ios[0]);
    RxTickStep(cfg, s, ios[0]);
    var u := Step(cfg, s, RxTick(ios[0]));
    hide Step;
    hide R.Tick;
    if Pending(r) == 1 {
      k := 1;
      assert ios[..1][1..] == [];
      RunTick(cfg, s, ios[..1]);
      assert Run(cfg, u, RxTicks([])) == Some(u);
    } else {
      hide Pending;
      var m := TicksToFin(cfg, src, u, ios[1..]);
      k := m + 1;
      assert ios[..k][1..] == ios[1..][..m];
      RunTick(cfg, s, ios[..k]);
      hide Run;
      OnlyRxOn(s, u, Run(cfg, u, RxTicks(ios[1..][..m])).value);
    }
  }

  lemma OnlyRxOn(s: System, u: System, v: System)
    requires OnlyRx(s, u) && OnlyRx(u, v)
    ensures OnlyRx(s, v)
  {}

  /** From the moment everything has arrived. */
  lemma {:induction false} TicksToEnd(cfg: Config, src: Bytes, s: System, ios: seq<R.RxIo>) returns (k: nat)
    requires cfg.Valid() && cfg.crcBytesPerWakeup > 0 && AckDue(s) && Complete(src, s.r.value) && s.r.value.reliable
    requires |ios| >= D.Due(s.r.value) + 3 && s.r.value.inactTimer >= D.Due(s.r.value) + 3
    requires forall io :: io in ios ==> GoodRx(src, io)
    ensures 0 < k <= |ios| && Run(cfg, s, RxTicks(ios[..k])).Some?
    ensures var u := Run(cfg, s, RxTicks(ios[..k])).value; OnlyRx(s, u) && Finished(src, u) && FinSent(cfg, s, u, k)
    decreases |ios|
  {
    var r := s.r.value;
    assert ios[0] in ios;
    var x := R.Tick(cfg, r, ios[0]);
    var u := Step(cfg, s, RxTick(ios[0]));
    var m: nat;
    hide GoodRx;
    hide Finished;
    hide D.Due;
    if r.sub.Filestore? {
      m := LastTicks(cfg, src, s, ios);
    } else {
      CompleteTick(cfg, src, r, ios[0]);
      CompleteStays(src, x.r);
      RxTickStep(cfg, s, ios[0]);
      hide Step;
      hide R.Tick;
      hide Complete;
      m := TicksToEnd(cfg, src, u, ios[1..]);
    }
    k := m + 1;
    assert ios[..k][1..] == ios[1..][..m];
    hide Step;
    hide Complete;
    RunTick(cfg, s, ios[..k]);
    hide Run;
    OnlyRxOn(s, u, Run(cfg, u, RxTicks(ios[1..][..m])).value);
  }

  /** The tick that disposes of the file, and those up to the FIN. */
  lemma LastTicks(cfg: Config, src: Bytes, s: System, ios: seq<R.RxIo>) returns (m: nat)
    requires cfg.Valid() && AckDue(s) && Complete(src, s.r.value) && s.r.value.sub.Filestore?
    requires s.r.value.reliable
    requires |ios| >= 4 && s.r.value.inactTimer >= 4 && forall io :: io in ios ==> GoodRx(src, io)
    ensures m < |ios|
    ensures var u := Step(cfg, s, RxTick(ios[0]));
            && Run(cfg, u, RxTicks(ios[1..][..m])).Some? && OnlyRx(s, u)
            && var v := Run(cfg, u, RxTicks(ios[1..][..m])).value;
               OnlyRx(u, v) && Finished(src, v) && FinSent(cfg, s, v, m + 1)
  {
    var u := Step(cfg, s, RxTick(ios[0]));
    assert ios[0] in ios;
    FilestoreTick(cfg, src, s.r.value, ios[0]);
    RxTickStep(cfg, s, ios[0]);
    hide Step;
    hide R.Tick;
    hide Complete;
    hide GoodRx;
    if u.r.value.flags.sendFin {
      m := TicksToFin(cfg, src, u, ios[1..]);
    } else {
      m := 0;
      assert ios[1..][..0] == [];
    }
  }

  lemma CompleteStays(src: Bytes, r: R.Rx)
    requires Complete(src, r)
    ensures !R.Recycles(r)
  {}

  // ------------------------------------------------------------------ the first pass of both

  /** Both ends have come k bytes far; nothing has been answered. */
  ghost predicate Level(src: Bytes, keep: bool, s: System, k: nat) {
    && !s.recycled && s.t.reliable && (Passing(src, keep, s.t, k) || (k == |src| == 0 && Announcing(src, keep, s.t)))
    && !s.t.flags.sendMd && s.t.inactTimer > 0
    && s.r.Some? && s.r.value.reliable && Holding(src, s.r.value, k) && s.r.value.file.store.dst == None
  }

  /** One piece is sent and delivered. */
  lemma PassPiece(cfg: Config, src: Bytes, keep: bool, s: System, k: nat, io: T.TxIo, rio: R.RxIo, stat: int)
    returns (n: nat)
    requires cfg.Valid() && cfg.fileChunkSize > 0 && Level(src, keep, s, k) && GoodTx(src, io) && GoodRx(src, rio)
    ensures var x := T.TickNewData(cfg, s.t, io);
            var v := Run(cfg, s, [TxData(io)] + Deliver(x.sent, rio, stat));
            && v.Some? && Level(src, keep, v.value, k + n) && v.value.t == x.t
            && k + n <= |src| && (n == 0 <==> k == |src|)
  {
    n := LevelStep(cfg, src, keep, s, k, io);
    var sent := T.TickNewData(cfg, s.t, io).sent;
    var u := Step(cfg, s, TxData(io));
    hide T.TickNewData;
    hide Step;
    hide Level;
    hide PieceOut;
    RunOne(cfg, s, TxData(io));
    if n == 0 {
      PieceOutLevel(src, keep, u, k);
      assert [TxData(io)] + Deliver(sent, rio, stat) == [TxData(io)];
    } else {
      PieceIn(cfg, src, keep, u, k, n, rio, stat);
      RunConcat(cfg, s, [TxData(io)], Deliver(sent, rio, stat));
    }
  }

  /** The sender is n bytes ahead, with the piece on the channel. */
  ghost predicate PieceOut(src: Bytes, keep: bool, s: System, k: nat, n: nat) {
    && k + n <= |src| && !s.recycled && s.t.reliable
    && (Passing(src, keep, s.t, k + n) || (|src| == 0 && Announcing(src, keep, s.t)))
    && !s.t.flags.sendMd && s.t.inactTimer > 0
    && s.r.Some? && s.r.value.reliable && Holding(src, s.r.value, k) && s.r.value.file.store.dst == None
    && (n > 0 ==> Fd(k, src[k..k + n]) in s.toRx)
  }

  lemma PieceOutLevel(src: Bytes, keep: bool, s: System, k: nat)
    requires PieceOut(src, keep, s, k, 0)
    ensures Level(src, keep, s, k)
  {
    hide Passing;
    hide Announcing;
  }

  lemma LevelStep(cfg: Config, src: Bytes, keep: bool, s: System, k: nat, io: T.TxIo) returns (n: nat)
    requires cfg.fileChunkSize > 0 && cfg.Valid() && Level(src, keep, s, k) && GoodTx(src, io)
    ensures k + n <= |src| && (n == 0 <==> k == |src|) && PieceOut(src, keep, Step(cfg, s, TxData(io)), k, n)
    ensures var x := T.TickNewData(cfg, s.t, io);
            Step(cfg, s, TxData(io)).t == x.t && x.sent == if n == 0 then [] else [Fd(k, src[k..k + n])]
  {
    hide Passing;
    hide Announcing;
    hide Holding;
    hide T.TickNewData;
    TxSteps(cfg, s, io);
    hide Step;
    n := PassEither(cfg, src, keep, s.t, k, io);
    assert n > 0 ==> Fd(k, src[k..k + n]) in T.TickNewData(cfg, s.t, io).sent;
  }

  lemma PassEither(cfg: Config, src: Bytes, keep: bool, t: T.Tx, k: nat, io: T.TxIo) returns (n: nat)
    requires cfg.fileChunkSize > 0 && GoodTx(src, io) && !t.flags.sendMd
    requires Passing(src, keep, t, k) || (k == |src| == 0 && Announcing(src, keep, t))
    ensures var x := T.TickNewData(cfg, t, io);
            && k + n <= |src| && (n == 0 <==> k == |src|)
            && (Passing(src, keep, x.t, k + n) || (|src| == 0 && Announcing(src, keep, x.t)))
            && !x.t.flags.sendMd && Alike(t, x.t)
            && x.sent == if n == 0 then [] else [Fd(k, src[k..k + n])]
  {
    if t.sub.DataNormal? {
      n := PassStep(cfg, src, keep, t, k, io);
      hide T.SendNewData;
    } else {
      n := 0;
    }
    hide Plain;
    hide GoodTx;
    hide CfCrc.Digest;
  }

  lemma PieceIn(cfg: Config, src: Bytes, keep: bool, s: System, k: nat, n: nat, rio: R.RxIo, stat: int)
    requires cfg.Valid() && PieceOut(src, keep, s, k, n) && n > 0 && GoodRx(src, rio)
    ensures var v := Run(cfg, s, Deliver([Fd(k, src[k..k + n])], rio, stat));
            v.Some? && Level(src, keep, v.value, k + n) && v.value.t == s.t
  {
    hide R.Recv;
    hide Passing;
    hide Announcing;
    hide Holding;
    var p := Fd(k, src[k..k + n]);
    var e := RxRecv(p, true, rio, stat, true);
    TakesPiece(cfg, src, s.r.value, k, n, rio);
    assert [p][1..] == [] && Deliver([p], rio, stat) == [e] + Deliver([], rio, stat) == [e];
    RunOne(cfg, s, e);
  }

  lemma {:induction false} PassRuns(cfg: Config, src: Bytes, keep: bool, s: System, k: nat,
                                    ios: seq<T.TxIo>, rio: R.RxIo, stat: int)
    requires cfg.Valid() && cfg.fileChunkSize > 0 && Level(src, keep, s, k) && GoodRx(src, rio)
    requires |ios| >= |src| - k && forall io :: io in ios ==> GoodTx(src, io)
    ensures var v := Run(cfg, s, PassEvents(cfg, s.t, ios, rio, stat)); v.Some? && Level(src, keep, v.value, |src|)
    decreases |ios|
  {
    hide Level;
    hide GoodTx;
    hide GoodRx;
    hide T.TickNewData;
    hide Step;
    hide Possible;
    if ios == [] {
      LevelWithin(src, keep, s, k);
    } else {
      assert ios[0] in ios;
      var n := PassPiece(cfg, src, keep, s, k, ios[0], rio, stat);
      var x := T.TickNewData(cfg, s.t, ios[0]);
      var head := [TxData(ios[0])] + Deliver(x.sent, rio, stat);
      var u := Run(cfg, s, head).value;
      hide Deliver;
      RunConcat(cfg, s, head, PassEvents(cfg, x.t, ios[1..], rio, stat));
      hide Run;
      PassRuns(cfg, src, keep, u, k + n, ios[1..], rio, stat);
    }
  }

  lemma LevelWithin(src: Bytes, keep: bool, s: System, k: nat)
    requires Level(src, keep, s, k)
    ensures k <= |src|
  {}

  // ------------------------------------------------------------------ beginning and end

  function Opening(src: Bytes, closeReq: bool, io: T.TxIo, rio: R.RxIo, stat: int): seq<Event> {
    [TxTick(io)] + [RxRecv(Md(|src|, closeReq), true, rio, stat, true)]
  }

  lemma OpeningRuns(cfg: Config, src: Bytes, keep: bool, cmdTx: bool, closeReq: bool,
                    io: T.TxIo, rio: R.RxIo, stat: int)
    requires cfg.Valid() && cfg.inactTicks > 0 && io.canSend && !IsError(stat)
    ensures var v := Run(cfg, Init(cfg, src, keep, cmdTx, closeReq), Opening(src, closeReq, io, rio, stat));
            v.Some? && Level(src, keep, v.value, 0)
            && v.value.t == T.Tick(cfg, Init(cfg, src, keep, cmdTx, closeReq).t, io).t
  {
    var s := Init(cfg, src, keep, cmdTx, closeReq);
    var md := Md(|src|, closeReq);
    var e := RxRecv(md, true, rio, stat, true);
    FirstTick(cfg, true, src, keep, cmdTx, closeReq, io);
    TakesMd(cfg, true, src, stat, closeReq, rio);
    var x := T.Tick(cfg, s.t, io);
    var u := Step(cfg, s, TxTick(io));
    assert md in x.sent && md in u.toRx;
    hide T.Tick;
    hide T.Setup;
    hide R.Recv;
    hide R.Setup;
    hide Passing;
    hide Announcing;
    hide Holding;
    RunOne(cfg, s, TxTick(io));
    RunOne(cfg, u, e);
    RunConcat(cfg, s, [TxTick(io)], [e]);
  }

  function Announcement(src: Bytes, io: T.TxIo, rio: R.RxIo, stat: int): seq<Event> {
    [TxTick(io)] + [RxRecv(EofOf(src), true, rio, stat, true)]
  }

  /** The sender waits for an answer, the receiver has everything. */
  ghost predicate Expecting(cfg: Config, src: Bytes, keep: bool, s: System) {
    && !s.recycled && s.t.reliable && Awaiting(src, keep, s.t) && AckDue(s) && Complete(src, s.r.value)
    && s.r.value.reliable && s.r.value.sub.DataNormal? && s.r.value.inactTimer == cfg.inactTicks
  }

  lemma AnnouncementRuns(cfg: Config, src: Bytes, keep: bool, s: System, io: T.TxIo, rio: R.RxIo, stat: int)
    requires cfg.Valid() && cfg.ackLimit > 0 && Level(src, keep, s, |src|) && io.canSend
    ensures var v := Run(cfg, s, Announcement(src, io, rio, stat)); v.Some? && Expecting(cfg, src, keep, v.value)
  {
    var e := RxRecv(EofOf(src), true, rio, stat, true);
    var u := Step(cfg, s, TxTick(io));
    EofSent(cfg, src, keep, s, io);
    EofReceived(cfg, src, keep, u, rio, stat);
    hide Step;
    hide EofOf;
    hide Level;
    hide Expecting;
    hide Awaiting;
    hide Holding;
    RunOne(cfg, s, TxTick(io));
    RunOne(cfg, u, e);
    RunConcat(cfg, s, [TxTick(io)], [e]);
  }

  lemma EofSent(cfg: Config, src: Bytes, keep: bool, s: System, io: T.TxIo)
    requires cfg.Valid() && Level(src, keep, s, |src|) && io.canSend
    ensures var u := Step(cfg, s, TxTick(io));
            && !u.recycled && u.t.reliable && Awaiting(src, keep, u.t) && u.r == s.r && EofOf(src) in u.toRx
  {
    EofTick(cfg, src, keep, s.t, io);
    var x := T.Tick(cfg, s.t, io);
    assert EofOf(src) in x.sent;
    hide T.Tick;
    hide Passing;
    hide Announcing;
    hide Awaiting;
    hide Holding;
    hide EofOf;
  }

  lemma EofReceived(cfg: Config, src: Bytes, keep: bool, s: System, rio: R.RxIo, stat: int)
    requires cfg.Valid() && cfg.ackLimit > 0 && !s.recycled && s.t.reliable && Awaiting(src, keep, s.t)
    requires s.r.Some? && s.r.value.reliable && Holding(src, s.r.value, |src|)
    ensures Expecting(cfg, src, keep, Step(cfg, s, RxRecv(EofOf(src), true, rio, stat, true)))
  {
    TakesEof(cfg, src, s.r.value, rio);
    hide R.Recv;
    hide Awaiting;
    hide Holding;
    hide D.Arrived;
    hide EofOf;
  }

  /** The sender has its answers; acked says whether it has acknowledged the FIN. */
  predicate Answered(keep: bool, t: T.Tx, acked: bool) {
    && !t.hold && t.reliable && t.keep == keep && t.stat == NO_ERROR && t.sub.DataEof?
    && !t.flags.sendEof && !t.flags.sendMd && t.flags.eofAckRecv && t.flags.finCount == 1
    && t.flags.finAckCount == (if acked then 1 else 0)
    && t.fin == T.Report(NO_ERROR, COMPLETE, RETAINED) && !t.com.inactFired && t.file.fate.InPlace?
  }

  lemma AnswersArrive(cfg: Config, src: Bytes, keep: bool, t: T.Tx)
    requires cfg.ackLimit > 0 && t.reliable && Awaiting(src, keep, t)
    ensures var u := T.Recv(cfg, T.Recv(cfg, t, true, GOOD_FIN), true, Ack(DIR_EOF));
            Answered(keep, u, false) && u.inactTimer == cfg.inactTicks
  {}

  lemma TimersAnswered(keep: bool, t: T.Tx, acked: bool)
    requires Answered(keep, t, acked) && t.inactTimer > 0
    ensures var s := T.AckTimerTick(T.InactTimerTick(t)); Answered(keep, s, acked) && s.inactTimer == t.inactTimer - 1
  {}

  lemma FinAcked(cfg: Config, keep: bool, t: T.Tx, io: T.TxIo)
    requires Answered(keep, t, false) && t.inactTimer > 0 && io.canSend
    ensures var x := T.Tick(cfg, t, io);
            && Answered(keep, x.t, true) && x.sent == [Ack(DIR_FIN)] && x.t.inactTimer == t.inactTimer - 1
            && !T.Recycles(x.t)
  {
    var s := T.AckTimerTick(T.InactTimerTick(t));
    TimersAnswered(keep, t, false);
    assert T.CheckState(cfg, s, io) == s;
    hide T.InactTimerTick;
    hide T.AckTimerTick;
    hide T.CheckState;
  }

  /** The fate of a source that was received. */
  function FateOf(cfg: Config, keep: bool): T.Fate {
    if keep then T.InPlace else if cfg.moveDir then T.MovedAway else T.Removed
  }

  /** The sender is about to dispose of its source. */
  predicate Disposing(keep: bool, t: T.Tx) {
    && !t.hold && t.reliable && t.keep == keep && t.stat == NO_ERROR && t.sub.Filestore? && t.com.isComplete
    && !t.flags.sendEof && !t.flags.sendMd && t.flags.finCount == t.flags.finAckCount == 1
    && t.fin == T.Report(NO_ERROR, COMPLETE, RETAINED) && !t.com.inactFired && t.file.fate.InPlace?
  }

  lemma ToFilestore(cfg: Config, keep: bool, t: T.Tx, io: T.TxIo)
    requires Answered(keep, t, true) && t.inactTimer > 0
    ensures var x := T.Tick(cfg, t, io);
            Disposing(keep, x.t) && x.t.inactTimer == t.inactTimer - 1 && !T.Recycles(x.t) && x.sent == []
  {
    var s := T.AckTimerTick(T.InactTimerTick(t));
    TimersAnswered(keep, t, true);
    var u := T.CheckState(cfg, s, io);
    assert Disposing(keep, u) && u.inactTimer == s.inactTimer;
    hide T.InactTimerTick;
    hide T.AckTimerTick;
    hide T.CheckState;
  }

  lemma TimersDisposing(keep: bool, t: T.Tx)
    requires Disposing(keep, t) && t.inactTimer > 0
    ensures Disposing(keep, T.AckTimerTick(T.InactTimerTick(t)))
  {}

  lemma SenderEnds(cfg: Config, keep: bool, t: T.Tx, io: T.TxIo)
    requires Disposing(keep, t) && t.inactTimer > 0 && io.fileOk
    ensures var x := T.Tick(cfg, t, io);
            && !T.Recycles(x.t) && x.sent == [] && x.t.sub.Complete? && x.t.file.fate == FateOf(cfg, keep)
            && x.t.flags.finCount != 0 && x.t.fin == t.fin
  {
    var s := T.AckTimerTick(T.InactTimerTick(t));
    TimersDisposing(keep, t);
    DisposingEnds(cfg, keep, s, io);
    hide T.CheckState;
  }

  lemma DisposingEnds(cfg: Config, keep: bool, t: T.Tx, io: T.TxIo)
    requires Disposing(keep, t) && io.fileOk
    ensures var u := T.CheckState(cfg, t, io);
            && u.sub.Complete? && u.file.fate == FateOf(cfg, keep) && !u.com.inactFired && u.hold
            && u.flags == t.flags && u.fin == t.fin && u.reliable
  {}

  /** The acknowledgement of the FIN ends the receiver. */
  lemma ReceiverEnds(cfg: Config, src: Bytes, r: R.Rx, rio: R.RxIo, io: R.RxIo)
    requires cfg.Valid() && cfg.inactTicks > 0 && Reported(src, r)
    ensures var u := R.Recv(cfg, r, true, Ack(DIR_FIN), rio);
            var x := R.Tick(cfg, u, io);
            && u.file.store.dst == Some(src) && x.r.sub.Complete? && !R.Recycles(x.r)
            && x.r.file.store.dst == Some(src)
  {}

  function Farewell(io: T.TxIo, rio: R.RxIo, stat: int): seq<Event> {
    [TxRecv(GOOD_FIN, true)] + ([TxRecv(Ack(DIR_EOF), true)] + ([TxTick(io)]
    + ([RxRecv(Ack(DIR_FIN), true, rio, stat, true)] + ([TxTick(io)] + ([TxTick(io)] + [RxTick(rio)])))))
  }

  lemma Ahead(cfg: Config, s: System, e: Event, es: seq<Event>)
    requires cfg.Valid() && Possible(s, e)
    ensures Run(cfg, s, [e] + es) == Run(cfg, Step(cfg, s, e), es)
  {
    hide Step;
    assert ([e] + es)[1..] == es;
  }

  /** Both ends are through: the copy is in place, the sender was told and has disposed of its source. */
  predicate Delivered(cfg: Config, src: Bytes, keep: bool, s: System) {
    && s.dst == Some(src) && HasFin(s, NO_ERROR, COMPLETE, RETAINED)
    && !s.recycled && s.t.sub.Complete? && s.t.file.fate == FateOf(cfg, keep)
    && s.r.Some? && s.r.value.sub.Complete?
  }

  lemma AnswersTaken(cfg: Config, src: Bytes, keep: bool, s: System)
    requires cfg.Valid() && cfg.ackLimit > 0 && !s.recycled && s.t.reliable
    requires Awaiting(src, keep, s.t) && Finished(src, s)
    ensures var u := Step(cfg, s, TxRecv(GOOD_FIN, true));
            var v := Step(cfg, u, TxRecv(Ack(DIR_EOF), true));
            && Possible(s, TxRecv(GOOD_FIN, true)) && Possible(u, TxRecv(Ack(DIR_EOF), true))
            && !v.recycled && Answered(keep, v.t, false) && v.t.inactTimer == cfg.inactTicks && Finished(src, v)
  {
    AnswersArrive(cfg, src, keep, s.t);
    hide T.Recv;
    hide Answered;
    hide Awaiting;
    hide Reported;
  }

  /** The FIN was acknowledged to the receiver, and the sender is free. */
  predicate Parting(src: Bytes, keep: bool, s: System) {
    && !s.recycled && Answered(keep, s.t, true) && s.t.inactTimer > 1 && GOOD_FIN in s.toTx
    && s.r.Some? && s.dst == Some(src)
  }

  lemma FinAckTaken(cfg: Config, src: Bytes, keep: bool, s: System, io: T.TxIo, rio: R.RxIo, stat: int)
    requires cfg.Valid() && cfg.inactTicks > 0 && io.canSend
    requires !s.recycled && Answered(keep, s.t, false) && s.t.inactTimer > 2 && Finished(src, s)
    ensures var u := Step(cfg, s, TxTick(io));
            var e := RxRecv(Ack(DIR_FIN), true, rio, stat, true);
            var v := Step(cfg, u, e);
            && Possible(s, TxTick(io)) && Possible(u, e) && Parting(src, keep, v)
            && var x := R.Tick(cfg, v.r.value, rio).r;
               x.sub.Complete? && !R.Recycles(x) && x.file.store.dst == Some(src)
  {
    hide T.Tick;
    hide R.Recv;
    hide R.Tick;
    hide Answered;
    hide Reported;
    FinAcked(cfg, keep, s.t, io);
    assert Ack(DIR_FIN) in T.Tick(cfg, s.t, io).sent;
    ReceiverEnds(cfg, src, s.r.value, rio, rio);
  }

  lemma PartingEnds(cfg: Config, src: Bytes, keep: bool, s: System, io: T.TxIo, rio: R.RxIo)
    requires cfg.Valid() && GoodTx(src, io) && Parting(src, keep, s)
    requires var x := R.Tick(cfg, s.r.value, rio).r;
             x.sub.Complete? && !R.Recycles(x) && x.file.store.dst == Some(src)
    ensures var u := Step(cfg, s, TxTick(io));
            var v := Step(cfg, u, TxTick(io));
            Delivered(cfg, src, keep, Step(cfg, v, RxTick(rio)))
  {
    var x := T.Tick(cfg, s.t, io);
    var u := Step(cfg, s, TxTick(io));
    ToFilestore(cfg, keep, s.t, io);
    TxSteps(cfg, s, io);
    SenderEnds(cfg, keep, x.t, io);
    TxSteps(cfg, u, io);
    DisposingFin(keep, x.t);
    hide T.Tick;
    hide R.Tick;
    hide Answered;
    hide Disposing;
    var v := Step(cfg, u, TxTick(io));
    assert v.r == s.r && v.toTx == s.toTx && v.t == T.Tick(cfg, x.t, io).t && !v.recycled;
    LastTick(cfg, v, rio);
    hide Step;
  }

  lemma LastTick(cfg: Config, s: System, io: R.RxIo)
    requires cfg.Valid() && s.r.Some? && !R.Recycles(R.Tick(cfg, s.r.value, io).r)
    ensures var x, u := R.Tick(cfg, s.r.value, io).r, Step(cfg, s, RxTick(io));
            u.r == Some(x) && u.dst == x.file.store.dst && u.t == s.t && u.recycled == s.recycled && s.toTx <= u.toTx
  {
    hide R.Tick;
  }

  lemma DisposingFin(keep: bool, t: T.Tx)
    requires Disposing(keep, t)
    ensures t.fin == T.Report(NO_ERROR, COMPLETE, RETAINED)
  {}

  lemma FarewellRuns(cfg: Config, src: Bytes, keep: bool, s: System, io: T.TxIo, rio: R.RxIo, stat: int)
    requires cfg.Valid() && cfg.ackLimit > 0 && cfg.inactTicks >= 3 && GoodTx(src, io)
    requires !s.recycled && s.t.reliable && Awaiting(src, keep, s.t) && Finished(src, s)
    ensures var v := Run(cfg, s, Farewell(io, rio, stat)); v.Some? && Delivered(cfg, src, keep, v.value)
  {
    hide Step;
    hide Run;
    hide Possible;
    hide Answered;
    hide Awaiting;
    hide Finished;
    hide Delivered;
    hide R.Tick;
    var s1 := Step(cfg, s, TxRecv(GOOD_FIN, true));
    var s2 := Step(cfg, s1, TxRecv(Ack(DIR_EOF), true));
    var s3 := Step(cfg, s2, TxTick(io));
    var s4 := Step(cfg, s3, RxRecv(Ack(DIR_FIN), true, rio, stat, true));
    AnswersTaken(cfg, src, keep, s);
    FinAckTaken(cfg, src, keep, s2, io, rio, stat);
    PartingEnds(cfg, src, keep, s4, io, rio);
    var s5 := Step(cfg, s4, TxTick(io));
    var s6 := Step(cfg, s5, TxTick(io));
    var last := [RxTick(rio)];
    var e5 := [TxTick(io)] + last;
    var e4 := [TxTick(io)] + e5;
    var e3 := [RxRecv(Ack(DIR_FIN), true, rio, stat, true)] + e4;
    var e2 := [TxTick(io)] + e3;
    Always(s4, io, rio);
    Always(s5, io, rio);
    Always(s6, io, rio);
    RunOne(cfg, s6, RxTick(rio));
    Ahead(cfg, s5, TxTick(io), last);
    Ahead(cfg, s4, TxTick(io), e5);
    Ahead(cfg, s3, RxRecv(Ack(DIR_FIN), true, rio, stat, true), e4);
    Ahead(cfg, s2, TxTick(io), e3);
    Ahead(cfg, s1, TxRecv(Ack(DIR_EOF), true), e2);
    Ahead(cfg, s, TxRecv(GOOD_FIN, true), [TxRecv(Ack(DIR_EOF), true)] + e2);
  }

  lemma Always(s: System, io: T.TxIo, rio: R.RxIo)
    ensures Possible(s, TxTick(io)) && Possible(s, RxTick(rio))
  {}

  /** The whole schedule: rios are the ticks of the receiver up to its FIN. */
  function Transfer(cfg: Config, src: Bytes, t: T.Tx, tios: seq<T.TxIo>, io: T.TxIo,
                    rios: seq<R.RxIo>, rio: R.RxIo, stat: int): seq<Event>
  {
    (Opening(src, t.com.closeReq, io, rio, stat) + PassEvents(cfg, T.Tick(cfg, t, io).t, tios, rio, stat))
    + (Announcement(src, io, rio, stat) + (RxTicks(rios) + Farewell(io, rio, stat)))
  }

  lemma Ending(cfg: Config, src: Bytes, keep: bool, s: System, io: T.TxIo,
               rios: seq<R.RxIo>, rio: R.RxIo, stat: int) returns (k: nat)
    requires cfg.Valid() && cfg.crcBytesPerWakeup > 0 && cfg.ackLimit > 0 && cfg.inactTicks >= |src| + 9
    requires Expecting(cfg, src, keep, s) && GoodTx(src, io)
    requires |rios| >= |src| + 9 && forall o :: o in rios ==> GoodRx(src, o)
    ensures k <= |rios|
    ensures var v := Run(cfg, s, RxTicks(rios[..k]) + Farewell(io, rio, stat));
            v.Some? && Delivered(cfg, src, keep, v.value)
  {
    assert D.Due(s.r.value) == |src| + 6;
    hide Run;
    hide Step;
    hide Complete;
    hide Awaiting;
    hide Finished;
    hide Delivered;
    hide GoodTx;
    hide GoodRx;
    hide D.Due;
    k := TicksToEnd(cfg, src, s, rios);
    var u := Run(cfg, s, RxTicks(rios[..k])).value;
    FarewellRuns(cfg, src, keep, u, io, rio, stat);
    RunConcat(cfg, s, RxTicks(rios[..k]), Farewell(io, rio, stat));
  }

  /** Whatever the file and the way its bytes come out of the file system: if nothing is lost, the
      receiver reports within file size plus nine ticks, and the transfer ends with the source in
      place, the sender told, its source disposed of, and both transactions complete. */
  lemma LossFree(cfg: Config, src: Bytes, keep: bool, cmdTx: bool, closeReq: bool, stat: int,
                 tios: seq<T.TxIo>, io: T.TxIo, rios: seq<R.RxIo>, rio: R.RxIo) returns (k: nat)
    requires cfg.Valid() && cfg.crcBytesPerWakeup > 0 && cfg.fileChunkSize > 0 && cfg.ackLimit > 0
    requires cfg.inactTicks >= |src| + 9 && !IsError(stat)
    requires |tios| >= |src| && (forall o :: o in tios ==> GoodTx(src, o)) && GoodTx(src, io)
    requires |rios| >= |src| + 9 && (forall o :: o in rios ==> GoodRx(src, o)) && GoodRx(src, rio)
    ensures k <= |rios|
    ensures var s := Init(cfg, src, keep, cmdTx, closeReq);
            var v := Run(cfg, s, Transfer(cfg, src, s.t, tios, io, rios[..k], rio, stat));
            v.Some? && Delivered(cfg, src, keep, v.value)
  {
    var s := Init(cfg, src, keep, cmdTx, closeReq);
    assert io.canSend && s.t.com.closeReq == closeReq;
    hide GoodTx;
    hide GoodRx;
    hide Init;
    hide Run;
    hide Step;
    hide T.Tick;
    hide Level;
    hide Expecting;
    hide Delivered;
    hide PassEvents;
    hide Opening;
    hide Announcement;
    hide RxTicks;
    hide Farewell;
    var es1 := Opening(src, closeReq, io, rio, stat);
    OpeningRuns(cfg, src, keep, cmdTx, closeReq, io, rio, stat);
    var s1 := Run(cfg, s, es1).value;
    var es2 := PassEvents(cfg, s1.t, tios, rio, stat);
    PassRuns(cfg, src, keep, s1, 0, tios, rio, stat);
    var s2 := Run(cfg, s1, es2).value;
    AnnouncementRuns(cfg, src, keep, s2, io, rio, stat);
    var es3 := Announcement(src, io, rio, stat);
    var s3 := Run(cfg, s2, es3).value;
    k := Ending(cfg, src, keep, s3, io, rios, rio, stat);
    var es4 := RxTicks(rios[..k]) + Farewell(io, rio, stat);
    RunConcat(cfg, s, es1, es2);
    RunConcat(cfg, s2, es3, es4);
    RunConcat(cfg, s, es1 + es2, es3 + es4);
  }

  // ------------------------------------------------------------------ after losses

  /** A receiver of a transfer of src that was told its checksum, waits in DATA_EOF for what is
      missing, and has n ticks left. */
  ghost predicate Waiting(cfg: Config, src: Bytes, r: R.Rx, n: nat) {
    && RP.Lacking(cfg, src, r) && r.sub.DataEof? && !r.com.inactFired && RV.Checking(r)
    && r.reports.eofSize == |src| && r.reports.eofCrc == CfCrc.Checksum(src)
    && r.inactTimer >= n && cfg.inactTicks >= n
  }

  lemma WaitsReady(cfg: Config, src: Bytes, r: R.Rx, n: nat)
    requires Waiting(cfg, src, r, n)
    ensures RP.Lacking(cfg, src, r) && r.sub.DataEof? && !r.com.inactFired && RV.Checking(r)
    ensures r.reports.eofSize == |src| && r.reports.eofCrc == CfCrc.Checksum(src)
    ensures r.inactTimer >= n && cfg.inactTicks >= n && r.file.size == |src| && r.file.open && cfg.Valid()
  {
    hide CfCrc.Checksum;
    hide RV.Checking;
  }

  lemma RepairedHasArrived(src: Bytes, r: R.Rx, u: R.Rx)
    requires RV.Checking(r) && r.sub.DataEof? && !r.com.inactFired && r.file.size == |src|
    requires r.reports.eofSize == |src| && r.file.open && |src| <= |u.file.store.temp|
    requires RP.Receptive(u) && RP.SameFlags(r, u)
    requires R.CheckComplete(u.(flags := u.flags.(sendNak := false)))
    ensures D.Arrived(u) && D.Due(u) <= |src| + 5
  {
    hide ComputeGaps;
    hide CfCrc.Checksum;
  }

  /** The source is in place and reported so. */
  predicate InPlace(src: Bytes, r: R.Rx) {
    r.file.store.dst == Some(src) && r.reports.finDc == COMPLETE && r.reports.finFs == RETAINED
  }

  /** What the repaired receiver makes of it. */
  lemma RepairedDecides(cfg: Config, src: Bytes, r: R.Rx, u: R.Rx, log: seq<H.Write>, ts: seq<H.Event>)
    requires cfg.crcBytesPerWakeup > 0 && Waiting(cfg, src, r, |src| + 5) && |src| <= |u.file.store.temp|
    requires RP.Receptive(u) && RP.SameFlags(r, u) && u.inactTimer in {r.inactTimer, cfg.inactTicks}
    requires R.CheckComplete(u.(flags := u.flags.(sendNak := false)))
    requires D.GoodTicks(ts, |src|) && |ts| >= |src| + 5
    ensures cfg.Valid()
    ensures var v := H.Run(cfg, H.Play(u, log), ts).r;
            && u.file.size <= |u.file.store.temp| && D.Decided(u, v)
            && (u.file.store.temp == src ==> InPlace(src, v))
  {
    hide Waiting;
    hide RP.Lacking;
    hide RP.Receptive;
    hide R.CheckComplete;
    hide RV.Checking;
    hide D.Due;
    hide D.Arrived;
    hide H.Run;
    hide D.GoodTicks;
    WaitsReady(cfg, src, r, |src| + 5);
    RepairedHasArrived(src, r, u);
    D.Delivers(cfg, H.Play(u, log), ts);
    assert src[..|src|] == src;
  }

  /** Whatever of the file data was lost, if its gaps fit into one NAK: when the sender can answer
      that NAK at all, its answer, delivered in order, and file size plus five further ticks bring the
      decision about what was put together; it is the source, and retained, when the pieces were true,
      as they are when no read comes up short. */
  lemma OneRoundDelivers(cfg: Config, tcfg: Config, src: Bytes, r: R.Rx, t: T.Tx, ios: seq<T.TxIo>, rio: R.RxIo,
                         log: seq<H.Write>, ts: seq<H.Event>)
    requires cfg.crcBytesPerWakeup > 0 && Waiting(cfg, src, r, |src| + 5) && RP.Idle(tcfg, src, t)
    requires |AllGaps(r.file.chunks, |src|, 0)| <= tcfg.maxChunks
    requires RP.Roomy(ios) && TR.Goods(src, ios) > |src| && rio.seekOk && rio.writable >= |src|
    requires D.GoodTicks(ts, |src|) && |ts| >= |src| + 5
    ensures |R.NakPdus(cfg, r)| == 1
    ensures var t1 := T.Recv(tcfg, t, true, R.NakPdus(cfg, r)[0]);
            var pieces := TR.Drain(tcfg, t1, ios).sent;
            var u := RP.ReceiveAll(cfg, r, pieces, rio);
            var v := H.Run(cfg, H.Play(u, log), ts).r;
            && (RP.CanAnswer(tcfg, t1, ios) ==> u.file.size <= |u.file.store.temp| && D.Decided(u, v))
            && (RP.CanAnswer(tcfg, t1, ios) && TS.SentTrue(src, pieces) ==> InPlace(src, v))
            && (TR.AtPlace(t.file) && TR.NoneShort(tcfg, t1, ios) ==> InPlace(src, v))
  {
    hide Waiting;
    hide AllGaps;
    hide TR.Drain;
    hide TR.NoneShort;
    hide TR.Goods;
    hide TR.AtPlace;
    hide RP.ReceiveAll;
    hide RP.Lacking;
    hide RP.Idle;
    hide RP.CanAnswer;
    hide RP.Roomy;
    hide RP.Receptive;
    hide RP.SameFlags;
    hide R.NakPdus;
    hide R.CheckComplete;
    hide RV.Checking;
    hide T.Recv;
    hide TS.SentTrue;
    hide D.Decided;
    hide D.GoodTicks;
    hide H.Run;
    hide InPlace;
    WaitsReady(cfg, src, r, |src| + 5);
    RP.OneRoundRepairs(cfg, tcfg, src, r, t, ios, rio);
    var t1 := T.Recv(tcfg, t, true, R.NakPdus(cfg, r)[0]);
    if RP.CanAnswer(tcfg, t1, ios) {
      var u := RP.ReceiveAll(cfg, r, TR.Drain(tcfg, t1, ios).sent, rio);
      RepairedDecides(cfg, src, r, u, log, ts);
    }
  }
}
