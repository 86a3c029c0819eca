/** The EOF until it is acknowledged: the sender of a class 2 transaction repeats it once a timer period,
    up to the limit, the receiver acknowledges every one it gets, and the acknowledgement ends it. */
module EofRepeat {
  import opened Bytes
  import opened Cfdp
  import opened ChunkGrowth
  import opened ChunkSpec
  import opened EndToEnd
  import opened FirstPass
  import opened GapSpec
  import opened Wrappers
  import CfCrc
  import R = RxSpec
  import RP = Repair
  import RS = RxSafety
  import RV = RxValidate
  import T = TxSpec
  import TS = TxSafety

  // ------------------------------------------------------------------ the sender

  /** Its EOF is out, not acknowledged, and the timer is running; nothing else is to be done. */
  predicate Unanswered(t: T.Tx) {
    && !t.hold && t.reliable && t.Ok() && t.sub.DataEof? && !t.com.inactFired && t.com.ackArmed
    && !t.flags.eofAckRecv && t.flags.finCount == t.flags.finAckCount == 0 && !t.flags.sendEof && !t.flags.sendMd
  }

  /** The EOF of the transaction. */
  function EofPdu(t: T.Tx): Pdu { Eof(NO_ERROR, t.file.crc.result, t.fsize) }

  lemma SilentTick(cfg: Config, t: T.Tx, io: T.TxIo)
    requires Unanswered(t) && t.ackTimer > 0 && t.inactTimer > 0
    ensures T.Tick(cfg, t, io) == T.Sending(t.(ackTimer := t.ackTimer - 1, inactTimer := t.inactTimer - 1), [])
  {}

  /** The state of the sender after n ticks that ended a period of the timer. */
  function Again(cfg: Config, t: T.Tx, n: nat): T.Tx
    requires n <= t.inactTimer
  {
    t.(ackTimer := cfg.ackTicks, inactTimer := t.inactTimer - n, acknak := t.acknak + 1)
  }

  lemma RepeatTick(cfg: Config, t: T.Tx, io: T.TxIo)
    requires Unanswered(t) && t.ackTimer == 0 && t.inactTimer > 0 && io.canSend && UnderLimit(cfg, t.acknak)
    ensures T.Tick(cfg, t, io) == T.Sending(Again(cfg, t, 1), [EofPdu(t)])
  {}

  /** At the limit the transaction fails instead. */
  lemma GivesUp(cfg: Config, t: T.Tx, io: T.TxIo)
    requires Unanswered(t) && t.ackTimer == 0 && t.inactTimer > 0 && t.acknak >= cfg.ackLimit
    ensures var x := T.Tick(cfg, t, io); x.sent == [] && x.t.sub.Filestore? && x.t.stat == NAK_LIMIT_REACHED
  {}

  /** No tick of them is the last of the transaction. */
  predicate StaysUp(cfg: Config, t: T.Tx, ios: seq<T.TxIo>)
    decreases |ios|
  {
    ios == [] || (!T.Recycles(T.Tick(cfg, t, ios[0]).t) && StaysUp(cfg, T.Tick(cfg, t, ios[0]).t, ios[1..]))
  }

  /** A period of the timer sends the EOF once, at its end, counts it and starts the next period. */
  lemma {:induction false} RepeatsEof(cfg: Config, t: T.Tx, ios: seq<T.TxIo>)
    requires Unanswered(t) && t.inactTimer > t.ackTimer && UnderLimit(cfg, t.acknak)
    requires |ios| == t.ackTimer + 1 && ios[t.ackTimer].canSend
    ensures TxTicks(cfg, t, ios) == T.Sending(Again(cfg, t, |ios|), [EofPdu(t)]) && StaysUp(cfg, t, ios)
    decreases |ios|
  {
    if t.ackTimer == 0 {
      RepeatTick(cfg, t, ios[0]);
      hide T.Tick;
      assert ios[1..] == [];
    } else {
      SilentTick(cfg, t, ios[0]);
      hide T.Tick;
      RepeatsEof(cfg, t.(ackTimer := t.ackTimer - 1, inactTimer := t.inactTimer - 1), ios[1..]);
    }
  }

  /** The acknowledgement is put on record and changes nothing else. */
  lemma AckTaken(cfg: Config, t: T.Tx)
    requires t.reliable && !t.hold && !t.sub.DataNormal?
    ensures T.Recv(cfg, t, true, Ack(DIR_EOF)) ==
            t.(flags := t.flags.(eofAckRecv := true), inactTimer := cfg.inactTicks)
  {}

  /** An acknowledgement of anything else, or one that comes before the EOF is out, is not. */
  lemma OtherAcks(cfg: Config, t: T.Tx, class2: bool, directive: nat)
    requires directive != DIR_EOF || t.sub.DataNormal? || t.hold || class2 != t.reliable || !t.reliable
    ensures T.Recv(cfg, t, class2, Ack(directive)) == T.ArmInact(cfg, t)
  {}

  // ------------------------------------------------------------------ the receiver

  /** Whatever state a class 2 receiver is in, held or not: an EOF is acknowledged by its next tick that
      can send, as long as the limit on EOFs is not reached. */
  lemma EofIsAcked(cfg: Config, r: R.Rx, cc: nat, crc: nat, size: nat, rio: R.RxIo, io: R.RxIo)
    requires cfg.Valid() && r.reliable && r.flags.eofAckCount <= r.flags.eofCount && UnderLimit(cfg, r.flags.eofCount)
    requires io.canSend
    ensures var x := R.Tick(cfg, R.Recv(cfg, r, true, Eof(cc, crc, size), rio), io);
            x.sent == [Ack(DIR_EOF)] && x.r.flags.eofAckCount == x.r.flags.eofCount == r.flags.eofCount + 1
  {
    EofCounted(cfg, r, cc, crc, size, rio);
    var u := R.Recv(cfg, r, true, Eof(cc, crc, size), rio);
    hide R.Recv;
    AdvanceAcks(cfg, u, io);
    hide R.Advance;
    hide R.NakPdus;
    hide R.FinPdu;
  }

  lemma EofCounted(cfg: Config, r: R.Rx, cc: nat, crc: nat, size: nat, io: R.RxIo)
    requires r.reliable && UnderLimit(cfg, r.flags.eofCount)
    ensures var u := R.Recv(cfg, r, true, Eof(cc, crc, size), io);
            u.reliable && u.flags.eofCount == r.flags.eofCount + 1 && u.flags.eofAckCount == r.flags.eofAckCount
  {}

  lemma AdvanceAcks(cfg: Config, r: R.Rx, io: R.RxIo)
    ensures SameEofs(r, R.Advance(cfg, r, io)) && R.Advance(cfg, r, io).reliable == r.reliable
  {
    var s := R.AckTimerTick(R.InactTimerTick(r));
    CheckStateAcks(cfg, s, io);
    CheckStateReliable(cfg, s, io);
    hide R.CheckState;
  }

  lemma CheckStateReliable(cfg: Config, r: R.Rx, io: R.RxIo)
    ensures R.CheckState(cfg, r, io).reliable == r.reliable
  {
    var c := R.NextState(cfg, r, io);
    NextStateReliable(cfg, r, io);
    EnterReliable(cfg, c.r, c.next, io);
    hide R.NextState;
    hide R.Enter;
  }

  lemma NextStateReliable(cfg: Config, r: R.Rx, io: R.RxIo)
    ensures R.NextState(cfg, r, io).r.reliable == r.reliable
  {
    hide R.CrcLoop;
    hide R.CheckComplete;
    hide CfCrc.Finalize;
  }

  lemma EnterReliable(cfg: Config, r: R.Rx, next: R.SubState, io: R.RxIo)
    ensures R.Enter(cfg, r, next, io).reliable == r.reliable
  {}

  // ------------------------------------------------------------------ a receiver of src

  /** It has got none, some or all of the metadata and the data of src, and no EOF. */
  ghost predicate Gathering(cfg: Config, src: Bytes, r: R.Rx) {
    && RS.Inv(cfg, src, r) && RP.Receptive(r) && RV.Checking(r) && Orderly(r.file.chunks, cfg.maxChunks, |src|)
    && r.sub.DataNormal? && !r.com.inactFired && !r.com.ackArmed
    && r.flags.eofCount == r.flags.eofAckCount == 0 && !r.flags.sendNak && !r.flags.sendFin && !r.flags.finackRecv
  }

  /** It has the EOF, has acknowledged all it got, and has not asked for anything yet. */
  ghost predicate Noted(cfg: Config, src: Bytes, r: R.Rx) {
    && RS.Inv(cfg, src, r) && RP.Receptive(r) && RV.Checking(r) && Orderly(r.file.chunks, cfg.maxChunks, |src|)
    && r.sub.DataEof? && !r.com.inactFired && !r.com.ackArmed
    && r.flags.eofCount == r.flags.eofAckCount != 0 && r.flags.sendNak && !r.flags.sendFin && !r.flags.finackRecv
    && r.acknak == 0
    && r.reports.eofSize == |src| && r.reports.eofCrc == CfCrc.Checksum(src)
  }

  lemma SetupGathers(cfg: Config, src: Bytes, stat: int)
    requires cfg.Valid() && !IsError(stat)
    ensures Gathering(cfg, src, R.Setup(cfg, true, stat, true, None))
  {
    RS.SetupHolds(cfg, src, true, stat, true, None);
  }

  /** What neither pieces nor metadata touch. */
  predicate SameStage(r: R.Rx, u: R.Rx) {
    && u.sub == r.sub && u.com.inactFired == r.com.inactFired && u.com.ackArmed == r.com.ackArmed
    && u.com.isComplete == r.com.isComplete && u.reports == r.reports
    && u.flags == r.flags.(mdRecv := u.flags.mdRecv) && u.file.store.dst == r.file.store.dst
  }

  lemma GathersOn(cfg: Config, src: Bytes, r: R.Rx, u: R.Rx)
    requires Gathering(cfg, src, r) && SameStage(r, u) && RS.Inv(cfg, src, u) && RP.Receptive(u)
    requires Orderly(u.file.chunks, cfg.maxChunks, |src|)
    ensures Gathering(cfg, src, u)
  {
    hide RS.Inv;
    hide Orderly;
  }

  lemma GathersMd(cfg: Config, src: Bytes, r: R.Rx, closeReq: bool, io: R.RxIo)
    requires cfg.Valid() && Gathering(cfg, src, r)
    ensures var u := R.Recv(cfg, r, true, Md(|src|, closeReq), io);
            && Gathering(cfg, src, u) && u.flags.mdRecv && u.inactTimer == cfg.inactTicks
            && u.file.store.dst == r.file.store.dst && u.file.chunks == r.file.chunks
  {
    var u := R.Recv(cfg, r, true, Md(|src|, closeReq), io);
    RS.RecvKeeps(cfg, src, r, true, Md(|src|, closeReq), io);
    assert SameStage(r, u) && RP.Receptive(u) && u.file.chunks == r.file.chunks;
    hide RS.Inv;
    hide RP.Receptive;
    hide RV.Checking;
    GathersOn(cfg, src, r, u);
  }

  lemma GathersPiece(cfg: Config, src: Bytes, r: R.Rx, p: Pdu, io: R.RxIo)
    requires cfg.Valid() && Gathering(cfg, src, r) && RP.IsPiece(src, p) && RS.Honest(src, p)
    requires io.seekOk && io.writable >= |src|
    ensures var u := R.Recv(cfg, r, true, p, io);
            && Gathering(cfg, src, u) && u.flags.mdRecv == r.flags.mdRecv && u.inactTimer == cfg.inactTicks
            && u.file.store.dst == r.file.store.dst
  {
    var u := R.Recv(cfg, r, true, p, io);
    RS.RecvKeeps(cfg, src, r, true, p, io);
    RP.ReceivePiece(cfg, r, p.offset, p.data, io);
    PieceStage(cfg, r, p, io);
    AddOrderly(r.file.chunks, cfg.maxChunks, Chunk(p.offset, |p.data|), |src|);
    hide RS.Inv;
    hide RP.Receptive;
    hide RV.Checking;
    hide R.Recv;
    hide Orderly;
    GathersOn(cfg, src, r, u);
  }

  lemma PieceStage(cfg: Config, r: R.Rx, p: Pdu, io: R.RxIo)
    requires RP.Receptive(r) && !r.com.ackArmed && p.Fd? && io.seekOk && io.writable >= |p.data|
    ensures SameStage(r, R.Recv(cfg, r, true, p, io))
    ensures R.Recv(cfg, r, true, p, io).flags.mdRecv == r.flags.mdRecv
  {
    hide Add;
    hide WriteAt;
    RS.RecvFdEffect(cfg, r, p.offset, p.data, io);
    hide R.RecvFd;
  }

  /** With an EOF: the receiver as before, but for the count. */
  function WithEof(cfg: Config, src: Bytes, r: R.Rx): R.Rx {
    r.(flags := r.flags.(eofCount := r.flags.eofCount + 1), inactTimer := cfg.inactTicks,
       reports := if r.flags.eofCount == 0
                  then r.reports.(eofCc := NO_ERROR, eofCrc := CfCrc.Checksum(src), eofSize := |src|) else r.reports)
  }

  lemma EofRecorded(cfg: Config, src: Bytes, r: R.Rx, io: R.RxIo)
    requires !r.hold && r.reliable && r.Ok() && !r.com.ackArmed && UnderLimit(cfg, r.flags.eofCount)
    ensures var u := R.Recv(cfg, r, true, EofOf(src), io); u.(stat := r.stat) == WithEof(cfg, src, r) && u.Ok()
  {
    hide CfCrc.Checksum;
  }

  /** What the first tick after the EOF leaves. */
  function Entering(r: R.Rx): R.Rx
    requires r.inactTimer > 0
  {
    r.(sub := R.DataEof, acknak := 0, inactTimer := r.inactTimer - 1,
       flags := r.flags.(sendNak := true, eofAckCount := r.flags.eofCount))
  }

  lemma EntersDataEof(cfg: Config, r: R.Rx, io: R.RxIo)
    requires cfg.Valid() && io.canSend && !r.hold && r.reliable && r.Ok() && !r.com.inactFired && !r.com.ackArmed
    requires r.inactTimer > 0 && r.flags.eofCount != r.flags.eofAckCount && r.flags.eofCount != 0
    requires r.sub.DataNormal? || (r.sub.DataEof? && r.flags.sendNak && r.acknak == 0)
    ensures R.Tick(cfg, r, io) == R.Sending(Entering(r), [Ack(DIR_EOF)])
  {
    hide R.NakPdus;
    hide ComputeGaps;
    hide R.FinPdu;
  }

  lemma NotedThen(cfg: Config, src: Bytes, r: R.Rx, u: R.Rx)
    requires (Gathering(cfg, src, r) || Noted(cfg, src, r)) && cfg.inactTicks > 0
    requires RS.Inv(cfg, src, u) && u.Ok() && u.(stat := r.stat) == Entering(WithEof(cfg, src, r))
    ensures Noted(cfg, src, u)
  {
    hide RS.Inv;
    hide Orderly;
    hide CfCrc.Checksum;
  }

  /** The first EOF, or another one before anything was asked for, is taken and acknowledged. */
  lemma EofTaken(cfg: Config, src: Bytes, r: R.Rx, rio: R.RxIo, io: R.RxIo)
    requires cfg.Valid() && cfg.inactTicks > 0 && UnderLimit(cfg, r.flags.eofCount) && io.canSend
    requires Gathering(cfg, src, r) || Noted(cfg, src, r)
    ensures var x := R.Tick(cfg, R.Recv(cfg, r, true, EofOf(src), rio), io);
            && x.sent == [Ack(DIR_EOF)] && Noted(cfg, src, x.r) && x.r.inactTimer == cfg.inactTicks - 1
            && x.r.flags.eofCount == r.flags.eofCount + 1 && x.r.flags.mdRecv == r.flags.mdRecv
            && x.r.file == r.file
  {
    assert !r.hold && r.reliable && r.Ok() && !r.com.ackArmed && !r.com.inactFired;
    assert r.sub.DataNormal? || (r.sub.DataEof? && r.flags.sendNak && r.acknak == 0);
    assert r.flags.eofCount == r.flags.eofAckCount;
    assert RS.Inv(cfg, src, r);
    RS.RecvKeeps(cfg, src, r, true, EofOf(src), rio);
    EofRecorded(cfg, src, r, rio);
    var u := R.Recv(cfg, r, true, EofOf(src), rio);
    RS.TickKeeps(cfg, src, u, io);
    hide R.Recv;
    hide RS.Inv;
    hide Gathering;
    hide Noted;
    EntersDataEof(cfg, u, io);
    hide R.Tick;
    NotedThen(cfg, src, r, R.Tick(cfg, u, io).r);
  }
}
