/** A transfer that has seen no good EOF: as long as the sender has not finished its first pass, and
    for ever once it has failed in it, no receiver keeps a file. */
module Unfinished {
  import opened Bytes
  import opened Cfdp
  import opened GapSpec
  import opened Wrappers
  import R = RxSpec
  import RS = RxSafety
  import T = TxSpec
  import TS = TxSafety

  predicate GoodEof(p: Pdu) { p.Eof? && p.cc == NO_ERROR }

  predicate SaysRetained(p: Pdu) { p.Fin? && p.fs == RETAINED }

  // ------------------------------------------------------------------ the sender

  /** No request is open and the file stands where the first pass believes it to be. */
  predicate Unasked(t: T.Tx) {
    t.chunks == [] && !t.flags.fdNakPending && t.file.pos == t.file.cachedPos
  }

  /** In error, with the source still there: it will neither be given up nor announced as good. */
  predicate Failed(t: T.Tx) { !t.Ok() && !TS.GivenUp(t.file) }

  /** An EOF with an error is sent by a transaction in error; none is sent during the first pass. */
  lemma TickUnasked(cfg: Config, t: T.Tx, io: T.TxIo)
    requires Unasked(t) && (t.sub.DataNormal? ==> !t.flags.sendEof)
    ensures var x := T.Tick(cfg, t, io);
            && Unasked(x.t)
            && forall p :: p in x.sent && p.Eof? ==> !x.t.sub.DataNormal? && (p.cc == NO_ERROR || !x.t.Ok())
  {
    hide T.RetentionFate;
    hide T.CheckState;
    hide T.InactTimerTick;
    hide T.AckTimerTick;
    hide Unasked;
    var s := T.InactTimerTick(t);
    TimersUnasked(t);
    TimersUnasked(s);
    CheckStateUnasked(cfg, T.AckTimerTick(s), io);
    MaintenanceUnasked(cfg, if t.hold then s else T.CheckState(cfg, T.AckTimerTick(s), io), io);
    hide T.Maintenance;
  }

  lemma TimersUnasked(t: T.Tx)
    requires Unasked(t)
    ensures Unasked(T.InactTimerTick(t)) && Unasked(T.AckTimerTick(t))
    ensures T.InactTimerTick(t).sub == t.sub && T.AckTimerTick(t).sub == t.sub
    ensures T.InactTimerTick(t).flags == t.flags && T.AckTimerTick(t).flags == t.flags
  {}

  lemma CheckStateUnasked(cfg: Config, t: T.Tx, io: T.TxIo)
    requires Unasked(t) && (t.sub.DataNormal? ==> !t.flags.sendEof)
    ensures var u := T.CheckState(cfg, t, io); Unasked(u) && (u.sub.DataNormal? ==> !u.flags.sendEof)
  {}

  lemma MaintenanceUnasked(cfg: Config, t: T.Tx, io: T.TxIo)
    requires Unasked(t) && (t.sub.DataNormal? ==> !t.flags.sendEof)
    ensures var x := T.Maintenance(cfg, t, io);
            && Unasked(x.t)
            && forall p :: p in x.sent && p.Eof? ==> !x.t.sub.DataNormal? && (p.cc == NO_ERROR || !x.t.Ok())
  {}

  lemma FinUnasked(cfg: Config, t: T.Tx, cc: nat, dc: nat, fs: nat)
    requires Unasked(t)
    ensures Unasked(T.RecvFin(cfg, t, cc, dc, fs)) && T.RecvFin(cfg, t, cc, dc, fs).sub == t.sub
  {}

  lemma RecvUnasked(cfg: Config, t: T.Tx, class2: bool, p: Pdu)
    requires Unasked(t) && !p.Nak?
    ensures Unasked(T.Recv(cfg, t, class2, p)) && T.Recv(cfg, t, class2, p).sub == t.sub
  {
    hide T.RecvFin;
    if p.Fin? {
      FinUnasked(cfg, t, p.cc, p.dc, p.fs);
      FinUnasked(cfg, t.SetStat(EARLY_FIN), p.cc, p.dc, p.fs);
    }
  }

  lemma {:induction false} NakFailed(cfg: Config, t: T.Tx, segs: seq<Segment>)
    requires Failed(t)
    ensures Failed(T.RecvNak(cfg, t, segs))
    decreases |segs|
  {
    if segs != [] {
      NakFailed(cfg, T.RecvSegment(cfg, t, segs[0]), segs[1..]);
    }
  }

  lemma RecvFailed(cfg: Config, t: T.Tx, class2: bool, p: Pdu)
    requires Failed(t)
    ensures Failed(T.Recv(cfg, t, class2, p))
  {
    hide T.RecvNak;
    if p.Nak? {
      NakFailed(cfg, t, p.segments);
    }
  }

  lemma NakSendFailed(cfg: Config, t: T.Tx, io: T.TxIo)
    requires Failed(t)
    ensures var x := T.TickNak(cfg, t, io); Failed(x.t) && forall p :: p in x.sent ==> p.Fd?
  {
    hide T.SendFileData;
    if t.chunks != [] {
      TS.SendKeepsSource(cfg, t.file, t.chunks[0].offset, t.chunks[0].size, false, io);
    }
  }

  lemma NewDataFailed(cfg: Config, t: T.Tx, io: T.TxIo)
    requires Failed(t)
    ensures var x := T.TickNewData(cfg, t, io); Failed(x.t) && forall p :: p in x.sent ==> p.Fd?
  {
    hide T.SendFileData;
    if t.file.foffs < t.fsize {
      TS.SendKeepsSource(cfg, t.file, t.file.foffs, t.fsize - t.file.foffs, true, io);
    }
  }

  lemma CheckStateFailed(cfg: Config, t: T.Tx, io: T.TxIo)
    requires Failed(t)
    ensures Failed(T.CheckState(cfg, t, io))
  {}

  lemma MaintenanceFailed(cfg: Config, t: T.Tx, io: T.TxIo)
    requires Failed(t)
    ensures var x := T.Maintenance(cfg, t, io); Failed(x.t) && forall p :: p in x.sent ==> !GoodEof(p)
  {}

  lemma TickFailed(cfg: Config, t: T.Tx, io: T.TxIo)
    requires Failed(t)
    ensures var x := T.Tick(cfg, t, io); Failed(x.t) && forall p :: p in x.sent ==> !GoodEof(p)
  {
    var s := T.AckTimerTick(T.InactTimerTick(t));
    assert Failed(s) && Failed(T.InactTimerTick(t));
    hide T.CheckState;
    hide T.Maintenance;
    CheckStateFailed(cfg, s, io);
    MaintenanceFailed(cfg, if t.hold then T.InactTimerTick(t) else T.CheckState(cfg, s, io), io);
  }

  // ------------------------------------------------------------------ the receiver

  /** No good EOF has come and nothing was kept. */
  predicate Barren(r: R.Rx) {
    && (r.flags.eofCount == 0 || !r.Ok()) && !r.com.isComplete
    && r.reports.finFs != RETAINED && r.reports.finFs <= FS_INVALID
  }

  /** No EOF at all has come, so nothing was asked for again. */
  predicate Early(r: R.Rx) {
    Barren(r) && r.flags.eofCount == 0 && !r.flags.sendNak && !r.sub.DataEof? && !r.sub.Validate?
  }

  lemma SetupEarly(cfg: Config, class2: bool, stat: int, openOk: bool, dst: Option<Bytes>)
    ensures Early(R.Setup(cfg, class2, stat, openOk, dst))
  {}

  lemma FdBarren(cfg: Config, r: R.Rx, offset: nat, data: Bytes, io: R.RxIo)
    ensures var u := R.RecvFd(cfg, r, offset, data, io);
            && u.flags == r.flags && u.com == r.com && u.reports == r.reports && u.sub == r.sub
            && (u.Ok() ==> r.Ok()) && u.file.store.dst == r.file.store.dst
  {}

  lemma EofBarren(cfg: Config, r: R.Rx, cc: nat, crc: nat, size: nat)
    requires Barren(r) && cc != NO_ERROR
    ensures Barren(R.RecvEof(cfg, r, cc, crc, size))
  {}

  lemma ControlBarren(cfg: Config, r: R.Rx, p: Pdu, io: R.RxIo)
    requires Barren(r) && !p.Fd? && !p.Eof?
    ensures Barren(R.R2Dispatch(cfg, r, p, io)) && (Early(r) ==> Early(R.R2Dispatch(cfg, r, p, io)))
    ensures Barren(R.R1Recv(cfg, r, p, io)) && (Early(r) ==> Early(R.R1Recv(cfg, r, p, io)))
  {}

  lemma DispatchBarren(cfg: Config, r: R.Rx, p: Pdu, io: R.RxIo)
    requires Barren(r) && !GoodEof(p)
    ensures Barren(R.R2Dispatch(cfg, r, p, io)) && Barren(R.R1Recv(cfg, r, p, io))
    ensures Early(r) && !p.Eof? ==> Early(R.R2Dispatch(cfg, r, p, io)) && Early(R.R1Recv(cfg, r, p, io))
  {
    match p {
      case Fd(offset, data) =>
        FdBarren(cfg, r, offset, data, io);
        hide R.RecvFd;
      case Eof(cc, crc, size) =>
        EofBarren(cfg, r, cc, crc, size);
        hide R.RecvEof;
      case _ => ControlBarren(cfg, r, p, io);
    }
  }

  lemma ArmBarren(cfg: Config, r: R.Rx)
    requires Barren(r)
    ensures Barren(R.ArmAck(cfg, r)) && Barren(R.ArmInact(cfg, r))
    ensures Early(r) ==> Early(R.ArmAck(cfg, r)) && Early(R.ArmInact(cfg, r))
  {}

  lemma RecvBarren(cfg: Config, r: R.Rx, class2: bool, p: Pdu, io: R.RxIo)
    requires Barren(r) && !GoodEof(p)
    ensures Barren(R.Recv(cfg, r, class2, p, io))
    ensures Early(r) && !p.Eof? ==> Early(R.Recv(cfg, r, class2, p, io))
  {
    hide R.R2Dispatch;
    hide R.R1Recv;
    hide R.RecvEof;
    hide R.ArmAck;
    hide R.ArmInact;
    hide Barren;
    hide Early;
    var u := R.R2Dispatch(cfg, r, p, io);
    DispatchBarren(cfg, r, p, io);
    ArmBarren(cfg, u);
    ArmBarren(cfg, R.R2Recv(cfg, r, p, io));
    ArmBarren(cfg, R.R1Recv(cfg, r, p, io));
    ArmBarren(cfg, r);
    if p.Eof? {
      EofBarren(cfg, r, p.cc, p.crc, p.size);
      ArmBarren(cfg, R.RecvEof(cfg, r, p.cc, p.crc, p.size));
    }
  }

  lemma CheckStateBarren(cfg: Config, r: R.Rx, io: R.RxIo)
    requires Barren(r)
    ensures var u := R.CheckState(cfg, r, io);
            Barren(u) && u.file.store.dst == r.file.store.dst && (Early(r) ==> Early(u))
  {
    hide R.CalcCrcChunk;
    hide ComputeGaps;
    if r.sub.Validate? {
      CrcBarren(cfg, r, io);
    }
  }

  lemma CrcBarren(cfg: Config, r: R.Rx, io: R.RxIo)
    ensures var u := R.CalcCrcChunk(cfg, r, io);
            && u.flags == r.flags && u.com.isComplete == r.com.isComplete && u.reports == r.reports && u.sub == r.sub
            && (u.Ok() ==> r.Ok()) && u.file.store.dst == r.file.store.dst
  {
    hide R.CrcLoop;
    RS.CrcLoopEffect(cfg, r.file, 0, io.goodReads);
  }

  lemma MaintenanceBarren(cfg: Config, r: R.Rx, io: R.RxIo)
    requires cfg.Valid() && Barren(r)
    ensures var x := R.Maintenance(cfg, r, io);
            && Barren(x.r) && x.r.file == r.file && (forall p :: p in x.sent ==> !SaysRetained(p))
            && (Early(r) ==> Early(x.r) && forall p :: p in x.sent ==> !p.Nak?)
  {
    hide R.NakPdus;
    RS.NakPdusAreNaks(cfg, r);
  }

  lemma TickBarren(cfg: Config, r: R.Rx, io: R.RxIo)
    requires cfg.Valid() && Barren(r)
    ensures var x := R.Tick(cfg, r, io);
            && Barren(x.r) && x.r.file.store.dst == r.file.store.dst
            && (forall p :: p in x.sent ==> !SaysRetained(p))
            && (Early(r) ==> Early(x.r) && forall p :: p in x.sent ==> !p.Nak?)
  {
    hide R.CheckState;
    hide R.Maintenance;
    hide R.InactTimerTick;
    hide R.AckTimerTick;
    var i := R.InactTimerTick(r);
    var s := R.AckTimerTick(i);
    TimersBarren(r);
    TimersBarren(i);
    CheckStateBarren(cfg, s, io);
    hide Barren;
    hide Early;
    MaintenanceBarren(cfg, R.Advance(cfg, r, io), io);
  }

  lemma TimersBarren(r: R.Rx)
    requires Barren(r)
    ensures Barren(R.InactTimerTick(r)) && Barren(R.AckTimerTick(r))
    ensures R.InactTimerTick(r).file == r.file && R.AckTimerTick(r).file == r.file
    ensures Early(r) ==> Early(R.InactTimerTick(r)) && Early(R.AckTimerTick(r))
  {}

  lemma CancelBarren(r: R.Rx)
    requires Barren(r)
    ensures Barren(R.Cancel(r)) && (Early(r) ==> Early(R.Cancel(r)))
  {}
}
