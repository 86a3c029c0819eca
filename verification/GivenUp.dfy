/** What holds of every run of the two parties, misplaced retransmissions included: the source is
    given up only on a recorded report of the receiver, which then has some file in place whose sum,
    as the check read it, was that of the source. */
module GivenUp {
  import opened Bytes
  import opened Cfdp
  import opened ChunkSpec
  import opened GapSpec
  import opened Protocol
  import opened Wrappers
  import CfCrc
  import R = RxSpec
  import RS = RxSafety
  import T = TxSpec
  import TR = TxRetransmit
  import TS = TxSafety
  import U = Unfinished

  // ------------------------------------------------------------------ the sender's side

  /** A good EOF tells the truth about the source. */
  predicate TrueEof(src: Bytes, p: Pdu) {
    U.GoodEof(p) ==> p.crc == CfCrc.Checksum(src) && p.size == |src|
  }

  predicate TrueEofs(src: Bytes, ps: set<Pdu>) { forall p :: p in ps ==> TrueEof(src, p) }

  /** After the announcement, whatever pieces are sent. */
  ghost predicate Late(cfg: Config, src: Bytes, keep: bool, s: System) {
    && s.t.reliable && s.t.keep == keep && !s.t.sub.DataNormal? && Announced(s)
    && TS.Inv(cfg, src, s.toTx, s.t) && TrueEofs(src, s.toRx)
  }

  /** The sender's side of every run. */
  ghost predicate Sending(cfg: Config, src: Bytes, keep: bool, s: System) {
    Inv(cfg, src, keep, s) || Late(cfg, src, keep, s)
  }

  lemma SoundIsLate(cfg: Config, src: Bytes, keep: bool, s: System)
    requires Sound(cfg, src, keep, s) && Announced(s)
    ensures Late(cfg, src, keep, s)
  {
    hide TS.Inv;
    hide RS.Inv;
    hide U.Early;
    hide U.Unasked;
    var p :| p in s.toRx && U.GoodEof(p);
    assert !Starting(s);
    HonestEofs(src, s.toRx);
  }

  lemma HonestEofs(src: Bytes, ps: set<Pdu>)
    requires AllHonest(src, ps)
    ensures TrueEofs(src, ps)
  {
    hide CfCrc.Checksum;
    assert forall p :: p in ps ==> RS.Honest(src, p);
  }

  /** Whichever the case, the EOFs on the channel are true and the fate of the source is accounted for. */
  lemma SendingIsTrue(cfg: Config, src: Bytes, keep: bool, s: System)
    requires Sending(cfg, src, keep, s)
    ensures TrueEofs(src, s.toRx) && s.t.reliable && s.t.keep == keep
    ensures SourceGivenUp(s) ==> !keep && HasFin(s, s.t.fin.cc, COMPLETE, RETAINED)
  {
    hide RS.Inv;
    hide Starting;
    if Sound(cfg, src, keep, s) {
      HonestEofs(src, s.toRx);
    }
    hide RS.Honest;
  }

  lemma LateSends(cfg: Config, src: Bytes, keep: bool, s: System, x: T.Sending)
    requires Late(cfg, src, keep, s) && TS.SameTerms(s.t, x.t) && !x.t.sub.DataNormal?
    requires TS.Inv(cfg, src, s.toTx, x.t) && forall p :: p in x.sent ==> TrueEof(src, p)
    ensures Late(cfg, src, keep, SendFrom(s, x))
  {
    hide TS.Inv;
    hide TrueEof;
    var p :| p in s.toRx && U.GoodEof(p);
    assert p in SendFrom(s, x).toRx;
  }

  lemma LateTx(cfg: Config, src: Bytes, keep: bool, s: System, e: Event)
    requires cfg.Valid() && Late(cfg, src, keep, s) && (e.TxTick? || e.TxNak? || e.TxData?)
    ensures Late(cfg, src, keep, Step(cfg, s, e))
  {
    hide TS.Inv;
    hide T.Tick;
    hide T.TickNak;
    hide T.TickNewData;
    var io := e.tio;
    if s.recycled {
      return;
    }
    match e {
      case TxTick(_) =>
        TS.TickKeeps(cfg, src, s.toTx, s.t, io);
        TS.TickKeepsTerms(cfg, s.t, io);
        TickSub(cfg, s.t, io);
        TrueIsHonest(src, T.Tick(cfg, s.t, io).sent);
        LateSends(cfg, src, keep, s, T.Tick(cfg, s.t, io));
      case TxNak(_) =>
        NakSends(cfg, src, s.toTx, s.t, io);
        TS.SendKeepsTerms(cfg, s.t, io);
        LateSends(cfg, src, keep, s, T.TickNak(cfg, s.t, io));
      case TxData(_) =>
        NoNewData(cfg, s.t, io);
        LateSends(cfg, src, keep, s, T.TickNewData(cfg, s.t, io));
    }
  }

  lemma TrueIsHonest(src: Bytes, ps: seq<Pdu>)
    requires TS.SentTrue(src, ps)
    ensures forall p :: p in ps ==> TrueEof(src, p)
  {
    hide CfCrc.Checksum;
    assert forall p :: p in ps ==> RS.Honest(src, p);
  }

  /** A retransmission, placed or not, keeps all but the truth of the pieces. */
  lemma NakSends(cfg: Config, src: Bytes, got: set<Pdu>, t: T.Tx, io: T.TxIo)
    requires TS.Inv(cfg, src, got, t)
    ensures var x := T.TickNak(cfg, t, io);
            TS.Inv(cfg, src, got, x.t) && x.t.sub == t.sub && forall p :: p in x.sent ==> TrueEof(src, p)
  {
    TS.TickNakKeeps(cfg, src, got, t, io);
    TS.TickNakEffect(cfg, src, t, io);
    hide T.TickNak;
    hide TS.Inv;
  }

  lemma NoNewData(cfg: Config, t: T.Tx, io: T.TxIo)
    requires !t.sub.DataNormal?
    ensures T.TickNewData(cfg, t, io) == T.Sending(t, [])
  {}

  lemma LateInput(cfg: Config, src: Bytes, keep: bool, s: System, e: Event)
    requires cfg.Valid() && Late(cfg, src, keep, s) && Possible(s, e) && (e.TxRecv? || e.TxCancel?)
    ensures Late(cfg, src, keep, Step(cfg, s, e))
  {
    hide TS.Inv;
    hide T.Recv;
    var p :| p in s.toRx && U.GoodEof(p);
    if e.TxRecv? {
      TS.RecvKeeps(cfg, src, s.toTx, s.t, e.class2, e.p);
      TS.RecvKeepsTerms(cfg, s.t, e.class2, e.p);
      RecvSub(cfg, s.t, e.class2, e.p);
    } else {
      TS.CancelKeeps(cfg, src, s.toTx, s.t);
    }
    assert p in Step(cfg, s, e).toRx;
  }

  lemma LateRx(cfg: Config, src: Bytes, keep: bool, s: System, e: Event)
    requires cfg.Valid() && Late(cfg, src, keep, s) && (e.RxTick? || e.RxRecv? || e.RxCancel?)
    ensures Late(cfg, src, keep, Step(cfg, s, e))
  {
    hide TS.Inv;
    hide R.Recv;
    hide R.Tick;
    hide R.Cancel;
    var p :| p in s.toRx && U.GoodEof(p);
    var u := Step(cfg, s, e);
    assert u.t == s.t && u.toRx == s.toRx && s.toTx <= u.toTx;
    TS.MoreGot(cfg, src, s.toTx, u.toTx, s.t);
    assert p in u.toRx;
  }

  lemma SendingKeeps(cfg: Config, src: Bytes, keep: bool, s: System, e: Event)
    requires cfg.Valid() && Sending(cfg, src, keep, s) && Possible(s, e)
    ensures Sending(cfg, src, keep, Step(cfg, s, e))
  {
    hide Sound;
    hide Aborted;
    hide Late;
    hide Step;
    hide Possible;
    if Inv(cfg, src, keep, s) && Placed(s, e) {
      Protocol.StepKeeps(cfg, src, keep, s, e);
    } else {
      if Inv(cfg, src, keep, s) {
        MisplacedIsLate(cfg, src, keep, s, e);
      }
      if e.TxTick? || e.TxNak? || e.TxData? {
        LateTx(cfg, src, keep, s, e);
      } else if e.TxRecv? || e.TxCancel? {
        LateInput(cfg, src, keep, s, e);
      } else {
        LateRx(cfg, src, keep, s, e);
      }
    }
  }

  /** Only after the announcement can a retransmission be misplaced, and never in a failed transfer. */
  lemma MisplacedIsLate(cfg: Config, src: Bytes, keep: bool, s: System, e: Event)
    requires Inv(cfg, src, keep, s) && !Placed(s, e)
    ensures Late(cfg, src, keep, s)
  {
    assert Announced(s);
    var p :| p in s.toRx && U.GoodEof(p);
    assert !Aborted(keep, s);
    hide Sound;
    SoundIsLate(cfg, src, keep, s);
  }

  // ------------------------------------------------------------------ the receiver's side

  /** What a receiver knows of the source it knows from a good EOF, and it retains a file only on the
      sum of the source. */
  ghost predicate ToldRx(src: Bytes, r: R.Rx) {
    && r.reports.finFs <= FS_INVALID
    && (r.reports.finFs == RETAINED ==>
          RS.Done(r.sub) && r.file.store.dst.Some? && r.file.crc.result == CfCrc.Checksum(src))
    && (r.Ok() && r.flags.eofCount != 0 ==>
          r.reports.eofCrc == CfCrc.Checksum(src) && r.reports.eofSize == |src|)
    && (r.com.isComplete ==> r.flags.eofCount != 0)
  }

  predicate Kept(r: R.Rx, u: R.Rx) { r.file.store.dst.Some? ==> u.file.store.dst.Some? }

  lemma EofTold(cfg: Config, src: Bytes, r: R.Rx, cc: nat, crc: nat, size: nat)
    requires ToldRx(src, r) && TrueEof(src, Eof(cc, crc, size))
    ensures ToldRx(src, R.RecvEof(cfg, r, cc, crc, size))
    ensures R.RecvEof(cfg, r, cc, crc, size).file == r.file
  {
    hide CfCrc.Checksum;
  }

  lemma FdTold(cfg: Config, src: Bytes, r: R.Rx, offset: nat, data: Bytes, io: R.RxIo)
    requires ToldRx(src, r)
    ensures var u := R.RecvFd(cfg, r, offset, data, io);
            ToldRx(src, u) && u.file.store.dst == r.file.store.dst
  {
    hide CfCrc.Checksum;
    hide Add;
    hide WriteAt;
  }

  lemma ControlTold(src: Bytes, r: R.Rx, size: nat, closeReq: bool, named: bool, directive: nat)
    requires ToldRx(src, r)
    ensures ToldRx(src, R.RecvMd(r, size, closeReq, named)) && ToldRx(src, R.RecvFinAck(r, directive))
    ensures R.RecvMd(r, size, closeReq, named).file.store == r.file.store
  {
    hide CfCrc.Checksum;
  }

  lemma DispatchTold(cfg: Config, src: Bytes, r: R.Rx, p: Pdu, io: R.RxIo)
    requires ToldRx(src, r) && TrueEof(src, p)
    ensures ToldRx(src, R.R2Dispatch(cfg, r, p, io)) && ToldRx(src, R.R1Recv(cfg, r, p, io))
    ensures R.R2Dispatch(cfg, r, p, io).file.store.dst == r.file.store.dst
    ensures R.R1Recv(cfg, r, p, io).file.store.dst == r.file.store.dst
  {
    match p {
      case Fd(offset, data) => FdTold(cfg, src, r, offset, data, io);
      case Eof(cc, crc, size) => EofTold(cfg, src, r, cc, crc, size);
      case Md(size, closeReq) => ControlTold(src, r, size, closeReq, true, 0);
      case Misnamed(size, closeReq) => ControlTold(src, r, size, closeReq, false, 0);
      case Ack(directive) => ControlTold(src, r, 0, false, true, directive);
      case _ =>
    }
    hide R.RecvFd;
    hide R.RecvEof;
    hide R.RecvMd;
    hide ToldRx;
  }

  lemma ArmTold(cfg: Config, src: Bytes, r: R.Rx)
    requires ToldRx(src, r)
    ensures ToldRx(src, R.ArmAck(cfg, r)) && ToldRx(src, R.ArmInact(cfg, r))
  {
    hide CfCrc.Checksum;
  }

  lemma RecvTold(cfg: Config, src: Bytes, r: R.Rx, class2: bool, p: Pdu, io: R.RxIo)
    requires ToldRx(src, r) && TrueEof(src, p)
    ensures var u := R.Recv(cfg, r, class2, p, io); ToldRx(src, u) && u.file.store.dst == r.file.store.dst
  {
    hide R.R2Dispatch;
    hide R.R1Recv;
    hide R.RecvEof;
    hide ToldRx;
    DispatchTold(cfg, src, r, p, io);
    ArmTold(cfg, src, R.R2Dispatch(cfg, r, p, io));
    ArmTold(cfg, src, R.R2Recv(cfg, r, p, io));
    ArmTold(cfg, src, R.R1Recv(cfg, r, p, io));
    ArmTold(cfg, src, r);
    if p.Eof? {
      EofTold(cfg, src, r, p.cc, p.crc, p.size);
      ArmTold(cfg, src, R.RecvEof(cfg, r, p.cc, p.crc, p.size));
    }
  }

  lemma DataEofTold(cfg: Config, src: Bytes, r: R.Rx)
    requires ToldRx(src, r) && r.sub.DataEof?
    ensures var c := R.CheckDataEof(cfg, r); ToldRx(src, c.r.(sub := c.next)) && c.r.file == r.file
  {
    hide CfCrc.Checksum;
    hide ComputeGaps;
  }

  lemma ValidateTold(cfg: Config, src: Bytes, r: R.Rx, io: R.RxIo)
    requires ToldRx(src, r) && r.sub.Validate?
    ensures var c := R.CheckValidate(cfg, r, io);
            ToldRx(src, c.r.(sub := c.next)) && c.r.file.store.dst == r.file.store.dst
  {
    RS.CalcCrcChunkEffect(cfg, r, io);
    hide CfCrc.Checksum;
    hide R.CalcCrcChunk;
  }

  lemma FilestoreTold(src: Bytes, r: R.Rx, io: R.RxIo)
    requires ToldRx(src, r) && r.sub.Filestore?
    ensures var u := R.HandleFileRetention(r, io);
            ToldRx(src, u.(sub := R.FinAck)) && ToldRx(src, u.(sub := R.Complete)) && Kept(r, u)
  {
    hide CfCrc.Checksum;
  }

  lemma FinAckTold(cfg: Config, src: Bytes, r: R.Rx)
    requires ToldRx(src, r) && r.sub.FinAck?
    ensures var c := R.CheckFinAck(cfg, r); ToldRx(src, c.r.(sub := c.next)) && c.r.file == r.file
  {
    hide CfCrc.Checksum;
  }

  lemma NextTold(cfg: Config, src: Bytes, r: R.Rx, io: R.RxIo)
    requires ToldRx(src, r)
    ensures var c := R.NextState(cfg, r, io);
            && ToldRx(src, c.r.(sub := c.next)) && Kept(r, c.r) && (c.next.Validate? ==> c.r.reports.finFs != RETAINED)
  {
    hide CfCrc.Checksum;
    hide R.CheckDataEof;
    hide R.CheckValidate;
    hide R.HandleFileRetention;
    hide R.CheckFinAck;
    match r.sub
    case DataEof => DataEofTold(cfg, src, r);
    case Validate => ValidateTold(cfg, src, r, io);
    case Filestore => FilestoreTold(src, r, io);
    case FinAck => FinAckTold(cfg, src, r);
    case _ =>
  }

  lemma EnterTold(cfg: Config, src: Bytes, r: R.Rx, next: R.SubState, io: R.RxIo)
    requires ToldRx(src, r.(sub := next)) && (next.Validate? ==> r.reports.finFs != RETAINED)
    ensures ToldRx(src, R.Enter(cfg, r, next, io))
    ensures R.Enter(cfg, r, next, io).file.store.dst == r.file.store.dst
  {
    hide CfCrc.Checksum;
  }

  lemma CheckStateTold(cfg: Config, src: Bytes, r: R.Rx, io: R.RxIo)
    requires ToldRx(src, r)
    ensures ToldRx(src, R.CheckState(cfg, r, io)) && Kept(r, R.CheckState(cfg, r, io))
  {
    hide R.NextState;
    hide R.Enter;
    hide ToldRx;
    var c := R.NextState(cfg, r, io);
    NextTold(cfg, src, r, io);
    RS.SameSub(cfg, r, io);
    assert c.next == r.sub ==> c.r.(sub := c.next) == c.r;
    EnterTold(cfg, src, c.r, c.next, io);
  }

  lemma TimersTold(src: Bytes, r: R.Rx)
    requires ToldRx(src, r)
    ensures ToldRx(src, R.InactTimerTick(r)) && ToldRx(src, R.AckTimerTick(r))
    ensures R.InactTimerTick(r).file == r.file && R.AckTimerTick(r).file == r.file
  {
    hide CfCrc.Checksum;
  }

  lemma MaintenanceTold(cfg: Config, src: Bytes, r: R.Rx, io: R.RxIo)
    requires cfg.Valid() && ToldRx(src, r)
    ensures var x := R.Maintenance(cfg, r, io);
            && ToldRx(src, x.r) && x.r.file == r.file
            && forall p :: p in x.sent && p.Fin? && p.fs == RETAINED ==> r.file.store.dst.Some?
  {
    hide CfCrc.Checksum;
    hide R.NakPdus;
    RS.NakPdusAreNaks(cfg, r);
  }

  lemma TickTold(cfg: Config, src: Bytes, r: R.Rx, io: R.RxIo)
    requires cfg.Valid() && ToldRx(src, r)
    ensures var x := R.Tick(cfg, r, io);
            && ToldRx(src, x.r) && Kept(r, x.r)
            && forall p :: p in x.sent && p.Fin? && p.fs == RETAINED ==> x.r.file.store.dst.Some?
  {
    hide ToldRx;
    hide R.CheckState;
    hide R.Maintenance;
    hide R.InactTimerTick;
    hide R.AckTimerTick;
    var i := R.InactTimerTick(r);
    var s := R.AckTimerTick(i);
    TimersTold(src, r);
    TimersTold(src, i);
    CheckStateTold(cfg, src, s, io);
    MaintenanceTold(cfg, src, R.Advance(cfg, r, io), io);
  }

  // ------------------------------------------------------------------ both sides, every run

  ghost predicate Told(src: Bytes, s: System) {
    && (s.r.Some? ==> ToldRx(src, s.r.value) && s.r.value.file.store.dst == s.dst)
    && forall p :: p in s.toTx && p.Fin? && p.fs == RETAINED ==> s.dst.Some?
  }

  lemma SetupTold(cfg: Config, src: Bytes, class2: bool, stat: int, openOk: bool, dst: Option<Bytes>)
    ensures var r := R.Setup(cfg, class2, stat, openOk, dst); ToldRx(src, r) && r.file.store.dst == dst
  {
    hide CfCrc.Checksum;
  }

  lemma CancelTold(src: Bytes, r: R.Rx)
    requires ToldRx(src, r)
    ensures ToldRx(src, R.Cancel(r)) && R.Cancel(r).file == r.file
  {
    hide CfCrc.Checksum;
  }

  lemma ToldKeeps(cfg: Config, src: Bytes, s: System, e: Event)
    requires cfg.Valid() && Told(src, s) && TrueEofs(src, s.toRx) && Possible(s, e)
    ensures Told(src, Step(cfg, s, e))
  {
    hide ToldRx;
    hide R.Tick;
    hide R.Recv;
    hide R.Setup;
    hide R.Cancel;
    hide T.Tick;
    hide T.TickNak;
    hide T.TickNewData;
    hide T.Recv;
    match e {
      case RxTick(io) =>
        if s.r.Some? {
          TickTold(cfg, src, s.r.value, io);
        }
      case RxRecv(p, class2, io, stat, openOk) =>
        SetupTold(cfg, src, class2, stat, openOk, s.dst);
        RecvTold(cfg, src, Receiver(cfg, s, class2, stat, openOk), class2, p, io);
      case RxCancel =>
        if s.r.Some? {
          CancelTold(src, s.r.value);
        }
      case _ =>
    }
  }

  lemma {:induction false} RunKeeps(cfg: Config, src: Bytes, keep: bool, s: System, es: seq<Event>)
    requires cfg.Valid() && Sending(cfg, src, keep, s) && Told(src, s) && Run(cfg, s, es).Some?
    ensures var u := Run(cfg, s, es).value; Sending(cfg, src, keep, u) && Told(src, u)
    decreases |es|
  {
    hide Sending;
    hide Told;
    hide Step;
    hide Possible;
    if es != [] {
      SendingIsTrue(cfg, src, keep, s);
      SendingKeeps(cfg, src, keep, s, es[0]);
      ToldKeeps(cfg, src, s, es[0]);
      RunKeeps(cfg, src, keep, Step(cfg, s, es[0]), es[1..]);
    }
  }

  /** In every run whatever: the source is given up only if it was not to be kept, on a recorded FIN
      that said COMPLETE and RETAINED, and then the receiver has a file in place. */
  lemma GivenUpOnReport(cfg: Config, src: Bytes, keep: bool, cmdTx: bool, closeReq: bool, es: seq<Event>)
    requires cfg.Valid() && Run(cfg, Init(cfg, src, keep, cmdTx, closeReq), es).Some?
    ensures var s := Run(cfg, Init(cfg, src, keep, cmdTx, closeReq), es).value;
            SourceGivenUp(s) ==> !keep && HasFin(s, s.t.fin.cc, COMPLETE, RETAINED) && s.dst.Some?
  {
    var s := Init(cfg, src, keep, cmdTx, closeReq);
    InitHolds(cfg, src, keep, cmdTx, closeReq);
    assert Told(src, s);
    RunKeeps(cfg, src, keep, s, es);
    hide Init;
    hide Run;
    hide ToldRx;
    hide Sending;
    SendingIsTrue(cfg, src, keep, Run(cfg, s, es).value);
  }

  /** In every run whatever: RETAINED is only on the channel when some file is in place, and a receiver
      that says so had the checksum of the source as the sum of what it read, the size and the
      checksum of the source as the announced ones. */
  lemma RetainedOnSum(cfg: Config, src: Bytes, keep: bool, cmdTx: bool, closeReq: bool, es: seq<Event>)
    requires cfg.Valid() && Run(cfg, Init(cfg, src, keep, cmdTx, closeReq), es).Some?
    ensures var s := Run(cfg, Init(cfg, src, keep, cmdTx, closeReq), es).value;
            && (forall p :: p in s.toTx && p.Fin? && p.fs == RETAINED ==> s.dst.Some?)
            && (s.r.Some? ==>
                  var r := s.r.value;
                  && (r.reports.finFs == RETAINED ==> s.dst.Some? && r.file.crc.result == CfCrc.Checksum(src))
                  && (r.Ok() && r.flags.eofCount != 0 ==>
                        r.reports.eofCrc == CfCrc.Checksum(src) && r.reports.eofSize == |src|))
  {
    var s := Init(cfg, src, keep, cmdTx, closeReq);
    InitHolds(cfg, src, keep, cmdTx, closeReq);
    assert Told(src, s);
    RunKeeps(cfg, src, keep, s, es);
    hide Init;
    hide Run;
    hide Sending;
    hide CfCrc.Checksum;
  }
}
