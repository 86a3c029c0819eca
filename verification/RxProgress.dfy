/** A receive transaction only moves forward, and it ends: without further PDUs the inactivity
    timer and a bounded number of ticks that can send bring it to COMPLETE. */
module RxProgress {
  import opened Bytes
  import opened Cfdp
  import opened RxSpec
  import opened RxHistory
  import RxSafety

  function Rank(sub: SubState): nat {
    match sub
    case DataNormal => 0 case DataEof => 1 case Validate => 2
    case Filestore => 3 case FinAck => 4 case Complete => 5
  }

  /** The inactivity timer of an active transaction, once fired, is an error; an active
      transaction is not COMPLETE. */
  predicate Sound(r: Rx) {
    !r.hold ==> !r.sub.Complete? && (r.com.inactFired ==> !r.Ok())
  }

  /** What any event may do: the sub-state never goes back, HOLD is for good. */
  predicate Forward(r: Rx, u: Rx) {
    && Rank(r.sub) <= Rank(u.sub) && (r.hold ==> u.hold)
    && (r.com.inactFired ==> u.com.inactFired) && (u.Ok() ==> r.Ok())
    && u.reliable == r.reliable
  }

  lemma RecvForward(cfg: Config, r: Rx, class2: bool, p: Pdu, io: RxIo)
    ensures var u := Recv(cfg, r, class2, p, io);
            Forward(r, u) && u.sub == r.sub && u.hold == r.hold && u.com.inactFired == r.com.inactFired
  {
    HandledForward(cfg, r, p, io);
    hide RecvEof;
    hide R1Recv;
    hide R2Dispatch;
  }

  /** What no PDU changes. */
  predicate Handled(r: Rx, u: Rx) {
    && u.sub == r.sub && u.hold == r.hold && u.com.inactFired == r.com.inactFired
    && (u.Ok() ==> r.Ok()) && u.reliable == r.reliable
  }

  lemma HandledForward(cfg: Config, r: Rx, p: Pdu, io: RxIo)
    ensures Handled(r, R1Recv(cfg, r, p, io)) && Handled(r, R2Dispatch(cfg, r, p, io))
    ensures p.Eof? ==> Handled(r, RecvEof(cfg, r, p.cc, p.crc, p.size))
  {
    HandlersForward(cfg, r, p, io);
    hide RecvFd;
    hide RecvEof;
    hide RecvMd;
    hide RecvFinAck;
    hide Handled;
  }

  lemma HandlersForward(cfg: Config, r: Rx, p: Pdu, io: RxIo)
    ensures p.Fd? ==> Handled(r, RecvFd(cfg, r, p.offset, p.data, io))
    ensures p.Eof? ==> Handled(r, RecvEof(cfg, r, p.cc, p.crc, p.size))
    ensures p.Md? || p.Misnamed? ==> Handled(r, RecvMd(r, p.size, p.closeReq, p.Md?))
    ensures p.Ack? ==> Handled(r, RecvFinAck(r, p.directive))
    ensures Handled(r, r)
  {
    hide WriteFd;
    hide SeekTo;
  }

  lemma NextForward(cfg: Config, r: Rx, io: RxIo)
    ensures var c := NextState(cfg, r, io);
            && Rank(r.sub) <= Rank(c.next) && c.r.sub == r.sub && c.r.hold == r.hold && c.r.reliable == r.reliable
            && c.r.com.inactFired == r.com.inactFired && (c.r.Ok() ==> r.Ok())
  {
    RxSafety.CalcCrcChunkSteers(cfg, r, io);
    RxSafety.RetentionSteers(r, io);
    hide CalcCrcChunk;
    hide HandleFileRetention;
    hide CheckComplete;
  }

  lemma EnterForward(cfg: Config, r: Rx, next: SubState, io: RxIo)
    ensures var u := Enter(cfg, r, next, io);
            && u.sub == next && u.hold == (r.hold || next.Complete?) && u.reliable == r.reliable
            && u.com.inactFired == r.com.inactFired && (u.Ok() ==> r.Ok())
  {}

  lemma CheckStateForward(cfg: Config, r: Rx, io: RxIo)
    ensures var u := CheckState(cfg, r, io);
            && Forward(r, u) && u.sub == NextState(cfg, r, io).next
            && u.com.inactFired == r.com.inactFired && (u.hold ==> r.hold || u.sub.Complete?)
            && (u.sub.Complete? ==> u.hold || r.sub.Complete?)
  {
    hide NextState;
    hide Enter;
    NextForward(cfg, r, io);
    var c := NextState(cfg, r, io);
    EnterForward(cfg, c.r, c.next, io);
  }

  lemma MaintenanceForward(cfg: Config, r: Rx, io: RxIo)
    requires cfg.Valid()
    ensures var u := Maintenance(cfg, r, io).r;
            && Forward(r, u) && u.sub == r.sub && u.hold == r.hold && u.com.inactFired == r.com.inactFired
            && u.stat == r.stat
  {
    hide NakPdus;
    hide FinPdu;
  }

  lemma TimersForward(r: Rx)
    requires Sound(r)
    ensures var u := AckTimerTick(InactTimerTick(r));
            Forward(r, u) && Sound(u) && u.sub == r.sub && u.hold == r.hold
    ensures r.hold ==> Forward(r, InactTimerTick(r)) && InactTimerTick(r).hold
  {}

  lemma AdvanceForward(cfg: Config, r: Rx, io: RxIo)
    requires Sound(r)
    ensures Forward(r, Advance(cfg, r, io)) && Sound(Advance(cfg, r, io))
  {
    hide CheckState;
    hide InactTimerTick;
    hide AckTimerTick;
    TimersForward(r);
    CheckStateForward(cfg, AckTimerTick(InactTimerTick(r)), io);
  }

  lemma TickForward(cfg: Config, r: Rx, io: RxIo)
    requires cfg.Valid() && Sound(r)
    ensures Forward(r, Tick(cfg, r, io).r) && Sound(Tick(cfg, r, io).r)
  {
    hide Advance;
    hide Maintenance;
    AdvanceForward(cfg, r, io);
    MaintenanceForward(cfg, Advance(cfg, r, io), io);
  }

  lemma AfterForward(cfg: Config, r: Rx, e: Event)
    requires cfg.Valid() && Sound(r)
    ensures Forward(r, After(cfg, r, e)) && Sound(After(cfg, r, e))
  {
    hide Recv;
    hide Tick;
    match e {
      case Arrive(class2, p, io) => RecvForward(cfg, r, class2, p, io);
      case Ticked(io) => TickForward(cfg, r, io);
      case Cancelled =>
    }
  }

  /** Over every run the sub-state moves forward only, and COMPLETE is where it stays. */
  lemma {:induction false} RunForward(cfg: Config, s: Play, es: seq<Event>)
    requires cfg.Valid() && Sound(s.r)
    ensures var u := Run(cfg, s, es).r;
            Forward(s.r, u) && Sound(u) && (s.r.sub.Complete? ==> u.sub.Complete?)
    decreases |es|
  {
    hide After;
    hide Wrote;
    if es != [] {
      AfterForward(cfg, s.r, es[0]);
      RunForward(cfg, Step(cfg, s, es[0]), es[1..]);
    }
  }

  // ------------------------------------------------------------------ termination

  /** PDUs still to be sent before the transaction can close. */
  function Pending(r: Rx): (n: nat)
    ensures n <= 3
  {
    (if r.reliable && r.flags.eofAckCount != r.flags.eofCount then 1 else 0)
    + (if r.flags.sendNak then 1 else 0) + (if r.flags.sendFin then 1 else 0)
  }

  /** Ticks that can send, from the firing of the inactivity timer to COMPLETE. */
  function Closing(r: Rx): nat {
    match r.sub
    case DataNormal => 6 case DataEof => 5 case Validate => 5
    case Filestore => 4 case FinAck => Pending(r) + 1 case Complete => 0
  }

  function Remaining(r: Rx): nat {
    if r.sub.Complete? then 0 else if r.com.inactFired then Closing(r) else r.inactTimer + 7
  }

  /** The check of the sub-states of a transaction that timed out. */
  lemma CheckStateCloses(cfg: Config, r: Rx, io: RxIo)
    requires !r.Ok() && r.com.inactFired && !r.sub.Complete?
    ensures var u := CheckState(cfg, r, io);
            match r.sub
            case DataNormal => u.sub.DataEof? || u.sub.Filestore?
            case DataEof => u.sub.Filestore?
            case Validate => u.sub.Filestore?
            case Filestore => u.sub.Complete? || u.sub.FinAck?
            case _ => if r.flags.sendFin then u == r else u.sub.Complete?
  {
    hide HandleFileRetention;
    hide CheckComplete;
    hide CalcCrcChunk;
  }

  lemma NextInact(cfg: Config, r: Rx, io: RxIo)
    ensures NextState(cfg, r, io).r.inactTimer == r.inactTimer
  {
    RxSafety.CalcCrcChunkSteers(cfg, r, io);
    RxSafety.RetentionSteers(r, io);
    hide CalcCrcChunk;
    hide HandleFileRetention;
    hide CheckComplete;
  }

  lemma CheckStateInact(cfg: Config, r: Rx, io: RxIo)
    ensures var u := CheckState(cfg, r, io); !u.sub.Complete? ==> u.inactTimer == r.inactTimer
  {
    hide NextState;
    NextInact(cfg, r, io);
  }

  lemma MaintenanceCloses(cfg: Config, r: Rx, io: RxIo)
    requires cfg.Valid()
    ensures var u := Maintenance(cfg, r, io).r;
            && u.sub == r.sub && u.inactTimer == r.inactTimer && u.com.inactFired == r.com.inactFired
            && Pending(u) == (if io.canSend && Pending(r) > 0 then Pending(r) - 1 else Pending(r))
  {
    hide NakPdus;
    hide FinPdu;
  }

  lemma CheckStateRemaining(cfg: Config, r: Rx, io: RxIo)
    requires !r.Ok() && r.com.inactFired && !r.sub.Complete?
    ensures var u := CheckState(cfg, r, io);
            Closing(u) - (if u.sub.FinAck? && io.canSend && Pending(u) > 0 then 1 else 0)
            <= Closing(r) - (if io.canSend then 1 else 0)
  {
    hide CheckState;
    CheckStateCloses(cfg, r, io);
  }

  /** The timer has fired: what is left to close shrinks with every tick that can send. */
  lemma FiredCloses(cfg: Config, r: Rx, io: RxIo)
    requires cfg.Valid() && !r.Ok() && r.com.inactFired && !r.sub.Complete?
    ensures var u := Maintenance(cfg, CheckState(cfg, r, io), io).r;
            && u.com.inactFired
            && Closing(u) <= Closing(r) && (io.canSend ==> Closing(u) < Closing(r))
  {
    hide CheckState;
    hide Maintenance;
    hide Pending;
    var u := CheckState(cfg, r, io);
    CheckStateForward(cfg, r, io);
    CheckStateRemaining(cfg, r, io);
    MaintenanceCloses(cfg, u, io);
  }

  /** The timer is still running. */
  lemma RunningCloses(cfg: Config, r: Rx, io: RxIo)
    requires cfg.Valid() && !r.com.inactFired
    ensures var u := Maintenance(cfg, CheckState(cfg, r, io), io).r;
            !u.com.inactFired && (!u.sub.Complete? ==> u.inactTimer == r.inactTimer)
  {
    hide CheckState;
    hide Maintenance;
    CheckStateForward(cfg, r, io);
    CheckStateInact(cfg, r, io);
    MaintenanceCloses(cfg, CheckState(cfg, r, io), io);
  }

  lemma TimersInact(r: Rx)
    requires !r.hold && Sound(r)
    ensures var s := AckTimerTick(InactTimerTick(r));
            && s.sub == r.sub
            && (r.com.inactFired || r.inactTimer == 0 ==> s.com.inactFired && !s.Ok())
            && (!r.com.inactFired && r.inactTimer > 0 ==> !s.com.inactFired && s.inactTimer == r.inactTimer - 1)
    ensures r.com.inactFired ==> Closing(AckTimerTick(r)) == Closing(r) && InactTimerTick(r) == r
  {}

  /** One tick on an active transaction brings it closer to COMPLETE, unless nothing can be sent
      while a PDU is due. */
  lemma TickCloses(cfg: Config, r: Rx, io: RxIo)
    requires cfg.Valid() && Sound(r) && !r.hold
    ensures var u := Tick(cfg, r, io).r;
            Remaining(u) <= Remaining(r) && (io.canSend || !r.com.inactFired ==> Remaining(u) < Remaining(r))
  {
    hide CheckState;
    hide Maintenance;
    hide InactTimerTick;
    hide AckTimerTick;
    hide Pending;
    TimersInact(r);
    var s := AckTimerTick(InactTimerTick(r));
    if s.com.inactFired {
      FiredCloses(cfg, s, io);
    } else {
      RunningCloses(cfg, s, io);
    }
  }

  predicate Ticks(es: seq<Event>) { forall e :: e in es ==> e.Ticked? }

  /** How many of the ticks can send. */
  function Sends(es: seq<Event>): nat {
    if es == [] then 0 else (if es[0].Ticked? && es[0].io.canSend then 1 else 0) + Sends(es[1..])
  }

  /** If no more PDUs arrive, the transaction is COMPLETE once the inactivity timer and at most
      seven further ticks have passed, counting only ticks on which a PDU can be sent: the others
      may come in any number and at any time. */
  lemma {:induction false} Terminates(cfg: Config, s: Play, es: seq<Event>)
    requires cfg.Valid() && Sound(s.r) && (s.r.hold ==> s.r.sub.Complete?)
    requires Ticks(es) && Sends(es) >= Remaining(s.r)
    ensures Run(cfg, s, es).r.sub.Complete?
    decreases |es|
  {
    if s.r.sub.Complete? {
      RunForward(cfg, s, es);
    } else {
      assert es != [];
      TickCloses(cfg, s.r, es[0].io);
      TickForward(cfg, s.r, es[0].io);
      TickHold(cfg, s.r, es[0].io);
      hide Remaining;
      hide Wrote;
      hide Tick;
      Terminates(cfg, Step(cfg, s, es[0]), es[1..]);
    }
  }

  lemma TickHold(cfg: Config, r: Rx, io: RxIo)
    requires cfg.Valid() && !r.hold
    ensures var u := Tick(cfg, r, io).r; u.hold ==> u.sub.Complete?
  {
    hide CheckState;
    hide Maintenance;
    var s := AckTimerTick(InactTimerTick(r));
    CheckStateForward(cfg, s, io);
    MaintenanceForward(cfg, CheckState(cfg, s, io), io);
  }

  /** What every run of a transaction that could be started leads to: HOLD is entered with COMPLETE. */
  predicate Closed(r: Rx) { Sound(r) && (r.hold ==> r.sub.Complete?) }

  lemma AfterClosed(cfg: Config, r: Rx, e: Event)
    requires cfg.Valid() && Closed(r)
    ensures Closed(After(cfg, r, e))
  {
    AfterForward(cfg, r, e);
    if !r.hold {
      match e {
        case Arrive(class2, p, io) => RecvForward(cfg, r, class2, p, io);
        case Ticked(io) => TickHold(cfg, r, io);
        case Cancelled =>
      }
    }
    hide Recv;
    hide Tick;
  }

  lemma {:induction false} RunClosed(cfg: Config, s: Play, es: seq<Event>)
    requires cfg.Valid() && Closed(s.r)
    ensures Closed(Run(cfg, s, es).r)
    decreases |es|
  {
    hide After;
    hide Wrote;
    hide Closed;
    if es != [] {
      AfterClosed(cfg, s.r, es[0]);
      RunClosed(cfg, Step(cfg, s, es[0]), es[1..]);
    }
  }

  /** After any run of a new receive transaction: from then on such ticks lead to COMPLETE, unless
      the status left in its history entry had put it in HOLD from the beginning, where it stays. */
  lemma ReachedTerminates(cfg: Config, reliable: bool, stat: int, openOk: bool, es: seq<Event>, ts: seq<Event>)
    requires cfg.Valid() && Ticks(ts)
    ensures var s := Reached(cfg, reliable, stat, openOk, es);
            if IsError(stat) then s.r.hold
            else Sends(ts) >= Remaining(s.r) ==> Run(cfg, s, ts).r.sub.Complete?
  {
    var s0 := Start(cfg, reliable, stat, openOk);
    var s := Run(cfg, s0, es);
    hide Run;
    if IsError(stat) {
      RunForward(cfg, s0, es);
    } else {
      RunClosed(cfg, s0, es);
      if Sends(ts) >= Remaining(s.r) {
        Terminates(cfg, s, ts);
      }
    }
  }

  /** The sends are needed: a FIN that can never be sent keeps the transaction in FINACK for ever. */
  lemma {:induction false} StuckWithoutSends(cfg: Config, s: Play, es: seq<Event>)
    requires cfg.Valid() && !s.r.hold && s.r.sub.FinAck? && s.r.flags.sendFin
    requires Ticks(es) && Sends(es) == 0
    ensures var u := Run(cfg, s, es).r; u.sub.FinAck? && u.flags.sendFin && !u.hold
    decreases |es|
  {
    if es != [] {
      StuckWithoutSends(cfg, Step(cfg, s, es[0]), es[1..]);
    }
  }
}
