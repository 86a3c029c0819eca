/** What a sender reports when something goes wrong, and what becomes of its source: over any run, the first thing that
    went wrong is the status of the transaction, its EOF carries it, and the source is disposed of accordingly. */
module TxFaults {
  import opened Cfdp
  import opened TxSpec
  import CfCrc
  import ChunkSpec
  import TxSafety

  datatype Event =
    | Ticked(io: TxIo)
    | Data(io: TxIo)
    | Answer(io: TxIo)
    | Arrive(class2: bool, p: Pdu)
    | Cancelled

  function After(cfg: Config, t: Tx, e: Event): Tx {
    match e
    case Ticked(io) => Tick(cfg, t, io).t
    case Data(io) => TickNewData(cfg, t, io).t
    case Answer(io) => TickNak(cfg, t, io).t
    case Arrive(class2, p) => Recv(cfg, t, class2, p)
    case Cancelled => Cancel(t)
  }

  function Run(cfg: Config, t: Tx, es: seq<Event>): Tx
    decreases |es|
  {
    if es == [] then t else Run(cfg, After(cfg, t, es[0]), es[1..])
  }

  // ------------------------------------------------------------------ what can go wrong

  /** A piece of the first pass is due, a buffer is there, and the file does not yield what is asked for. */
  predicate ReadFails(cfg: Config, t: Tx, io: TxIo) {
    && t.sub.DataNormal? && t.file.foffs < t.fsize && io.canSend
    && var f := t.file;
       var n := Wanted(cfg, t.fsize - f.foffs, io.room);
       var at := if f.cachedPos == f.foffs then f.pos else f.foffs;
       !f.open || (f.cachedPos != f.foffs && !io.seekOk) || n == 0 || io.readable < n || at + n > |f.src|
  }

  /** A FIN is looked at. */
  predicate TakesFin(t: Tx, class2: bool) {
    class2 == t.reliable && (t.hold || t.reliable || t.sub.DataNormal? || t.sub.DataEof?)
  }

  /** It comes before the EOF was sent. */
  predicate Early(t: Tx) { !t.hold && t.sub.DataNormal? }

  function FinFault(cfg: Config, t: Tx, cc: nat): nat {
    if Early(t) then EARLY_FIN
    else if t.flags.finCount == 0 && cc != NO_ERROR then cc
    else if t.flags.finCount >= cfg.ackLimit then POS_ACK_LIMIT_REACHED
    else NO_ERROR
  }

  /** The EOF has gone unanswered as often as the limit allows. */
  predicate EofUnanswered(cfg: Config, t: Tx) {
    && t.sub.DataEof? && t.reliable && !t.flags.sendEof && !t.flags.eofAckRecv
    && t.flags.finCount == t.flags.finAckCount == 0
    && (!t.com.ackArmed || t.ackTimer == 0) && t.acknak >= cfg.ackLimit
  }

  /** What goes wrong in a transaction that was in order so far. */
  function FaultOf(cfg: Config, t: Tx, e: Event): nat {
    match e
    case Ticked(_) =>
      if t.hold then NO_ERROR
      else if !t.sub.DataNormal? && !t.com.inactFired && t.inactTimer == 0 then INACTIVITY_DETECTED
      else if EofUnanswered(cfg, t) then NAK_LIMIT_REACHED
      else NO_ERROR
    case Data(io) => if ReadFails(cfg, t, io) then READ_FAILURE else NO_ERROR
    case Answer(_) => NO_ERROR
    case Arrive(class2, p) => if p.Fin? && TakesFin(t, class2) then FinFault(cfg, t, p.cc) else NO_ERROR
    case Cancelled => CANCEL_REQUEST_RECEIVED
  }

  function ErrorOf(stat: int): nat { if IsError(stat) then stat else NO_ERROR }

  // ------------------------------------------------------------------ one event

  lemma ReadShows(cfg: Config, t: Tx, io: TxIo)
    requires t.Ok()
    ensures ErrorOf(TickNewData(cfg, t, io).t.stat) == if ReadFails(cfg, t, io) then READ_FAILURE else NO_ERROR
  {
    hide CfCrc.Digest;
  }

  lemma RecvFinShows(cfg: Config, t: Tx, cc: nat, dc: nat, fs: nat)
    ensures ErrorOf(RecvFin(cfg, t, cc, dc, fs).stat) ==
            if IsError(t.stat) then t.stat
            else if t.flags.finCount == 0 && cc != NO_ERROR then cc
            else if t.flags.finCount >= cfg.ackLimit then POS_ACK_LIMIT_REACHED else NO_ERROR
  {}

  lemma EarlyFinShows(cfg: Config, t: Tx, cc: nat, dc: nat, fs: nat)
    requires t.Ok()
    ensures EarlyFin(cfg, t, cc, dc, fs).stat == EARLY_FIN
  {}

  lemma {:induction false} NakStatus(cfg: Config, t: Tx, segs: seq<Segment>)
    ensures RecvNak(cfg, t, segs).stat == t.stat
    decreases |segs|
  {
    hide ChunkSpec.Add;
    if segs != [] {
      NakStatus(cfg, RecvSegment(cfg, t, segs[0]), segs[1..]);
    }
  }

  lemma ArrivalShows(cfg: Config, t: Tx, class2: bool, p: Pdu)
    requires t.Ok()
    ensures ErrorOf(Recv(cfg, t, class2, p).stat) == FaultOf(cfg, t, Arrive(class2, p))
  {
    if p.Fin? {
      RecvFinShows(cfg, t, p.cc, p.dc, p.fs);
      EarlyFinShows(cfg, t, p.cc, p.dc, p.fs);
    }
    if p.Nak? {
      NakStatus(cfg, t, p.segments);
    }
    hide RecvFin;
    hide EarlyFin;
    hide RecvNak;
  }

  lemma CheckShows(cfg: Config, t: Tx, io: TxIo)
    requires t.Ok()
    ensures ErrorOf(CheckState(cfg, AckTimerTick(t), io).stat) ==
            if EofUnanswered(cfg, t) then NAK_LIMIT_REACHED else NO_ERROR
  {
    hide NextState;
    hide Enter;
    hide AckTimerTick;
    var u := AckTimerTick(t);
    TimerKeeps(cfg, t);
    NextShows(cfg, u, io);
    EnterStatus(cfg, NextState(cfg, u, io).t, NextState(cfg, u, io).next);
  }

  lemma TimerKeeps(cfg: Config, t: Tx)
    ensures var u := AckTimerTick(t);
            u.stat == t.stat && (EofUnanswered(cfg, t) <==> EofUnanswered(cfg, u) && !u.com.ackArmed)
  {}

  lemma NextShows(cfg: Config, t: Tx, io: TxIo)
    requires t.Ok()
    ensures ErrorOf(NextState(cfg, t, io).t.stat) ==
            if EofUnanswered(cfg, t) && !t.com.ackArmed then NAK_LIMIT_REACHED else NO_ERROR
  {
    hide RetentionFate;
  }

  lemma EnterStatus(cfg: Config, t: Tx, next: SubState)
    ensures Enter(cfg, t, next).stat == t.stat
  {
    hide CfCrc.Finalize;
  }

  lemma CheckSticks(cfg: Config, t: Tx, io: TxIo)
    requires !t.Ok()
    ensures CheckState(cfg, t, io).stat == t.stat
  {
    hide CfCrc.Finalize;
    hide RetentionFate;
  }

  lemma TickShows(cfg: Config, t: Tx, io: TxIo)
    requires t.Ok()
    ensures ErrorOf(Tick(cfg, t, io).t.stat) == FaultOf(cfg, t, Ticked(io))
  {
    hide CheckState;
    var s := InactTimerTick(t);
    if !t.hold {
      if s.Ok() {
        assert EofUnanswered(cfg, s) == EofUnanswered(cfg, t);
        CheckShows(cfg, s, io);
      } else {
        CheckSticks(cfg, AckTimerTick(s), io);
      }
    }
  }

  /** What sending PDUs leaves alone. */
  predicate SameStage(t: Tx, u: Tx) {
    u.stat == t.stat && u.sub == t.sub && u.hold == t.hold && u.file == t.file && u.com.isComplete == t.com.isComplete
  }

  lemma MaintenanceStage(cfg: Config, t: Tx, io: TxIo)
    ensures SameStage(t, Maintenance(cfg, t, io).t)
  {}

  lemma TickSticks(cfg: Config, t: Tx, io: TxIo)
    requires !t.Ok()
    ensures Tick(cfg, t, io).t.stat == t.stat
  {
    hide CheckState;
    hide Maintenance;
    var s := InactTimerTick(t);
    assert s.stat == t.stat && AckTimerTick(s).stat == t.stat;
    CheckSticks(cfg, AckTimerTick(s), io);
    MaintenanceStage(cfg, if t.hold then s else CheckState(cfg, AckTimerTick(s), io), io);
  }

  lemma ArrivalSticks(cfg: Config, t: Tx, class2: bool, p: Pdu)
    requires !t.Ok()
    ensures Recv(cfg, t, class2, p).stat == t.stat
  {
    if p.Fin? {
      RecvFinSticks(cfg, t, p.cc, p.dc, p.fs);
    }
    if p.Nak? {
      NakStatus(cfg, t, p.segments);
    }
    hide RecvFin;
    hide EarlyFin;
    hide RecvNak;
  }

  /** An error stays. */
  lemma FirstSticks(cfg: Config, t: Tx, e: Event)
    requires !t.Ok()
    ensures After(cfg, t, e).stat == t.stat
  {
    match e
    case Ticked(io) =>
      TickSticks(cfg, t, io);
      hide Tick;
    case Data(io) =>
      hide FirstPass;
    case Answer(io) =>
      TxSafety.TickNakIs(cfg, t, io);
      hide TickNak;
    case Arrive(class2, p) =>
      ArrivalSticks(cfg, t, class2, p);
      hide Recv;
    case Cancelled =>
  }

  lemma RecvFinSticks(cfg: Config, t: Tx, cc: nat, dc: nat, fs: nat)
    requires !t.Ok()
    ensures RecvFin(cfg, t, cc, dc, fs).stat == t.stat && EarlyFin(cfg, t, cc, dc, fs).stat == t.stat
  {}

  /** One event: an error stays what it is, and without one what goes wrong now is the status. */
  lemma EventShows(cfg: Config, t: Tx, e: Event)
    ensures ErrorOf(After(cfg, t, e).stat) == if t.Ok() then FaultOf(cfg, t, e) else t.stat
  {
    if t.Ok() {
      match e
      case Ticked(io) =>
        TickShows(cfg, t, io);
        hide Tick;
      case Data(io) =>
        ReadShows(cfg, t, io);
        hide TickNewData;
      case Answer(io) =>
        TxSafety.TickNakIs(cfg, t, io);
        hide TickNak;
      case Arrive(class2, p) =>
        ArrivalShows(cfg, t, class2, p);
        hide Recv;
      case Cancelled =>
    } else {
      FirstSticks(cfg, t, e);
      hide After;
    }
  }

  // ------------------------------------------------------------------ a whole run

  function FirstFault(cfg: Config, t: Tx, es: seq<Event>): nat
    decreases |es|
  {
    if es == [] then NO_ERROR
    else
      var f := FaultOf(cfg, t, es[0]);
      if f != NO_ERROR then f else FirstFault(cfg, After(cfg, t, es[0]), es[1..])
  }

  /** In every run: the status is the first thing that went wrong, and no error if nothing did. */
  lemma {:induction false} FirstFaultIsStatus(cfg: Config, t: Tx, es: seq<Event>)
    ensures ErrorOf(Run(cfg, t, es).stat) == if t.Ok() then FirstFault(cfg, t, es) else t.stat
    decreases |es|
  {
    hide FaultOf;
    hide After;
    if es != [] {
      EventShows(cfg, t, es[0]);
      FirstFaultIsStatus(cfg, After(cfg, t, es[0]), es[1..]);
    }
  }

  lemma {:induction false} RunOneMore(cfg: Config, t: Tx, es: seq<Event>, e: Event)
    ensures Run(cfg, t, es + [e]) == After(cfg, Run(cfg, t, es), e)
    decreases |es|
  {
    hide After;
    if es == [] {
      assert [e][1..] == [] && es + [e] == [e];
    } else {
      assert (es + [e])[1..] == es[1..] + [e];
      RunOneMore(cfg, After(cfg, t, es[0]), es[1..], e);
    }
  }

  lemma EofCarriesStatus(cfg: Config, t: Tx, io: TxIo, p: Pdu)
    requires p in Tick(cfg, t, io).sent && p.Eof?
    ensures var u := Tick(cfg, t, io).t; p == Eof(ConditionCode(u.stat), u.file.crc.result, u.fsize)
  {
    hide CheckState;
  }

  /** An EOF that a run sends carries the code of the first thing that went wrong in it. */
  lemma EofCarriesFirstFault(cfg: Config, t: Tx, es: seq<Event>, io: TxIo, p: Pdu)
    requires t.Ok() && p in Tick(cfg, Run(cfg, t, es), io).sent && p.Eof?
    ensures p.cc == ConditionCode(FirstFault(cfg, t, es + [Ticked(io)]))
  {
    var u := Run(cfg, t, es);
    EofCarriesStatus(cfg, u, io, p);
    FirstFaultIsStatus(cfg, t, es + [Ticked(io)]);
    RunOneMore(cfg, t, es, Ticked(io));
    hide Tick;
    hide FirstFault;
    hide Run;
  }

  // ------------------------------------------------------------------ the way to the end

  /** The peer has told all it had to: in class 1 that is a FIN if closure was requested, in class 2 a FIN that has been
      acknowledged. */
  predicate HeardOut(t: Tx) {
    if t.reliable then t.flags.finCount == t.flags.finAckCount != 0
    else !t.com.closeReq || t.flags.finCount != 0
  }

  /** Nobody can still be expected to acknowledge the EOF. */
  predicate EofOver(t: Tx) { t.flags.eofAckRecv || !t.com.ackArmed || t.ackTimer == 0 }

  /** From t in DATA_EOF to u: it goes on to FILESTORE exactly when something is wrong, or, with no EOF left to send,
      the peer has been heard out and, in class 2, the EOF is over; the transfer counts as complete exactly in the
      second case, and in class 2 only if the EOF was acknowledged. */
  predicate Left(t: Tx, u: Tx) {
    && (u.sub.Filestore? <==> !u.Ok() || (!t.flags.sendEof && HeardOut(t) && (t.reliable ==> EofOver(t))))
    && (u.sub.DataEof? || u.sub.Filestore?)
    && (u.com.isComplete <==> t.Ok() && !t.flags.sendEof && HeardOut(t) && (t.reliable ==> t.flags.eofAckRecv))
  }

  lemma LeavesClass1(cfg: Config, t: Tx, io: TxIo)
    requires t.sub.DataEof? && !t.com.isComplete && !t.reliable
    ensures Left(t, CheckState(cfg, AckTimerTick(t), io))
  {
    hide CfCrc.Finalize;
  }

  /** The choice that is made of it. */
  predicate Chosen(t: Tx, c: Choice) {
    && (c.next.Filestore? <==> !c.t.Ok() || (!t.flags.sendEof && HeardOut(t) && EofOver(t)))
    && (c.next.DataEof? || c.next.Filestore?) && c.t.sub.DataEof?
    && (c.t.com.isComplete <==> t.Ok() && !t.flags.sendEof && HeardOut(t) && t.flags.eofAckRecv)
  }

  lemma ChoosesClass2(cfg: Config, t: Tx, io: TxIo)
    requires t.sub.DataEof? && !t.com.isComplete && t.reliable
    ensures Chosen(t, NextState(cfg, AckTimerTick(t), io))
  {
    var s := AckTimerTick(t);
    TimerRan(t);
    hide AckTimerTick;
    if s.Ok() && !s.flags.sendEof {
      ChoosesOrderly(cfg, t, s);
      hide CheckDataEof2;
    }
  }

  /** What a tick of the timer leaves. */
  predicate Ran(t: Tx, s: Tx) {
    && s == t.(ackTimer := s.ackTimer, com := s.com) && s.com.isComplete == t.com.isComplete
    && (s.com.ackArmed <==> t.com.ackArmed && t.ackTimer > 0)
  }

  lemma TimerRan(t: Tx)
    requires t.reliable
    ensures Ran(t, AckTimerTick(t))
  {}

  lemma ChoosesOrderly(cfg: Config, t: Tx, s: Tx)
    requires t.sub.DataEof? && !t.com.isComplete && t.reliable && t.Ok() && !t.flags.sendEof && Ran(t, s)
    ensures Chosen(t, CheckDataEof2(cfg, s))
  {}

  lemma LeavesClass2(cfg: Config, t: Tx, io: TxIo)
    requires t.sub.DataEof? && !t.com.isComplete && t.reliable
    ensures Left(t, CheckState(cfg, AckTimerTick(t), io))
  {
    ChoosesClass2(cfg, t, io);
    assert AckTimerTick(t).sub == t.sub;
    hide NextState;
    hide AckTimerTick;
    hide HeardOut;
    hide EofOver;
    hide CfCrc.Finalize;
  }

  lemma SameLeft(t: Tx, s: Tx, u: Tx, v: Tx)
    requires Left(s, u) && SameStage(u, v) && s.Ok() == t.Ok()
    requires s == t.(inactTimer := s.inactTimer)
    ensures Left(t, v)
  {}

  lemma LeavesDataEof(cfg: Config, t: Tx, io: TxIo)
    requires t.sub.DataEof? && !t.hold && (t.com.inactFired || t.inactTimer > 0) && !t.com.isComplete
    ensures Left(t, Tick(cfg, t, io).t)
  {
    var s := InactTimerTick(t);
    assert s == t.(inactTimer := s.inactTimer);
    hide CheckState;
    hide Maintenance;
    hide Left;
    if t.reliable {
      LeavesClass2(cfg, s, io);
    } else {
      LeavesClass1(cfg, s, io);
    }
    var u := CheckState(cfg, AckTimerTick(s), io);
    MaintenanceStage(cfg, u, io);
    SameLeft(t, s, u, Maintenance(cfg, u, io).t);
  }

  /** A tick of the first pass goes on when all has been sent, and gives up when something is wrong or a FIN came. */
  lemma LeavesDataNormal(cfg: Config, t: Tx, io: TxIo)
    requires t.sub.DataNormal? && !t.hold
    ensures var u := Tick(cfg, t, io).t;
            && u.sub == (if t.file.foffs >= t.fsize then DataEof
                         else if !t.Ok() || t.flags.finCount != 0 then Filestore else DataNormal)
            && !u.hold && u.file.fate == t.file.fate
  {
    hide CheckState;
    hide Maintenance;
    var s := AckTimerTick(InactTimerTick(t));
    LeavesFirstPass(cfg, s, io);
    MaintenanceStage(cfg, CheckState(cfg, s, io), io);
  }

  lemma LeavesFirstPass(cfg: Config, t: Tx, io: TxIo)
    requires t.sub.DataNormal? && !t.hold
    ensures var u := CheckState(cfg, t, io);
            && u.sub == (if t.file.foffs >= t.fsize then DataEof
                         else if !t.Ok() || t.flags.finCount != 0 then Filestore else DataNormal)
            && !u.hold && u.file.fate == t.file.fate
  {
    hide CfCrc.Finalize;
  }

  // ------------------------------------------------------------------ what becomes of the source

  /** The source when the transaction is disposed of, if the file store does what it is asked to.  What failed stays, or
      goes to the directory for failed polls if it came from one; what was transferred stays if it is to be kept or, in
      class 2, the peer did not report it complete and retained; otherwise it is moved away or removed. */
  function FateOf(cfg: Config, t: Tx): Fate {
    if !t.Ok() || !t.com.isComplete then
      if cfg.failDir && !t.flags.cmdTx then MovedToFailDir else t.file.fate
    else if t.keep || (t.reliable && !(t.fin.dc == COMPLETE && t.fin.fs == RETAINED)) then t.file.fate
    else if cfg.moveDir then MovedAway else Removed
  }

  lemma SourceDisposed(cfg: Config, t: Tx, io: TxIo)
    requires t.sub.Filestore? && !t.hold && t.inactTimer > 0
    ensures var u := Tick(cfg, t, io).t;
            && u.file.fate == (if io.fileOk then FateOf(cfg, t) else t.file.fate)
            && u.sub.Complete? && u.hold && !u.file.open
  {
    hide CheckState;
    hide RetentionFate;
    SourceCheck(cfg, AckTimerTick(InactTimerTick(t)), io);
  }

  lemma SourceCheck(cfg: Config, t: Tx, io: TxIo)
    requires t.sub.Filestore?
    ensures var u := CheckState(cfg, t, io);
            && u.file.fate == (if io.fileOk then FateOf(cfg, t) else t.file.fate)
            && u.sub.Complete? && u.hold && !u.file.open
  {}
}
