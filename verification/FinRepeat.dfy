/** The FIN until it is acknowledged: the receiver of a class 2 transaction repeats it once a timer period, up to
    the limit, and the acknowledgement, or the limit, completes it. */
module FinRepeat {
  import opened Cfdp
  import opened NakRound
  import CfCrc
  import R = RxSpec
  import T = TxSpec

  /** In FINACK with its FIN out and not acknowledged, and nothing else to be sent.  Whether the transaction is in
      order, and what its FIN says, is left open. */
  predicate Reporting(r: R.Rx) {
    && !r.hold && r.reliable && r.sub.FinAck? && !r.com.inactFired && r.com.ackArmed
    && !r.flags.sendFin && !r.flags.sendNak && !r.flags.finackRecv && r.flags.eofAckCount == r.flags.eofCount
  }

  lemma SilentTick(cfg: Config, r: R.Rx, io: R.RxIo)
    requires cfg.Valid() && Reporting(r) && r.ackTimer > 0 && r.inactTimer > 0
    ensures R.Tick(cfg, r, io) == R.Sending(r.(ackTimer := r.ackTimer - 1, inactTimer := r.inactTimer - 1), [])
  {
    hide R.NakPdus;
    hide R.FinPdu;
  }

  lemma RepeatTick(cfg: Config, r: R.Rx, io: R.RxIo)
    requires cfg.Valid() && Reporting(r) && r.ackTimer == 0 && r.inactTimer > 0 && io.canSend
    requires UnderLimit(cfg, r.acknak)
    ensures R.Tick(cfg, r, io) ==
            R.Sending(r.(ackTimer := cfg.ackTicks, inactTimer := r.inactTimer - 1, acknak := r.acknak + 1),
                      [R.FinPdu(r)])
  {
    hide R.NakPdus;
  }

  /** At the limit the transaction completes without an answer. */
  lemma GivesUp(cfg: Config, r: R.Rx, io: R.RxIo)
    requires cfg.Valid() && Reporting(r) && r.ackTimer == 0 && r.inactTimer > 0 && r.acknak >= cfg.ackLimit
    ensures var x := R.Tick(cfg, r, io);
            x.sent == [] && x.r.sub.Complete? && x.r.hold && x.r.file.store == r.file.store && x.r.reports == r.reports
  {
    hide R.NakPdus;
    hide R.FinPdu;
  }

  /** A period of the timer sends the FIN once, with the same codes, at its end, counts it and starts the next
      period. */
  lemma {:induction false} RepeatsFin(cfg: Config, r: R.Rx, ios: seq<R.RxIo>)
    requires cfg.Valid() && Reporting(r) && r.inactTimer > r.ackTimer && UnderLimit(cfg, r.acknak)
    requires |ios| == r.ackTimer + 1 && ios[r.ackTimer].canSend
    ensures TickAll(cfg, r, ios) ==
            R.Sending(r.(ackTimer := cfg.ackTicks, inactTimer := r.inactTimer - |ios|, acknak := r.acknak + 1),
                      [Fin(ConditionCode(r.stat), r.reports.finDc % 2, r.reports.finFs % 4)])
    decreases |ios|
  {
    if r.ackTimer == 0 {
      RepeatTick(cfg, r, ios[0]);
      hide R.Tick;
      assert ios[1..] == [];
    } else {
      SilentTick(cfg, r, ios[0]);
      hide R.Tick;
      RepeatsFin(cfg, r.(ackTimer := r.ackTimer - 1, inactTimer := r.inactTimer - 1), ios[1..]);
    }
  }

  function Copies(p: Pdu, n: nat): seq<Pdu> { if n == 0 then [] else [p] + Copies(p, n - 1) }

  function Periods(cfg: Config, n: nat): nat { if n == 0 then 0 else cfg.ackTicks + 1 + Periods(cfg, n - 1) }

  /** The ticks to the limit: what is left of this period, and a period for each FIN that may still be sent. */
  function ToLimit(cfg: Config, ackTimer: nat, acknak: nat): nat
    requires acknak <= cfg.ackLimit
  {
    ackTimer + 1 + Periods(cfg, cfg.ackLimit - acknak)
  }

  lemma ToLimitNext(cfg: Config, acknak: nat)
    requires acknak < cfg.ackLimit
    ensures ToLimit(cfg, 0, acknak) == 1 + ToLimit(cfg, cfg.ackTicks, acknak + 1)
  {}

  /** If no acknowledgement ever comes, as when the only one that counts was lost, the FIN goes out again as often
      as the limit allows, always the same, and then the transaction completes, the file and its report unchanged. */
  lemma {:induction false} EndsWithoutAnswer(cfg: Config, r: R.Rx, ios: seq<R.RxIo>)
    requires cfg.Valid() && Reporting(r) && r.acknak <= cfg.ackLimit && r.inactTimer >= |ios|
    requires |ios| == ToLimit(cfg, r.ackTimer, r.acknak)
    requires forall io :: io in ios ==> io.canSend
    ensures var x := TickAll(cfg, r, ios);
            && x.sent == Copies(R.FinPdu(r), cfg.ackLimit - r.acknak)
            && x.r.sub.Complete? && x.r.hold && x.r.file.store == r.file.store && x.r.reports == r.reports
    decreases |ios|
  {
    hide R.Tick;
    hide ToLimit;
    TicksLeft(cfg, r.ackTimer, r.acknak);
    var io, rest := ios[0], ios[1..];
    assert io in ios && forall i :: i in rest ==> i in ios;
    if r.ackTimer > 0 {
      SilentTick(cfg, r, io);
      EndsWithoutAnswer(cfg, r.(ackTimer := r.ackTimer - 1, inactTimer := r.inactTimer - 1), rest);
    } else if r.acknak < cfg.ackLimit {
      RepeatTick(cfg, r, io);
      ToLimitNext(cfg, r.acknak);
      var next := r.(ackTimer := cfg.ackTicks, inactTimer := r.inactTimer - 1, acknak := r.acknak + 1);
      EndsWithoutAnswer(cfg, next, rest);
    } else {
      GivesUp(cfg, r, io);
      assert rest == [];
    }
  }

  lemma TicksLeft(cfg: Config, ackTimer: nat, acknak: nat)
    requires acknak <= cfg.ackLimit
    ensures ToLimit(cfg, ackTimer, acknak) >= 1
    ensures ackTimer > 0 ==> ToLimit(cfg, ackTimer - 1, acknak) == ToLimit(cfg, ackTimer, acknak) - 1
    ensures ackTimer == 0 && acknak == cfg.ackLimit ==> ToLimit(cfg, ackTimer, acknak) == 1
  {}

  /** The acknowledgement completes it with its next tick. */
  lemma AckCompletes(cfg: Config, r: R.Rx, rio: R.RxIo, io: R.RxIo)
    requires cfg.Valid() && Reporting(r)
    ensures var x := R.Tick(cfg, R.Recv(cfg, r, true, Ack(DIR_FIN), rio), io);
            x.r.sub.Complete? && x.r.hold && x.r.file.store == r.file.store && x.r.reports == r.reports
  {
    AckNoted(cfg, r, rio);
    var u := R.Recv(cfg, r, true, Ack(DIR_FIN), rio);
    hide R.Recv;
    Completes(cfg, u, io);
    hide R.Tick;
  }

  lemma AckNoted(cfg: Config, r: R.Rx, rio: R.RxIo)
    requires Reporting(r)
    ensures R.Recv(cfg, r, true, Ack(DIR_FIN), rio) ==
            r.(flags := r.flags.(finackRecv := true), ackTimer := cfg.ackTicks, inactTimer := cfg.inactTicks)
  {}

  predicate Closed(r: R.Rx, u: R.Rx) {
    u.sub.Complete? && u.hold && u.file.store == r.file.store && u.reports == r.reports
  }

  lemma Closes(cfg: Config, r: R.Rx, io: R.RxIo)
    requires r.sub.FinAck? && !r.flags.sendFin && r.flags.finackRecv
    ensures Closed(r, R.CheckState(cfg, r, io))
  {}

  lemma Completes(cfg: Config, r: R.Rx, io: R.RxIo)
    requires cfg.Valid() && !r.hold && r.sub.FinAck? && !r.flags.sendFin && r.flags.finackRecv
    ensures var x := R.Tick(cfg, r, io);
            x.r.sub.Complete? && x.r.hold && x.r.file.store == r.file.store && x.r.reports == r.reports
  {
    Closes(cfg, R.AckTimerTick(R.InactTimerTick(r)), io);
    hide R.CheckState;
    hide R.NakPdus;
    hide R.FinPdu;
  }

  /** A class 2 sender in DATA_EOF puts the first FIN on record, with its codes. */
  lemma FinRecorded(cfg: Config, t: T.Tx, cc: nat, dc: nat, fs: nat)
    requires t.reliable && !t.hold && !t.sub.DataNormal? && t.flags.finCount == 0 && cfg.ackLimit > 0
    ensures var u := T.Recv(cfg, t, true, Fin(cc, dc, fs));
            && u.flags.finCount == 1 && u.fin == T.Report(cc, dc, fs)
            && u.stat == (if t.Ok() then cc else t.stat)
  {}

  /** Whatever its state, held or not, a class 2 sender acknowledges each FIN with its next tick that can send and has
      nothing more urgent to send, as long as the limit on FINs is not reached. */
  lemma FinIsAcked(cfg: Config, t: T.Tx, cc: nat, dc: nat, fs: nat, io: T.TxIo)
    requires t.reliable && t.flags.finAckCount <= t.flags.finCount && UnderLimit(cfg, t.flags.finCount)
    requires !t.flags.sendMd && !t.flags.sendEof && (t.sub.DataEof? || t.sub.Complete?) && io.canSend
    ensures var x := T.Tick(cfg, T.Recv(cfg, t, true, Fin(cc, dc, fs)), io);
            x.sent == [Ack(DIR_FIN)] && x.t.flags.finAckCount == x.t.flags.finCount == t.flags.finCount + 1
  {
    FinCounted(cfg, t, cc, dc, fs);
    var u := T.Recv(cfg, t, true, Fin(cc, dc, fs));
    hide T.Recv;
    AcksFin(cfg, u, io);
    hide T.Tick;
  }

  /** One more FIN, and nothing else that matters here. */
  predicate OneMore(t: T.Tx, u: T.Tx) {
    && u.reliable == t.reliable && u.sub == t.sub && u.hold == t.hold
    && u.flags.finCount == t.flags.finCount + 1 && u.flags.finAckCount == t.flags.finAckCount
    && u.flags.sendMd == t.flags.sendMd && u.flags.sendEof == t.flags.sendEof
  }

  lemma RecvFinCounts(cfg: Config, t: T.Tx, cc: nat, dc: nat, fs: nat)
    requires UnderLimit(cfg, t.flags.finCount)
    ensures OneMore(t, T.RecvFin(cfg, t, cc, dc, fs))
  {
    var u := t.(fin := T.Report(cc, dc, fs)).SetStat(cc);
    var v := if t.flags.finCount == 0 then u else t;
    assert v.flags == t.flags && v.reliable == t.reliable && v.sub == t.sub && v.hold == t.hold;
    assert T.RecvFin(cfg, t, cc, dc, fs) == v.(flags := v.flags.(finCount := v.flags.finCount + 1));
    hide T.RecvFin;
  }

  lemma FinCounted(cfg: Config, t: T.Tx, cc: nat, dc: nat, fs: nat)
    requires t.reliable && UnderLimit(cfg, t.flags.finCount) && !t.sub.DataNormal?
    ensures OneMore(t, T.Recv(cfg, t, true, Fin(cc, dc, fs)))
  {
    RecvFinCounts(cfg, t, cc, dc, fs);
    hide T.RecvFin;
    hide T.EarlyFin;
  }

  predicate SameDuties(t: T.Tx, u: T.Tx) { u.flags == t.flags && u.reliable == t.reliable }

  lemma CheckStateDuties(cfg: Config, t: T.Tx, io: T.TxIo)
    requires t.reliable && t.flags.finAckCount != t.flags.finCount && (t.sub.DataEof? || t.sub.Complete?)
    ensures SameDuties(t, T.CheckState(cfg, t, io))
  {
    hide CfCrc.Finalize;
  }

  lemma AcksFin(cfg: Config, t: T.Tx, io: T.TxIo)
    requires t.reliable && t.flags.finAckCount != t.flags.finCount && !t.flags.sendMd && !t.flags.sendEof && io.canSend
    requires t.sub.DataEof? || t.sub.Complete?
    ensures var x := T.Tick(cfg, t, io);
            x.sent == [Ack(DIR_FIN)] && x.t.flags == t.flags.(finAckCount := t.flags.finCount)
  {
    var s := T.AckTimerTick(T.InactTimerTick(t));
    assert SameDuties(t, T.InactTimerTick(t)) && SameDuties(t, s) && s.sub == t.sub;
    CheckStateDuties(cfg, s, io);
    hide T.InactTimerTick;
    hide T.AckTimerTick;
    hide T.CheckState;
  }

  /** But what a held sender sends arrives in class 1 mode, and a class 2 receiver does not take an acknowledgement
      in that mode: all it does is restart the inactivity timer. */
  lemma HeldAckIsIgnored(cfg: Config, r: R.Rx, p: Pdu, io: R.RxIo)
    requires r.reliable
    ensures R.Recv(cfg, r, false, p, io) == R.ArmInact(cfg, r)
  {}
}
