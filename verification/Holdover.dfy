/** Transactions in HOLD: how long they are kept after their end, and that they still answer a repeated
    FIN or EOF, whose acknowledgement the peer may have missed. */
module Holdover {
  import opened Cfdp
  import opened FirstPass
  import opened NakRound
  import opened Wrappers
  import R = RxSpec
  import T = TxSpec

  // ------------------------------------------------------------------ a receiver

  /** Held, its timer still running. */
  predicate RxHeld(r: R.Rx) { r.hold && !r.com.inactFired }

  /** The same but for what is due to be sent. */
  predicate SameHold(r: R.Rx, u: R.Rx) {
    u.hold == r.hold && u.com.inactFired == r.com.inactFired && u.inactTimer == r.inactTimer
  }

  lemma MaintenanceHolds(cfg: Config, r: R.Rx, io: R.RxIo)
    requires cfg.Valid()
    ensures SameHold(r, R.Maintenance(cfg, r, io).r)
  {
    hide R.NakPdus;
    hide R.FinPdu;
  }

  lemma HeldTick(cfg: Config, r: R.Rx, io: R.RxIo)
    requires cfg.Valid() && r.hold
    ensures var u := R.Tick(cfg, r, io).r;
            && u.hold && (u.com.inactFired <==> r.com.inactFired || r.inactTimer == 0)
            && (!r.com.inactFired && r.inactTimer > 0 ==> u.inactTimer == r.inactTimer - 1)
  {
    hide R.Maintenance;
    MaintenanceHolds(cfg, R.Advance(cfg, r, io), io);
  }

  lemma {:induction false} HeldCounts(cfg: Config, r: R.Rx, ios: seq<R.RxIo>)
    requires cfg.Valid() && r.hold
    ensures R.Recycles(TickAll(cfg, r, ios).r) <==> r.com.inactFired || |ios| > r.inactTimer
    decreases |ios|
  {
    hide R.Tick;
    if ios != [] {
      HeldTick(cfg, r, ios[0]);
      HeldCounts(cfg, R.Tick(cfg, r, ios[0]).r, ios[1..]);
    }
  }

  lemma CheckHolds(cfg: Config, r: R.Rx, io: R.RxIo)
    requires !r.hold
    ensures var u := R.CheckState(cfg, r, io); u.hold ==> u.inactTimer == 2 * cfg.ackTicks
  {
    NextHolds(cfg, r, io);
    hide R.NextState;
  }

  lemma NextHolds(cfg: Config, r: R.Rx, io: R.RxIo)
    ensures R.NextState(cfg, r, io).r.hold == r.hold
  {
    hide R.CheckComplete;
    hide R.CrcLoop;
  }

  lemma EntersHold(cfg: Config, r: R.Rx, io: R.RxIo)
    requires cfg.Valid() && !r.hold
    ensures var u := R.Tick(cfg, r, io).r; u.hold ==> u.inactTimer == 2 * cfg.ackTicks
  {
    hide R.Maintenance;
    hide R.CheckState;
    CheckHolds(cfg, R.AckTimerTick(R.InactTimerTick(r)), io);
    MaintenanceHolds(cfg, R.Advance(cfg, r, io), io);
  }

  /** From the tick that ends a receive transaction on, if its timer has not expired before, it is kept
      for exactly twice the acknowledgement timer's ticks. */
  lemma ReceiverIsKept(cfg: Config, r: R.Rx, io: R.RxIo, ios: seq<R.RxIo>)
    requires cfg.Valid() && !r.hold && RxHeld(R.Tick(cfg, r, io).r)
    ensures R.Recycles(TickAll(cfg, R.Tick(cfg, r, io).r, ios).r) <==> |ios| > 2 * cfg.ackTicks
  {
    hide R.Tick;
    EntersHold(cfg, r, io);
    HeldCounts(cfg, R.Tick(cfg, r, io).r, ios);
  }

  lemma HeldRecv(cfg: Config, r: R.Rx, class2: bool, p: Pdu, io: R.RxIo)
    requires RxHeld(r)
    ensures var u := R.Recv(cfg, r, class2, p, io); RxHeld(u) && u.inactTimer == 2 * cfg.ackTicks
  {}

  /** Any PDU for it begins that time anew. */
  lemma ReceiverIsKeptOn(cfg: Config, r: R.Rx, class2: bool, p: Pdu, io: R.RxIo, ios: seq<R.RxIo>)
    requires cfg.Valid() && RxHeld(r)
    ensures R.Recycles(TickAll(cfg, R.Recv(cfg, r, class2, p, io), ios).r) <==> |ios| > 2 * cfg.ackTicks
  {
    hide R.Recv;
    HeldRecv(cfg, r, class2, p, io);
    HeldCounts(cfg, R.Recv(cfg, r, class2, p, io), ios);
  }

  /** Nothing is due but what comes. */
  predicate RxIdle(r: R.Rx) {
    r.hold && r.reliable && r.flags.eofAckCount == r.flags.eofCount && !r.flags.sendNak && !r.flags.sendFin
  }

  predicate RxQuiet(r: R.Rx) { r.hold && r.reliable && !r.flags.sendNak && !r.flags.sendFin }

  lemma QuietRxRecv(cfg: Config, r: R.Rx, p: Pdu, io: R.RxIo)
    requires RxIdle(r) && UnderLimit(cfg, r.flags.eofCount)
    ensures var u := R.Recv(cfg, r, true, p, io);
            RxQuiet(u) && (u.flags.eofAckCount != u.flags.eofCount <==> p.Eof?)
  {}

  lemma QuietRxTick(cfg: Config, r: R.Rx, io: R.RxIo)
    requires cfg.Valid() && RxQuiet(r)
    ensures var x := R.Tick(cfg, r, io);
            && x.sent == (if io.canSend && r.flags.eofAckCount != r.flags.eofCount then [Ack(DIR_EOF)] else [])
            && RxQuiet(x.r) && (io.canSend || RxIdle(r) ==> RxIdle(x.r))
  {
    hide R.CheckState;
    hide R.NakPdus;
  }

  /** A held class 2 receiver acknowledges a repeated EOF once, and nothing else that arrives. */
  lemma HeldReceiverAnswers(cfg: Config, r: R.Rx, p: Pdu, io: R.RxIo, io2: R.RxIo)
    requires cfg.Valid() && RxIdle(r) && UnderLimit(cfg, r.flags.eofCount) && io.canSend
    ensures var x := R.Tick(cfg, R.Recv(cfg, r, true, p, io), io);
            && x.sent == (if p.Eof? then [Ack(DIR_EOF)] else [])
            && RxIdle(x.r) && R.Tick(cfg, x.r, io2).sent == []
  {
    hide R.Recv;
    hide R.Tick;
    QuietRxRecv(cfg, r, p, io);
    var x := R.Tick(cfg, R.Recv(cfg, r, true, p, io), io);
    QuietRxTick(cfg, R.Recv(cfg, r, true, p, io), io);
    QuietRxTick(cfg, x.r, io2);
  }

  // ------------------------------------------------------------------ a sender

  predicate TxHeld(t: T.Tx) { t.hold && t.sub.Complete? && !t.com.inactFired }

  lemma HeldTxTick(cfg: Config, t: T.Tx, io: T.TxIo)
    requires t.hold && t.sub.Complete?
    ensures var u := T.Tick(cfg, t, io).t;
            && u.hold && u.sub.Complete? && (u.com.inactFired <==> t.com.inactFired || t.inactTimer == 0)
            && (!t.com.inactFired && t.inactTimer > 0 ==> u.inactTimer == t.inactTimer - 1)
  {
    hide T.CheckState;
  }

  lemma {:induction false} HeldTxCounts(cfg: Config, t: T.Tx, ios: seq<T.TxIo>)
    requires t.hold && t.sub.Complete?
    ensures T.Recycles(TxTicks(cfg, t, ios).t) <==> t.com.inactFired || |ios| > t.inactTimer
    decreases |ios|
  {
    hide T.Tick;
    if ios != [] {
      HeldTxTick(cfg, t, ios[0]);
      HeldTxCounts(cfg, T.Tick(cfg, t, ios[0]).t, ios[1..]);
    }
  }

  lemma NextTxHolds(cfg: Config, t: T.Tx, io: T.TxIo)
    ensures T.NextState(cfg, t, io).t.hold == t.hold
  {
    hide T.RetentionFate;
    hide T.CheckDataEof1;
    hide T.CheckDataEof2;
    NextDataHolds(cfg, t);
  }

  lemma NextDataHolds(cfg: Config, t: T.Tx)
    ensures T.CheckDataEof1(t).t.hold == t.hold && T.CheckDataEof2(cfg, t).t.hold == t.hold
  {}

  lemma CheckTxHolds(cfg: Config, t: T.Tx, io: T.TxIo)
    requires !t.hold
    ensures var u := T.CheckState(cfg, t, io); u.hold ==> u.sub.Complete? && u.inactTimer == 2 * cfg.ackTicks
  {
    hide T.NextState;
    NextTxHolds(cfg, t, io);
  }

  lemma MaintenanceTxHolds(cfg: Config, t: T.Tx, io: T.TxIo)
    ensures var u := T.Maintenance(cfg, t, io).t; u.hold == t.hold && u.sub == t.sub && u.inactTimer == t.inactTimer
  {}

  lemma EntersTxHold(cfg: Config, t: T.Tx, io: T.TxIo)
    requires !t.hold
    ensures var u := T.Tick(cfg, t, io).t; u.hold ==> u.sub.Complete? && u.inactTimer == 2 * cfg.ackTicks
  {
    hide T.Maintenance;
    hide T.CheckState;
    var s := T.AckTimerTick(T.InactTimerTick(t));
    CheckTxHolds(cfg, s, io);
    MaintenanceTxHolds(cfg, T.CheckState(cfg, s, io), io);
  }

  /** From the tick that ends a send transaction on, if its timer has not expired before, it is kept for
      exactly twice the acknowledgement timer's ticks. */
  lemma SenderIsKept(cfg: Config, t: T.Tx, io: T.TxIo, ios: seq<T.TxIo>)
    requires !t.hold && TxHeld(T.Tick(cfg, t, io).t)
    ensures T.Recycles(TxTicks(cfg, T.Tick(cfg, t, io).t, ios).t) <==> |ios| > 2 * cfg.ackTicks
  {
    hide T.Tick;
    EntersTxHold(cfg, t, io);
    HeldTxCounts(cfg, T.Tick(cfg, t, io).t, ios);
  }

  lemma HeldTxRecv(cfg: Config, t: T.Tx, class2: bool, p: Pdu)
    requires TxHeld(t)
    ensures var u := T.Recv(cfg, t, class2, p); TxHeld(u) && u.inactTimer == 2 * cfg.ackTicks
  {}

  /** Any PDU for it begins that time anew. */
  lemma SenderIsKeptOn(cfg: Config, t: T.Tx, class2: bool, p: Pdu, ios: seq<T.TxIo>)
    requires TxHeld(t)
    ensures T.Recycles(TxTicks(cfg, T.Recv(cfg, t, class2, p), ios).t) <==> |ios| > 2 * cfg.ackTicks
  {
    hide T.Recv;
    HeldTxRecv(cfg, t, class2, p);
    HeldTxCounts(cfg, T.Recv(cfg, t, class2, p), ios);
  }

  predicate TxIdle(t: T.Tx) {
    && t.hold && t.reliable && t.sub.Complete? && t.flags.finAckCount == t.flags.finCount
    && !t.flags.sendMd && !t.flags.sendEof
  }

  /** Held, with or without an acknowledgement due. */
  predicate TxQuiet(t: T.Tx) { t.hold && t.reliable && t.sub.Complete? && !t.flags.sendMd && !t.flags.sendEof }

  lemma QuietTxRecv(cfg: Config, t: T.Tx, p: Pdu)
    requires TxIdle(t) && UnderLimit(cfg, t.flags.finCount)
    ensures var u := T.Recv(cfg, t, true, p); TxQuiet(u) && (u.flags.finAckCount != u.flags.finCount <==> p.Fin?)
  {}

  lemma QuietTxTick(cfg: Config, t: T.Tx, io: T.TxIo)
    requires TxQuiet(t)
    ensures var x := T.Tick(cfg, t, io);
            && x.sent == (if io.canSend && t.flags.finAckCount != t.flags.finCount then [Ack(DIR_FIN)] else [])
            && TxQuiet(x.t) && (io.canSend || TxIdle(t) ==> TxIdle(x.t))
  {
    hide T.CheckState;
  }

  /** A held class 2 sender acknowledges a repeated FIN once, and nothing else that arrives. */
  lemma HeldSenderAnswers(cfg: Config, t: T.Tx, p: Pdu, io: T.TxIo, io2: T.TxIo)
    requires TxIdle(t) && UnderLimit(cfg, t.flags.finCount) && io.canSend
    ensures var x := T.Tick(cfg, T.Recv(cfg, t, true, p), io);
            && x.sent == (if p.Fin? then [Ack(DIR_FIN)] else [])
            && TxIdle(x.t) && T.Tick(cfg, x.t, io2).sent == []
  {
    hide T.Recv;
    hide T.Tick;
    QuietTxRecv(cfg, t, p);
    var x := T.Tick(cfg, T.Recv(cfg, t, true, p), io);
    QuietTxTick(cfg, T.Recv(cfg, t, true, p), io);
    QuietTxTick(cfg, x.t, io2);
  }
}
