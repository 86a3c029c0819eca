/** Stretches of a run of both parties in which one of them ticks, sends or hears, and what they make of
    the system. */
module Schedule {
  import opened Bytes
  import opened Cfdp
  import opened EndToEnd
  import opened EofRepeat
  import opened FirstPass
  import opened NakRound
  import opened Protocol
  import opened Wrappers
  import R = RxSpec
  import RP = Repair
  import T = TxSpec
  import TR = TxRetransmit

  /** The system when the sender has become t and sent ps besides. */
  function BySender(s: System, t: T.Tx, ps: seq<Pdu>): System { s.(t := t, toRx := s.toRx + Elements(ps)) }

  /** The system when the receiver has become r and sent ps besides. */
  function ByReceiver(s: System, r: R.Rx, ps: seq<Pdu>): System {
    s.(r := Some(r), dst := r.file.store.dst, toTx := s.toTx + Elements(ps))
  }

  lemma BySenderTwice(s: System, t: T.Tx, ps: seq<Pdu>, u: T.Tx, qs: seq<Pdu>)
    ensures BySender(BySender(s, t, ps), u, qs) == BySender(s, u, ps + qs)
  {
    assert Elements(ps + qs) == Elements(ps) + Elements(qs);
  }

  lemma ByReceiverTwice(s: System, r: R.Rx, ps: seq<Pdu>, u: R.Rx, qs: seq<Pdu>)
    ensures ByReceiver(ByReceiver(s, r, ps), u, qs) == ByReceiver(s, u, ps + qs)
  {
    assert Elements(ps + qs) == Elements(ps) + Elements(qs);
  }

  // ------------------------------------------------------------------ the sender

  function TxTickEvents(ios: seq<T.TxIo>): seq<Event> {
    if ios == [] then [] else [TxTick(ios[0])] + TxTickEvents(ios[1..])
  }

  function DataEvents(ios: seq<T.TxIo>): seq<Event> {
    if ios == [] then [] else [TxData(ios[0])] + DataEvents(ios[1..])
  }

  function NakEvents(ios: seq<T.TxIo>): seq<Event> {
    if ios == [] then [] else [TxNak(ios[0])] + NakEvents(ios[1..])
  }

  lemma OneTxTick(cfg: Config, s: System, io: T.TxIo)
    requires cfg.Valid() && !s.recycled && !T.Recycles(T.Tick(cfg, s.t, io).t)
    ensures var x := T.Tick(cfg, s.t, io); Step(cfg, s, TxTick(io)) == BySender(s, x.t, x.sent)
  {
    hide T.Tick;
    hide T.Recycles;
  }

  lemma {:induction false} TxTicksRun(cfg: Config, s: System, ios: seq<T.TxIo>)
    requires cfg.Valid() && !s.recycled && StaysUp(cfg, s.t, ios)
    ensures var x := TxTicks(cfg, s.t, ios);
            Run(cfg, s, TxTickEvents(ios)) == Some(BySender(s, x.t, x.sent))
    decreases |ios|
  {
    hide T.Tick;
    hide T.Recycles;
    hide BySender;
    hide Step;
    if ios == [] {
      Untouched(s);
    } else {
      var x := T.Tick(cfg, s.t, ios[0]);
      var u := Step(cfg, s, TxTick(ios[0]));
      OneTxTick(cfg, s, ios[0]);
      SenderFields(s, x.t, x.sent);
      TxTicksRun(cfg, u, ios[1..]);
      Ahead(cfg, s, TxTick(ios[0]), TxTickEvents(ios[1..]));
      var rest := TxTicks(cfg, x.t, ios[1..]);
      BySenderTwice(s, x.t, x.sent, rest.t, rest.sent);
    }
  }

  lemma Untouched(s: System)
    ensures BySender(s, s.t, []) == s
  {}

  lemma SenderFields(s: System, t: T.Tx, ps: seq<Pdu>)
    ensures var u := BySender(s, t, ps); u.t == t && u.recycled == s.recycled
  {}

  lemma {:induction false} PassRun(cfg: Config, s: System, ios: seq<T.TxIo>)
    requires cfg.Valid() && !s.recycled
    ensures var x := PassAll(cfg, s.t, ios);
            Run(cfg, s, DataEvents(ios)) == Some(BySender(s, x.t, x.sent))
    decreases |ios|
  {
    hide T.TickNewData;
    hide BySender;
    if ios == [] {
      Untouched(s);
    } else {
      var x := T.TickNewData(cfg, s.t, ios[0]);
      var u := Step(cfg, s, TxData(ios[0]));
      OneTxData(cfg, s, ios[0]);
      hide Step;
      SenderFields(s, x.t, x.sent);
      PassRun(cfg, u, ios[1..]);
      Ahead(cfg, s, TxData(ios[0]), DataEvents(ios[1..]));
      var rest := PassAll(cfg, x.t, ios[1..]);
      BySenderTwice(s, x.t, x.sent, rest.t, rest.sent);
    }
  }

  lemma OneTxData(cfg: Config, s: System, io: T.TxIo)
    requires cfg.Valid() && !s.recycled
    ensures var x := T.TickNewData(cfg, s.t, io); Step(cfg, s, TxData(io)) == BySender(s, x.t, x.sent)
    ensures var x := T.TickNak(cfg, s.t, io); Step(cfg, s, TxNak(io)) == BySender(s, x.t, x.sent)
  {
    hide T.TickNewData;
    hide T.TickNak;
  }

  lemma {:induction false} DrainRun(cfg: Config, s: System, ios: seq<T.TxIo>)
    requires cfg.Valid() && !s.recycled
    ensures var x := TR.Drain(cfg, s.t, ios);
            Run(cfg, s, NakEvents(ios)) == Some(BySender(s, x.t, x.sent))
    decreases |ios|
  {
    hide T.TickNak;
    hide BySender;
    if ios == [] {
      Untouched(s);
    } else {
      var x := T.TickNak(cfg, s.t, ios[0]);
      var u := Step(cfg, s, TxNak(ios[0]));
      OneTxData(cfg, s, ios[0]);
      hide Step;
      SenderFields(s, x.t, x.sent);
      DrainRun(cfg, u, ios[1..]);
      Ahead(cfg, s, TxNak(ios[0]), NakEvents(ios[1..]));
      var rest := TR.Drain(cfg, x.t, ios[1..]);
      BySenderTwice(s, x.t, x.sent, rest.t, rest.sent);
    }
  }

  /** One PDU that is on its way reaches the sender. */
  lemma TxHears(cfg: Config, s: System, p: Pdu)
    requires cfg.Valid() && !s.recycled && p in s.toTx
    ensures Run(cfg, s, [TxRecv(p, true)]) == Some(BySender(s, T.Recv(cfg, s.t, true, p), []))
  {
    hide T.Recv;
    RunOne(cfg, s, TxRecv(p, true));
    assert Elements([]) == {};
  }

  // ------------------------------------------------------------------ the receiver

  /** No tick of them is the last of the transaction. */
  predicate RxStaysUp(cfg: Config, r: R.Rx, ios: seq<R.RxIo>)
    requires cfg.Valid()
    decreases |ios|
  {
    ios == [] || (!R.Recycles(R.Tick(cfg, r, ios[0]).r) && RxStaysUp(cfg, R.Tick(cfg, r, ios[0]).r, ios[1..]))
  }

  lemma OneRxTick(cfg: Config, s: System, io: R.RxIo)
    requires cfg.Valid() && s.r.Some? && !R.Recycles(R.Tick(cfg, s.r.value, io).r)
    ensures var x := R.Tick(cfg, s.r.value, io); Step(cfg, s, RxTick(io)) == ByReceiver(s, x.r, x.sent)
  {
    hide R.Tick;
    hide R.Recycles;
  }

  lemma ReceiverFields(s: System, r: R.Rx, ps: seq<Pdu>)
    ensures var u := ByReceiver(s, r, ps); u.r == Some(r) && u.recycled == s.recycled && u.dst == r.file.store.dst
  {}

  lemma StillThere(s: System)
    requires s.r.Some? && s.dst == s.r.value.file.store.dst
    ensures ByReceiver(s, s.r.value, []) == s
  {}

  lemma {:induction false} RxTicksRun(cfg: Config, s: System, ios: seq<R.RxIo>)
    requires cfg.Valid() && s.r.Some? && s.dst == s.r.value.file.store.dst && RxStaysUp(cfg, s.r.value, ios)
    ensures var x := TickAll(cfg, s.r.value, ios);
            Run(cfg, s, RxTicks(ios)) == Some(ByReceiver(s, x.r, x.sent))
    decreases |ios|
  {
    hide R.Tick;
    hide R.Recycles;
    hide ByReceiver;
    hide Step;
    if ios == [] {
      StillThere(s);
    } else {
      var x := R.Tick(cfg, s.r.value, ios[0]);
      var u := Step(cfg, s, RxTick(ios[0]));
      OneRxTick(cfg, s, ios[0]);
      ReceiverFields(s, x.r, x.sent);
      RxTicksRun(cfg, u, ios[1..]);
      Ahead(cfg, s, RxTick(ios[0]), RxTicks(ios[1..]));
      var rest := TickAll(cfg, x.r, ios[1..]);
      ByReceiverTwice(s, x.r, x.sent, rest.r, rest.sent);
    }
  }

  /** One PDU that is on its way reaches the receiver, or starts one. */
  lemma RxHears(cfg: Config, s: System, p: Pdu, io: R.RxIo, stat: int)
    requires cfg.Valid() && p in s.toRx
    ensures Run(cfg, s, [RxRecv(p, true, io, stat, true)]) ==
            Some(ByReceiver(s, R.Recv(cfg, Receiver(cfg, s, true, stat, true), true, p, io), []))
  {
    hide R.Recv;
    hide Receiver;
    RunOne(cfg, s, RxRecv(p, true, io, stat, true));
    assert Elements([]) == {};
  }

  lemma {:induction false} RxHearsAll(cfg: Config, s: System, ps: seq<Pdu>, io: R.RxIo, stat: int)
    requires cfg.Valid() && s.r.Some? && s.dst == s.r.value.file.store.dst && forall p :: p in ps ==> p in s.toRx
    ensures Run(cfg, s, Deliver(ps, io, stat)) ==
            Some(ByReceiver(s, RP.ReceiveAll(cfg, s.r.value, ps, io), []))
    decreases |ps|
  {
    hide R.Recv;
    if ps == [] {
      StillThere(s);
    } else {
      RxHears(cfg, s, ps[0], io, stat);
      var e := RxRecv(ps[0], true, io, stat, true);
      var r := R.Recv(cfg, s.r.value, true, ps[0], io);
      var u := Step(cfg, s, e);
      RunOne(cfg, s, e);
      hide Step;
      ReceiverFields(s, r, []);
      assert u.toRx == s.toRx;
      RxHearsAll(cfg, u, ps[1..], io, stat);
      Ahead(cfg, s, e, Deliver(ps[1..], io, stat));
      ByReceiverTwice(s, r, [], RP.ReceiveAll(cfg, r, ps[1..], io), []);
      var none: seq<Pdu> := [];
      assert none + none == none;
    }
  }
}
