/** One class 2 transaction between a sender and a receiver over a channel that may lose,
    duplicate and reorder PDUs but neither corrupts nor invents them: every PDU ever sent may be
    delivered at any time, any number of times, or never. */
module Protocol {
  import opened Bytes
  import opened Cfdp
  import opened Wrappers
  import CfCrc
  import R = RxSpec
  import RS = RxSafety
  import T = TxSpec
  import TR = TxRetransmit
  import TS = TxSafety
  import U = Unfinished

  /** The receiver has no transaction until a first PDU arrives, and none again after recycling;
      the file it moved into place stays.  toRx and toTx hold every PDU sent so far. */
  datatype System = System(t: T.Tx, recycled: bool, r: Option<R.Rx>, dst: Option<Bytes>, toRx: set<Pdu>, toTx: set<Pdu>)

  datatype Event =
    | TxTick(tio: T.TxIo)
    | TxNak(tio: T.TxIo)
    | TxData(tio: T.TxIo)
    | TxRecv(p: Pdu, class2: bool)
    | TxCancel
    | RxTick(rio: R.RxIo)
    | RxRecv(p: Pdu, class2: bool, rio: R.RxIo, stat: int, openOk: bool)
    | RxCancel

  /** Only PDUs that were sent are delivered; in which class mode, is left open: a transaction in HOLD
      sends in that of class 1, whatever its class. */
  predicate Possible(s: System, e: Event) {
    match e
    case TxRecv(p, _) => p in s.toTx
    case RxRecv(p, _, _, _, _) => p in s.toRx
    case _ => true
  }

  function Elements(ps: seq<Pdu>): set<Pdu> { set p | p in ps }

  function SendFrom(s: System, x: T.Sending): System {
    s.(t := x.t, toRx := s.toRx + Elements(x.sent))
  }

  function StoreOf(s: System, r: R.Rx): System { s.(r := Some(r), dst := r.file.store.dst) }

  function ReplyFrom(s: System, x: R.Sending): System {
    var s' := StoreOf(s, x.r).(toTx := s.toTx + Elements(x.sent));
    if R.Recycles(x.r) then s'.(r := None) else s'
  }

  /** The transaction a PDU finds, or the one it starts. */
  function Receiver(cfg: Config, s: System, class2: bool, stat: int, openOk: bool): R.Rx {
    if s.r.Some? then s.r.value else R.Setup(cfg, class2, stat, openOk, s.dst)
  }

  function Step(cfg: Config, s: System, e: Event): System
    requires cfg.Valid()
  {
    match e
    case TxTick(io) =>
      if s.recycled then s
      else
        var x := T.Tick(cfg, s.t, io);
        SendFrom(s, x).(recycled := T.Recycles(x.t))
    case TxNak(io) => if s.recycled then s else SendFrom(s, T.TickNak(cfg, s.t, io))
    case TxData(io) => if s.recycled then s else SendFrom(s, T.TickNewData(cfg, s.t, io))
    case TxRecv(p, class2) => if s.recycled then s else s.(t := T.Recv(cfg, s.t, class2, p))
    case TxCancel => if s.recycled then s else s.(t := T.Cancel(s.t))
    case RxTick(io) => if s.r.None? then s else ReplyFrom(s, R.Tick(cfg, s.r.value, io))
    case RxRecv(p, class2, io, stat, openOk) =>
      StoreOf(s, R.Recv(cfg, Receiver(cfg, s, class2, stat, openOk), class2, p, io))
    case RxCancel => if s.r.Some? then s.(r := Some(R.Cancel(s.r.value))) else s
  }

  /** Where a sequence of events leads, if every one of them is possible in its turn. */
  function Run(cfg: Config, s: System, es: seq<Event>): Option<System>
    requires cfg.Valid()
    decreases |es|
  {
    if es == [] then Some(s)
    else if !Possible(s, es[0]) then None
    else Run(cfg, Step(cfg, s, es[0]), es[1..])
  }

  /** A good EOF has been sent. */
  predicate Announced(s: System) { exists p :: p in s.toRx && U.GoodEof(p) }

  /** A retransmission of an announced file does not skip its seek while the source stands
      elsewhere. */
  predicate Placed(s: System, e: Event) {
    e.TxNak? && !s.recycled && Announced(s) ==> TS.NakPlaced(s.t, e.tio)
  }

  /** Every event of the run is like that.  Nothing else is asked of the file systems: reads and
      writes may fail, or move any part of what was asked for. */
  predicate AllPlaced(cfg: Config, s: System, es: seq<Event>)
    requires cfg.Valid()
    decreases |es|
  {
    es == [] || (Placed(s, es[0]) && AllPlaced(cfg, Step(cfg, s, es[0]), es[1..]))
  }

  /** No retransmission of an announced file reads some but not all of what it asked for. */
  predicate Whole(cfg: Config, s: System, e: Event) {
    e.TxNak? && !s.recycled && Announced(s) ==> !TR.ShortNak(cfg, s.t, e.tio)
  }

  predicate AllWhole(cfg: Config, s: System, es: seq<Event>)
    requires cfg.Valid()
    decreases |es|
  {
    es == [] || (Whole(cfg, s, es[0]) && AllWhole(cfg, Step(cfg, s, es[0]), es[1..]))
  }

  function Init(cfg: Config, src: Bytes, keep: bool, cmdTx: bool, closeReq: bool): System {
    System(T.Setup(cfg, true, keep, cmdTx, closeReq, src), false, None, None, {}, {})
  }

  // ------------------------------------------------------------------ the invariant

  /** A report of a retained file is only on the channel once the source is in place. */
  predicate RetainedTrue(src: Bytes, dst: Option<Bytes>, toTx: set<Pdu>) {
    forall p :: p in toTx && p.Fin? && p.fs == RETAINED ==> dst == Some(src)
  }

  predicate AllHonest(src: Bytes, ps: set<Pdu>) {
    forall p :: p in ps ==> RS.Honest(src, p)
  }

  ghost predicate Honest(cfg: Config, src: Bytes, keep: bool, s: System) {
    && s.t.reliable && s.t.keep == keep
    && TS.Inv(cfg, src, s.toTx, s.t)
    && (s.r.Some? ==> RS.Inv(cfg, src, s.r.value) && s.r.value.file.store.dst == s.dst)
    && AllHonest(src, s.toRx)
    && RetainedTrue(src, s.dst, s.toTx)
    && s.dst in {None, Some(src)}
  }

  /** Nothing was kept, and nobody was told otherwise. */
  predicate NothingKept(s: System) {
    s.dst == None && forall p :: p in s.toTx ==> !U.SaysRetained(p)
  }

  /** There is no EOF yet, and so no NAK. */
  predicate Starting(s: System) {
    && U.Unasked(s.t) && NothingKept(s) && (s.r.Some? ==> U.Early(s.r.value))
    && (forall p :: p in s.toRx ==> !p.Eof?) && (forall p :: p in s.toTx ==> !p.Nak?)
  }

  /** A first pass that failed: the sender has lost its place and may send anything, but no good
      EOF will ever come, and nothing is kept. */
  predicate Aborted(keep: bool, s: System) {
    && s.t.reliable && s.t.keep == keep && U.Failed(s.t) && NothingKept(s)
    && (s.r.Some? ==> U.Barren(s.r.value) && s.r.value.file.store.dst == None)
    && forall p :: p in s.toRx ==> !U.GoodEof(p)
  }

  /** All that is on the channel is true of the source. */
  ghost predicate Sound(cfg: Config, src: Bytes, keep: bool, s: System) {
    Honest(cfg, src, keep, s) && (Starting(s) || (Announced(s) && !s.t.sub.DataNormal?))
  }

  ghost predicate Inv(cfg: Config, src: Bytes, keep: bool, s: System) {
    Sound(cfg, src, keep, s) || Aborted(keep, s)
  }

  /** Sound, with the source where the sender believes it to be; or aborted. */
  ghost predicate Straight(cfg: Config, src: Bytes, keep: bool, s: System) {
    (Sound(cfg, src, keep, s) && TR.AtPlace(s.t.file)) || Aborted(keep, s)
  }

  lemma SendKeeps(cfg: Config, src: Bytes, keep: bool, s: System, x: T.Sending)
    requires Honest(cfg, src, keep, s) && TS.SameTerms(s.t, x.t)
    requires TS.Inv(cfg, src, s.toTx, x.t) && TS.SentTrue(src, x.sent)
    ensures Honest(cfg, src, keep, SendFrom(s, x))
  {
    hide TS.Inv;
    hide RS.Inv;
    hide RS.Honest;
  }

  lemma ReplyKeeps(cfg: Config, src: Bytes, keep: bool, s: System, x: R.Sending)
    requires Honest(cfg, src, keep, s) && RS.Inv(cfg, src, x.r)
    requires x.r.file.store.dst in {s.dst, Some(src)}
    requires forall p :: p in x.sent && p.Fin? && p.fs == RETAINED ==> x.r.file.store.dst == Some(src)
    ensures Honest(cfg, src, keep, ReplyFrom(s, x))
  {
    TS.MoreGot(cfg, src, s.toTx, s.toTx + Elements(x.sent), s.t);
    hide TS.Inv;
    hide RS.Inv;
    hide RS.Honest;
  }

  lemma TxStepKeeps(cfg: Config, src: Bytes, keep: bool, s: System, e: Event)
    requires cfg.Valid() && Honest(cfg, src, keep, s) && Possible(s, e) && (e.TxTick? || e.TxNak? || e.TxData?)
    requires e.TxNak? && !s.recycled ==> TS.NakPlaced(s.t, e.tio)
    requires s.t.sub.DataNormal? ==> s.t.file.pos == s.t.file.cachedPos
    ensures Honest(cfg, src, keep, Step(cfg, s, e))
  {
    hide TS.Inv;
    hide RS.Inv;
    hide RS.Honest;
    hide T.Tick;
    hide T.TickNak;
    hide T.TickNewData;
    assert TS.Inv(cfg, src, s.toTx, s.t);
    var io := e.tio;
    if s.recycled {
      return;
    }
    match e {
      case TxTick(_) =>
        TS.TickKeeps(cfg, src, s.toTx, s.t, io);
        TS.TickKeepsTerms(cfg, s.t, io);
        SendKeeps(cfg, src, keep, s, T.Tick(cfg, s.t, io));
      case TxNak(_) =>
        TS.TickNakKeeps(cfg, src, s.toTx, s.t, io);
        TS.SendKeepsTerms(cfg, s.t, io);
        SendKeeps(cfg, src, keep, s, T.TickNak(cfg, s.t, io));
      case TxData(_) =>
        TS.TickNewDataKeeps(cfg, src, s.toTx, s.t, io);
        TS.SendKeepsTerms(cfg, s.t, io);
        SendKeeps(cfg, src, keep, s, T.TickNewData(cfg, s.t, io));
    }
  }

  lemma TxInputKeeps(cfg: Config, src: Bytes, keep: bool, s: System, e: Event)
    requires cfg.Valid() && Honest(cfg, src, keep, s) && Possible(s, e) && (e.TxRecv? || e.TxCancel?)
    ensures Honest(cfg, src, keep, Step(cfg, s, e))
  {
    hide TS.Inv;
    hide RS.Inv;
    hide RS.Honest;
    hide T.Recv;
    if e.TxRecv? {
      TS.RecvKeeps(cfg, src, s.toTx, s.t, e.class2, e.p);
      TS.RecvKeepsTerms(cfg, s.t, e.class2, e.p);
    } else {
      TS.CancelKeeps(cfg, src, s.toTx, s.t);
    }
  }

  lemma ReceiverHolds(cfg: Config, src: Bytes, keep: bool, s: System, class2: bool, stat: int, openOk: bool)
    requires Honest(cfg, src, keep, s)
    ensures RS.Inv(cfg, src, Receiver(cfg, s, class2, stat, openOk))
    ensures Receiver(cfg, s, class2, stat, openOk).file.store.dst == s.dst
  {
    hide TS.Inv;
    hide RS.Inv;
    hide R.Setup;
    RS.SetupHolds(cfg, src, class2, stat, openOk, s.dst);
  }

  lemma RxStepKeeps(cfg: Config, src: Bytes, keep: bool, s: System, e: Event)
    requires cfg.Valid() && Honest(cfg, src, keep, s) && Possible(s, e) && (e.RxTick? || e.RxRecv? || e.RxCancel?)
    ensures Honest(cfg, src, keep, Step(cfg, s, e))
  {
    hide TS.Inv;
    hide RS.Inv;
    hide RS.Honest;
    hide R.Recv;
    hide R.Tick;
    hide R.Cancel;
    hide Receiver;
    match e {
      case RxTick(io) =>
        if s.r.Some? {
          RS.TickKeeps(cfg, src, s.r.value, io);
          ReplyKeeps(cfg, src, keep, s, R.Tick(cfg, s.r.value, io));
        }
      case RxRecv(p, class2, io, stat, openOk) =>
        var r := Receiver(cfg, s, class2, stat, openOk);
        ReceiverHolds(cfg, src, keep, s, class2, stat, openOk);
        RS.RecvKeeps(cfg, src, r, class2, p, io);
        RS.RecvStore(cfg, r, class2, p, io);
      case RxCancel =>
        if s.r.Some? {
          RS.CancelKeeps(cfg, src, s.r.value);
        }
    }
  }

  // ------------------------------------------------------------------ the first pass

  lemma StartingSends(s: System, t: T.Tx, sent: seq<Pdu>)
    requires Starting(s) && U.Unasked(t) && forall p :: p in sent ==> !p.Eof?
    ensures Starting(SendFrom(s, T.Sending(t, sent)))
  {
    hide U.Unasked;
    hide U.Early;
  }

  lemma TickStarting(cfg: Config, src: Bytes, keep: bool, s: System, io: T.TxIo)
    requires cfg.Valid() && Honest(cfg, src, keep, s) && Starting(s) && !s.recycled
    ensures var u := Step(cfg, s, TxTick(io));
            Starting(u) || Aborted(keep, u) || (Announced(u) && !u.t.sub.DataNormal? && U.Unasked(u.t))
  {
    TickFate(cfg, src, keep, s, io);
    assert s.t.sub.DataNormal? ==> !s.t.flags.sendEof by {
      hide RS.Inv;
      hide RS.Honest;
    }
    EarlyIsBarren(s);
    hide Honest;
    hide T.Tick;
    hide U.Unasked;
    hide U.Early;
    hide U.Barren;
    U.TickUnasked(cfg, s.t, io);
    TS.TickKeepsTerms(cfg, s.t, io);
    var x := T.Tick(cfg, s.t, io);
    if forall p :: p in x.sent ==> !p.Eof? {
      StartingSends(s, x.t, x.sent);
    } else {
      var p :| p in x.sent && p.Eof?;
      assert p in SendFrom(s, x).toRx;
      if exists q :: q in x.sent && U.GoodEof(q) {
        var q :| q in x.sent && U.GoodEof(q);
        assert q in SendFrom(s, x).toRx;
      }
    }
  }

  /** Before the receiver said so the source is not given up. */
  lemma TickFate(cfg: Config, src: Bytes, keep: bool, s: System, io: T.TxIo)
    requires cfg.Valid() && Honest(cfg, src, keep, s) && NothingKept(s)
    ensures !TS.GivenUp(T.Tick(cfg, s.t, io).t.file) && s.t.keep == keep && s.t.reliable
    ensures s.r.Some? ==> s.r.value.file.store.dst == None
  {
    hide RS.Inv;
    hide RS.Honest;
    hide T.Tick;
    TS.TickKeeps(cfg, src, s.toTx, s.t, io);
    hide TS.SourceInv;
    hide TS.RequestsInv;
    hide TS.CrcInv;
    TS.TickKeepsTerms(cfg, s.t, io);
  }

  /** A step of the first pass keeps its place, or fails for good. */
  lemma DataStarting(cfg: Config, src: Bytes, keep: bool, s: System, io: T.TxIo)
    requires cfg.Valid() && Honest(cfg, src, keep, s) && Starting(s) && s.t.sub.DataNormal? && !s.recycled
    ensures var u := Step(cfg, s, TxData(io)); Starting(u) || Aborted(keep, u)
  {
    hide RS.Inv;
    hide RS.Honest;
    hide TS.RequestsInv;
    hide T.SendNewData;
    hide U.Early;
    hide U.Barren;
    TS.SendNewDataEffect(cfg, src, s.t, io);
    TS.SendKeepsTerms(cfg, s.t, io);
    var x := T.TickNewData(cfg, s.t, io);
    SendsNoEof(cfg, s.t, io);
    if x.t.file.pos == x.t.file.cachedPos {
      StartingSends(s, x.t, x.sent);
    } else {
      NotGivenUp(cfg, src, keep, s);
      EarlyIsBarren(s);
    }
  }

  lemma SendsNoEof(cfg: Config, t: T.Tx, io: T.TxIo)
    ensures forall p :: p in T.TickNewData(cfg, t, io).sent ==> p.Fd?
  {
    hide T.SendFileData;
    if t.file.foffs < t.fsize {
      TS.SendKeepsSource(cfg, t.file, t.file.foffs, t.fsize - t.file.foffs, true, io);
    }
  }

  lemma NotGivenUp(cfg: Config, src: Bytes, keep: bool, s: System)
    requires Honest(cfg, src, keep, s) && NothingKept(s)
    ensures !TS.GivenUp(s.t.file)
  {
    hide RS.Inv;
    hide RS.Honest;
    hide TS.RequestsInv;
    hide U.Early;
  }

  lemma EarlyIsBarren(s: System)
    ensures s.r.Some? && U.Early(s.r.value) ==> U.Barren(s.r.value)
  {}

  lemma InputStarting(cfg: Config, s: System, e: Event)
    requires cfg.Valid() && Starting(s) && Possible(s, e) && (e.TxRecv? || e.TxCancel?)
    ensures Starting(Step(cfg, s, e)) && Step(cfg, s, e).t.sub == s.t.sub
  {
    hide T.Recv;
    hide U.Early;
    if e.TxRecv? {
      hide U.Unasked;
      U.RecvUnasked(cfg, s.t, e.class2, e.p);
    }
  }

  lemma ReceiverStarting(cfg: Config, s: System, e: Event)
    requires cfg.Valid() && Starting(s) && Possible(s, e) && (e.RxTick? || e.RxRecv? || e.RxCancel?)
    requires s.r.Some? ==> s.r.value.file.store.dst == s.dst
    ensures Starting(Step(cfg, s, e))
  {
    hide U.Unasked;
    hide U.Early;
    hide U.Barren;
    hide R.Tick;
    hide R.Recv;
    hide R.Setup;
    hide R.Cancel;
    EarlyIsBarren(s);
    match e {
      case RxTick(io) =>
        if s.r.Some? {
          U.TickBarren(cfg, s.r.value, io);
        }
      case RxRecv(p, class2, io, stat, openOk) =>
        var r := Receiver(cfg, s, class2, stat, openOk);
        U.SetupEarly(cfg, class2, stat, openOk, s.dst);
        RS.SetupHolds(cfg, [], class2, stat, openOk, s.dst);
        EarlyIsBarren(s.(r := Some(r)));
        U.RecvBarren(cfg, r, class2, p, io);
        RS.RecvStore(cfg, r, class2, p, io);
      case RxCancel =>
        if s.r.Some? {
          U.CancelBarren(s.r.value);
          CancelStore(s.r.value);
        }
    }
  }

  lemma CancelStore(r: R.Rx)
    ensures R.Cancel(r).file == r.file
  {}

  // ------------------------------------------------------------------ the failed first pass

  lemma AbortedTx(cfg: Config, keep: bool, s: System, e: Event)
    requires cfg.Valid() && Aborted(keep, s) && Possible(s, e) && (e.TxTick? || e.TxNak? || e.TxData?)
    ensures Aborted(keep, Step(cfg, s, e))
  {
    hide U.Failed;
    hide U.Barren;
    hide T.Tick;
    hide T.TickNak;
    hide T.TickNewData;
    U.TickFailed(cfg, s.t, e.tio);
    U.NakSendFailed(cfg, s.t, e.tio);
    U.NewDataFailed(cfg, s.t, e.tio);
    TS.TickKeepsTerms(cfg, s.t, e.tio);
    TS.SendKeepsTerms(cfg, s.t, e.tio);
  }

  lemma AbortedInput(cfg: Config, keep: bool, s: System, e: Event)
    requires cfg.Valid() && Aborted(keep, s) && Possible(s, e) && (e.TxRecv? || e.TxCancel?)
    ensures Aborted(keep, Step(cfg, s, e))
  {
    hide U.Barren;
    hide T.Recv;
    if e.TxRecv? {
      hide U.Failed;
      U.RecvFailed(cfg, s.t, e.class2, e.p);
      TS.RecvKeepsTerms(cfg, s.t, e.class2, e.p);
    }
  }

  lemma AbortedRx(cfg: Config, keep: bool, s: System, e: Event)
    requires cfg.Valid() && Aborted(keep, s) && Possible(s, e) && (e.RxTick? || e.RxRecv? || e.RxCancel?)
    ensures Aborted(keep, Step(cfg, s, e))
  {
    hide U.Failed;
    hide U.Early;
    hide U.Barren;
    hide R.Tick;
    hide R.Recv;
    hide R.Setup;
    hide R.Cancel;
    match e {
      case RxTick(io) =>
        if s.r.Some? {
          U.TickBarren(cfg, s.r.value, io);
        }
      case RxRecv(p, class2, io, stat, openOk) =>
        var r := Receiver(cfg, s, class2, stat, openOk);
        U.SetupEarly(cfg, class2, stat, openOk, s.dst);
        RS.SetupHolds(cfg, [], class2, stat, openOk, s.dst);
        EarlyIsBarren(s.(r := Some(r)));
        U.RecvBarren(cfg, r, class2, p, io);
        RS.RecvStore(cfg, r, class2, p, io);
      case RxCancel =>
        if s.r.Some? {
          U.CancelBarren(s.r.value);
          CancelStore(s.r.value);
        }
    }
  }

  lemma AbortedKeeps(cfg: Config, keep: bool, s: System, e: Event)
    requires cfg.Valid() && Aborted(keep, s) && Possible(s, e)
    ensures Aborted(keep, Step(cfg, s, e))
  {
    hide Aborted;
    hide Step;
    if e.TxTick? || e.TxNak? || e.TxData? {
      AbortedTx(cfg, keep, s, e);
    } else if e.TxRecv? || e.TxCancel? {
      AbortedInput(cfg, keep, s, e);
    } else {
      AbortedRx(cfg, keep, s, e);
    }
  }

  // ------------------------------------------------------------------ every step

  lemma HonestKeeps(cfg: Config, src: Bytes, keep: bool, s: System, e: Event)
    requires cfg.Valid() && Sound(cfg, src, keep, s) && Possible(s, e) && Placed(s, e)
    ensures Honest(cfg, src, keep, Step(cfg, s, e))
  {
    assert s.t.sub.DataNormal? ==> s.t.file.pos == s.t.file.cachedPos;
    assert Starting(s) ==> s.t.chunks == [];
    hide Honest;
    hide Starting;
    hide Step;
    hide Announced;
    if e.TxTick? || e.TxNak? || e.TxData? {
      TxStepKeeps(cfg, src, keep, s, e);
    } else if e.TxRecv? || e.TxCancel? {
      TxInputKeeps(cfg, src, keep, s, e);
    } else {
      RxStepKeeps(cfg, src, keep, s, e);
    }
  }

  lemma StartingKeeps(cfg: Config, src: Bytes, keep: bool, s: System, e: Event)
    requires cfg.Valid() && Honest(cfg, src, keep, s) && Starting(s) && Possible(s, e)
    ensures var u := Step(cfg, s, e);
            Starting(u) || Aborted(keep, u) || (Announced(u) && !u.t.sub.DataNormal? && U.Unasked(u.t))
  {
    assert s.r.Some? ==> s.r.value.file.store.dst == s.dst;
    hide Honest;
    hide Aborted;
    hide Starting;
    hide Announced;
    match e {
      case TxTick(io) =>
        if !s.recycled {
          TickStarting(cfg, src, keep, s, io);
        }
      case TxData(io) =>
        if !s.recycled && s.t.sub.DataNormal? {
          DataStarting(cfg, src, keep, s, io);
        } else {
          StartingSends(s, s.t, []);
        }
      case TxNak(io) => NakStarting(cfg, s, io);
      case TxRecv(_, _) => InputStarting(cfg, s, e);
      case TxCancel => InputStarting(cfg, s, e);
      case _ => ReceiverStarting(cfg, s, e);
    }
    hide Step;
  }

  lemma NakStarting(cfg: Config, s: System, io: T.TxIo)
    requires cfg.Valid() && Starting(s)
    ensures Starting(Step(cfg, s, TxNak(io)))
  {
    hide U.Early;
  }

  /** What was sent stays on the channel. */
  lemma AnnouncedStays(cfg: Config, s: System, e: Event)
    requires cfg.Valid() && Announced(s)
    ensures Announced(Step(cfg, s, e))
  {
    var p :| p in s.toRx && U.GoodEof(p);
    hide T.Tick;
    hide T.TickNak;
    hide T.TickNewData;
    hide T.Recv;
    hide R.Tick;
    hide R.Recv;
    assert p in Step(cfg, s, e).toRx;
  }

  lemma SoundKeeps(cfg: Config, src: Bytes, keep: bool, s: System, e: Event)
    requires cfg.Valid() && Sound(cfg, src, keep, s) && Possible(s, e) && Placed(s, e)
    ensures Inv(cfg, src, keep, Step(cfg, s, e))
  {
    HonestKeeps(cfg, src, keep, s, e);
    hide Honest;
    hide Aborted;
    hide Starting;
    hide Announced;
    hide Step;
    hide Possible;
    if Starting(s) {
      StartingKeeps(cfg, src, keep, s, e);
    } else {
      AnnouncedStays(cfg, s, e);
      SubStays(cfg, s, e);
    }
  }

  /** The first pass is not resumed. */
  lemma SubStays(cfg: Config, s: System, e: Event)
    requires cfg.Valid() && !s.t.sub.DataNormal?
    ensures !Step(cfg, s, e).t.sub.DataNormal?
  {
    hide T.Tick;
    hide T.Recv;
    hide T.SendFileData;
    hide R.Tick;
    hide R.Recv;
    match e
    case TxTick(io) => TickSub(cfg, s.t, io);
    case TxRecv(p, class2) => RecvSub(cfg, s.t, class2, p);
    case _ =>
  }

  lemma TickSub(cfg: Config, t: T.Tx, io: T.TxIo)
    requires !t.sub.DataNormal?
    ensures !T.Tick(cfg, t, io).t.sub.DataNormal?
  {
    hide T.CheckState;
    CheckStateSub(cfg, T.AckTimerTick(T.InactTimerTick(t)), io);
  }

  lemma CheckStateSub(cfg: Config, t: T.Tx, io: T.TxIo)
    ensures !t.sub.DataNormal? ==> !T.CheckState(cfg, t, io).sub.DataNormal?
  {}

  lemma RecvSub(cfg: Config, t: T.Tx, class2: bool, p: Pdu)
    ensures T.Recv(cfg, t, class2, p).sub == t.sub
  {
    hide T.RecvNak;
    if p.Nak? {
      NakSub(cfg, t, p.segments);
    }
  }

  lemma {:induction false} NakSub(cfg: Config, t: T.Tx, segs: seq<Segment>)
    ensures T.RecvNak(cfg, t, segs).sub == t.sub
    decreases |segs|
  {
    if segs != [] {
      TS.RecvSegmentEffect(cfg, t, segs[0]);
      NakSub(cfg, T.RecvSegment(cfg, t, segs[0]), segs[1..]);
    }
  }

  lemma StepKeeps(cfg: Config, src: Bytes, keep: bool, s: System, e: Event)
    requires cfg.Valid() && Inv(cfg, src, keep, s) && Possible(s, e) && Placed(s, e)
    ensures Inv(cfg, src, keep, Step(cfg, s, e))
  {
    hide Sound;
    hide Aborted;
    hide Step;
    if Sound(cfg, src, keep, s) {
      SoundKeeps(cfg, src, keep, s, e);
    } else {
      AbortedKeeps(cfg, keep, s, e);
    }
  }

  lemma {:induction false} RunKeeps(cfg: Config, src: Bytes, keep: bool, s: System, es: seq<Event>)
    requires cfg.Valid() && Inv(cfg, src, keep, s) && Run(cfg, s, es).Some? && AllPlaced(cfg, s, es)
    ensures Inv(cfg, src, keep, Run(cfg, s, es).value)
    decreases |es|
  {
    hide Inv;
    hide Step;
    hide Possible;
    hide Placed;
    if es != [] {
      StepKeeps(cfg, src, keep, s, es[0]);
      RunKeeps(cfg, src, keep, Step(cfg, s, es[0]), es[1..]);
    }
  }

  lemma InitHolds(cfg: Config, src: Bytes, keep: bool, cmdTx: bool, closeReq: bool)
    ensures Inv(cfg, src, keep, Init(cfg, src, keep, cmdTx, closeReq))
  {
    hide TS.Inv;
    TS.SetupHolds(cfg, src, true, keep, cmdTx, closeReq);
  }

  // ------------------------------------------------------------------ the theorem

  predicate SourceGivenUp(s: System) { s.t.file.fate.Removed? || s.t.file.fate.MovedAway? }

  /** A step of a sound system leads to a sound one, or its sender has failed for good. */
  lemma StepStraight(cfg: Config, src: Bytes, keep: bool, s: System, e: Event)
    requires cfg.Valid() && Sound(cfg, src, keep, s) && TR.AtPlace(s.t.file) && Possible(s, e) && Whole(cfg, s, e)
    ensures Placed(s, e) && Straight(cfg, src, keep, Step(cfg, s, e))
  {
    NakIsPlaced(cfg, src, keep, s, e);
    hide Placed;
    hide Whole;
    hide Aborted;
    SoundKeeps(cfg, src, keep, s, e);
    if Starting(s) {
      StartingKeeps(cfg, src, keep, s, e);
      hide Step;
      hide Honest;
      hide Announced;
      hide U.Early;
    } else {
      hide Honest;
      hide Starting;
      PlaceStays(cfg, src, s, e);
      hide Step;
      hide Announced;
    }
  }

  lemma NakIsPlaced(cfg: Config, src: Bytes, keep: bool, s: System, e: Event)
    requires cfg.Valid() && Honest(cfg, src, keep, s) && TR.AtPlace(s.t.file) && Whole(cfg, s, e)
    ensures Placed(s, e)
    ensures e.TxNak? && !s.recycled && Announced(s) ==> TR.AtPlace(T.TickNak(cfg, s.t, e.tio).t.file)
  {
    hide T.TickNak;
    hide TR.ShortNak;
    hide RS.Inv;
    hide RS.Honest;
    hide TS.NakPlaced;
    if e.TxNak? && !s.recycled && Announced(s) {
      TR.TickNakAtPlace(cfg, src, s.t, e.tio);
    }
  }

  lemma PlaceStays(cfg: Config, src: Bytes, s: System, e: Event)
    requires cfg.Valid() && TR.AtPlace(s.t.file) && Announced(s) && !s.t.sub.DataNormal?
    requires e.TxNak? && !s.recycled ==> TR.AtPlace(T.TickNak(cfg, s.t, e.tio).t.file)
    ensures TR.AtPlace(Step(cfg, s, e).t.file)
  {
    hide T.Tick;
    hide T.TickNak;
    hide T.Recv;
    hide R.Tick;
    hide R.Recv;
    match e
    case TxTick(io) => TickPlace(cfg, s.t, io);
    case TxRecv(p, class2) => RecvPlace(cfg, s.t, class2, p);
    case _ =>
  }

  lemma TickPlace(cfg: Config, t: T.Tx, io: T.TxIo)
    ensures SameFilePlace(t, T.Tick(cfg, t, io).t)
  {
    hide T.CheckState;
    hide T.Maintenance;
    hide T.InactTimerTick;
    hide T.AckTimerTick;
    var s := T.InactTimerTick(t);
    TimersPlace(t);
    TimersPlace(s);
    CheckStatePlace(cfg, T.AckTimerTick(s), io);
    MaintenancePlace(cfg, if t.hold then s else T.CheckState(cfg, T.AckTimerTick(s), io), io);
  }

  predicate SameFilePlace(t: T.Tx, u: T.Tx) { u.file.pos == t.file.pos && u.file.cachedPos == t.file.cachedPos }

  lemma TimersPlace(t: T.Tx)
    ensures SameFilePlace(t, T.InactTimerTick(t)) && SameFilePlace(t, T.AckTimerTick(t))
  {}

  lemma MaintenancePlace(cfg: Config, t: T.Tx, io: T.TxIo)
    ensures SameFilePlace(t, T.Maintenance(cfg, t, io).t)
  {}

  lemma NextStatePlace(cfg: Config, t: T.Tx, io: T.TxIo)
    ensures SameFilePlace(t, T.NextState(cfg, t, io).t)
  {
    hide T.RetentionFate;
  }

  lemma CheckStatePlace(cfg: Config, t: T.Tx, io: T.TxIo)
    ensures SameFilePlace(t, T.CheckState(cfg, t, io))
  {
    hide T.NextState;
    hide CfCrc.Finalize;
    NextStatePlace(cfg, t, io);
  }

  lemma RecvPlace(cfg: Config, t: T.Tx, class2: bool, p: Pdu)
    ensures T.Recv(cfg, t, class2, p).file == t.file
  {
    hide T.RecvNak;
    if p.Nak? {
      TR.NakAddsSegments(cfg, t, p.segments);
    }
  }

  /** Runs without short reads in retransmissions of an announced file are placed. */
  lemma {:induction false} AllWholeArePlaced(cfg: Config, src: Bytes, keep: bool, s: System, es: seq<Event>)
    requires cfg.Valid() && Straight(cfg, src, keep, s) && Run(cfg, s, es).Some? && AllWhole(cfg, s, es)
    ensures AllPlaced(cfg, s, es)
    decreases |es|
  {
    if es != [] {
      var e := es[0];
      if Sound(cfg, src, keep, s) && TR.AtPlace(s.t.file) {
        StepStraight(cfg, src, keep, s, e);
      } else {
        assert Aborted(keep, s) && !Announced(s);
        AbortedKeeps(cfg, keep, s, e);
      }
      hide Sound;
      hide Aborted;
      hide Announced;
      hide Step;
      hide Possible;
      AllWholeArePlaced(cfg, src, keep, Step(cfg, s, e), es[1..]);
    }
  }

  predicate HasFin(s: System, cc: nat, dc: nat, fs: nat) {
    s.t.flags.finCount != 0 && s.t.fin == T.Report(cc, dc, fs) && Fin(cc, dc, fs) in s.toTx
  }

  /** No data is lost: in every run in which no retransmission skips its seek at a wrong place,
      whatever else the channel, the file systems, the operators and the buffers do, the sender
      removes or moves away its source file only if it received a FIN saying COMPLETE and RETAINED,
      and then the receiver has a copy in place. */
  lemma NoDataLoss(cfg: Config, src: Bytes, keep: bool, cmdTx: bool, closeReq: bool, es: seq<Event>)
    requires cfg.Valid() && Run(cfg, Init(cfg, src, keep, cmdTx, closeReq), es).Some?
    requires AllPlaced(cfg, Init(cfg, src, keep, cmdTx, closeReq), es)
    ensures var s := Run(cfg, Init(cfg, src, keep, cmdTx, closeReq), es).value;
            SourceGivenUp(s) ==> !keep && HasFin(s, s.t.fin.cc, COMPLETE, RETAINED) && s.dst == Some(src)
  {
    InitHolds(cfg, src, keep, cmdTx, closeReq);
    RunKeeps(cfg, src, keep, Init(cfg, src, keep, cmdTx, closeReq), es);
    hide Init;
    hide Run;
    hide RS.Inv;
    hide Starting;
  }

  /** The same of runs without short reads in retransmissions; in the first pass, where a short read
      is an error for good, reads may do anything. */
  lemma NoDataLossOfWholeReads(cfg: Config, src: Bytes, keep: bool, cmdTx: bool, closeReq: bool, es: seq<Event>)
    requires cfg.Valid() && Run(cfg, Init(cfg, src, keep, cmdTx, closeReq), es).Some?
    requires AllWhole(cfg, Init(cfg, src, keep, cmdTx, closeReq), es)
    ensures AllPlaced(cfg, Init(cfg, src, keep, cmdTx, closeReq), es)
    ensures var s := Run(cfg, Init(cfg, src, keep, cmdTx, closeReq), es).value;
            SourceGivenUp(s) ==> !keep && HasFin(s, s.t.fin.cc, COMPLETE, RETAINED) && s.dst == Some(src)
  {
    InitHolds(cfg, src, keep, cmdTx, closeReq);
    assert Starting(Init(cfg, src, keep, cmdTx, closeReq)) && !Aborted(keep, Init(cfg, src, keep, cmdTx, closeReq));
    hide Init;
    hide Run;
    hide Honest;
    hide Aborted;
    hide U.Early;
    hide HasFin;
    hide SourceGivenUp;
    AllWholeArePlaced(cfg, src, keep, Init(cfg, src, keep, cmdTx, closeReq), es);
    NoDataLoss(cfg, src, keep, cmdTx, closeReq, es);
  }

  /** Whatever the receiver puts in place is the source, and it says so only once it is there. */
  lemma OnlyTheSourceIsRetained(cfg: Config, src: Bytes, keep: bool, cmdTx: bool, closeReq: bool, es: seq<Event>)
    requires cfg.Valid() && Run(cfg, Init(cfg, src, keep, cmdTx, closeReq), es).Some?
    requires AllPlaced(cfg, Init(cfg, src, keep, cmdTx, closeReq), es)
    ensures var s := Run(cfg, Init(cfg, src, keep, cmdTx, closeReq), es).value;
            && s.dst in {None, Some(src)}
            && forall p :: p in s.toTx && p.Fin? && p.fs == RETAINED ==> s.dst == Some(src)
  {
    InitHolds(cfg, src, keep, cmdTx, closeReq);
    RunKeeps(cfg, src, keep, Init(cfg, src, keep, cmdTx, closeReq), es);
    hide Init;
    hide Run;
    hide RS.Inv;
    hide TS.Inv;
    hide Starting;
  }
}
