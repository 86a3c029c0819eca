/** The three exchanges in which one party repeats itself until the other has answered, as stretches of a run of
    both: the EOF and its acknowledgement, the request for metadata and the metadata, the FIN and its
    acknowledgement.  Any of the PDUs may be lost, as often as the limits allow. */
module Recovery {
  import opened Bytes
  import opened Cfdp
  import opened EndToEnd
  import opened EofRepeat
  import opened FirstPass
  import opened MdRepeat
  import opened Protocol
  import opened Schedule
  import opened Wrappers
  import CfCrc
  import F = FinRepeat
  import N = NakRound
  import R = RxSpec
  import RO = Rounds
  import T = TxSpec

  // ------------------------------------------------------------------ the EOF

  /** An EOF that is not answered: it is lost, or the acknowledgement the receiver sends is; then the sender's
      timer runs out. */
  datatype EofTry = EofTry(arrives: bool, rio: R.RxIo, wait: seq<T.TxIo>)

  /** The EOF arrives and the receiver ticks. */
  function HearEof(src: Bytes, rio: R.RxIo, stat: int): seq<Event> {
    [RxRecv(EofOf(src), true, rio, stat, true)] + [RxTick(rio)]
  }

  function EofTryEvents(src: Bytes, e: EofTry, stat: int): seq<Event> {
    (if e.arrives then HearEof(src, e.rio, stat) else []) + TxTickEvents(e.wait)
  }

  function EofTries(src: Bytes, es: seq<EofTry>, stat: int): seq<Event> {
    if es == [] then [] else EofTryEvents(src, es[0], stat) + EofTries(src, es[1..], stat)
  }

  function EofAnswered(src: Bytes, rio: R.RxIo, stat: int): seq<Event> {
    HearEof(src, rio, stat) + [TxRecv(Ack(DIR_EOF), true)]
  }

  /** The sender's EOF is out; what the receiver has, if anything, is of src. */
  ghost predicate Calling(cfg: Config, src: Bytes, keep: bool, s: System, stat: int) {
    && !s.recycled && Called(src, keep, s.t) && EofOf(src) in s.toRx && s.dst == None
    && var r := Receiver(cfg, s, true, stat, true);
       (Gathering(cfg, src, r) || Noted(cfg, src, r)) && r.file.store.dst == None
  }

  predicate Called(src: Bytes, keep: bool, t: T.Tx) {
    Unanswered(t) && Awaiting(src, keep, t) && t.file.crc.result == CfCrc.Checksum(src)
  }

  lemma HearEofRun(cfg: Config, src: Bytes, s: System, rio: R.RxIo, stat: int)
    requires cfg.Valid() && cfg.inactTicks > 0 && rio.canSend && EofOf(src) in s.toRx
    requires var r := Receiver(cfg, s, true, stat, true);
             UnderLimit(cfg, r.flags.eofCount) && (Gathering(cfg, src, r) || Noted(cfg, src, r))
    ensures var r := Receiver(cfg, s, true, stat, true);
            var x := R.Tick(cfg, R.Recv(cfg, r, true, EofOf(src), rio), rio);
            Run(cfg, s, HearEof(src, rio, stat)) == Some(ByReceiver(s, x.r, [Ack(DIR_EOF)]))
  {
    var r := Receiver(cfg, s, true, stat, true);
    EofTaken(cfg, src, r, rio, rio);
    hide Receiver;
    hide R.Recv;
    hide R.Tick;
    hide Gathering;
    hide Step;
    hide ByReceiver;
    hide EofOf;
    var r1 := R.Recv(cfg, r, true, EofOf(src), rio);
    NotedUp(cfg, src, R.Tick(cfg, r1, rio).r);
    hide Noted;
    RxHears(cfg, s, EofOf(src), rio, stat);
    var u := ByReceiver(s, r1, []);
    ReceiverFields(s, r1, []);
    OneRxTick(cfg, u, rio);
    RunOne(cfg, u, RxTick(rio));
    RunConcat(cfg, s, [RxRecv(EofOf(src), true, rio, stat, true)], [RxTick(rio)]);
    ByReceiverTwice(s, r1, [], R.Tick(cfg, r1, rio).r, [Ack(DIR_EOF)]);
    hide Run;
    assert [] + [Ack(DIR_EOF)] == [Ack(DIR_EOF)];
  }

  lemma NotedUp(cfg: Config, src: Bytes, r: R.Rx)
    requires Noted(cfg, src, r)
    ensures !R.Recycles(r)
  {}

  /** What an exchange leaves as it was: what the receiver has got, and what is on its way. */
  predicate SameGoods(r: R.Rx, u: R.Rx) {
    u.flags.mdRecv == r.flags.mdRecv && u.file.chunks == r.file.chunks && u.file.store.temp == r.file.store.temp
  }

  predicate SoFar(s: System, u: System) { s.toRx <= u.toRx && s.toTx <= u.toTx }

  lemma EofHeard(cfg: Config, src: Bytes, keep: bool, s: System, rio: R.RxIo, stat: int)
    requires cfg.Valid() && cfg.inactTicks > 0 && rio.canSend && Calling(cfg, src, keep, s, stat)
    requires UnderLimit(cfg, Receiver(cfg, s, true, stat, true).flags.eofCount)
    ensures Run(cfg, s, HearEof(src, rio, stat)).Some?
    ensures var r, u := Receiver(cfg, s, true, stat, true), Run(cfg, s, HearEof(src, rio, stat)).value;
            && Calling(cfg, src, keep, u, stat) && u.r.Some? && u.t == s.t && SoFar(s, u) && Ack(DIR_EOF) in u.toTx
            && Noted(cfg, src, u.r.value) && SameGoods(r, u.r.value) && u.r.value.flags.eofCount == r.flags.eofCount + 1
            && u.r.value.inactTimer == cfg.inactTicks - 1
  {
    var r := Receiver(cfg, s, true, stat, true);
    HearEofRun(cfg, src, s, rio, stat);
    EofTaken(cfg, src, r, rio, rio);
    var x := R.Tick(cfg, R.Recv(cfg, r, true, EofOf(src), rio), rio);
    hide Run;
    hide HearEof;
    hide Receiver;
    hide R.Recv;
    hide R.Tick;
    hide Gathering;
    hide Noted;
    hide Called;
    hide EofOf;
    Answering(cfg, src, keep, s, x.r, stat);
  }

  lemma Answering(cfg: Config, src: Bytes, keep: bool, s: System, r: R.Rx, stat: int)
    requires Calling(cfg, src, keep, s, stat) && Noted(cfg, src, r) && r.file.store.dst == None
    ensures var u := ByReceiver(s, r, [Ack(DIR_EOF)]);
            && Calling(cfg, src, keep, u, stat) && u.r == Some(r) && u.t == s.t && SoFar(s, u) && Ack(DIR_EOF) in u.toTx
  {
    hide Noted;
    hide Gathering;
    hide Called;
    hide EofOf;
    assert Ack(DIR_EOF) in [Ack(DIR_EOF)];
  }

  /** A period of the sender's timer, at the end of which the EOF goes out again. */
  lemma EofRepeated(cfg: Config, src: Bytes, keep: bool, s: System, ios: seq<T.TxIo>, stat: int)
    requires cfg.Valid() && Calling(cfg, src, keep, s, stat)
    requires s.t.inactTimer > s.t.ackTimer && UnderLimit(cfg, s.t.acknak)
    requires |ios| == s.t.ackTimer + 1 && ios[s.t.ackTimer].canSend
    ensures Run(cfg, s, TxTickEvents(ios)).Some?
    ensures var u := Run(cfg, s, TxTickEvents(ios)).value;
            && Calling(cfg, src, keep, u, stat) && u.r == s.r && u.t == Again(cfg, s.t, |ios|) && SoFar(s, u)
            && Receiver(cfg, u, true, stat, true) == Receiver(cfg, s, true, stat, true)
  {
    hide TxTicks;
    hide StaysUp;
    hide Gathering;
    hide Noted;
    hide Run;
    hide TxTickEvents;
    hide EofOf;
    RepeatsEof(cfg, s.t, ios);
    CalledAgain(cfg, src, keep, s.t, |ios|);
    hide Called;
    hide Unanswered;
    TxTicksRun(cfg, s, ios);
  }

  lemma CalledAgain(cfg: Config, src: Bytes, keep: bool, t: T.Tx, n: nat)
    requires Called(src, keep, t) && n <= t.inactTimer
    ensures Called(src, keep, Again(cfg, t, n)) && EofPdu(t) == EofOf(src)
  {
    hide CfCrc.Checksum;
  }

  /** The limits allow n more periods of the sender's timer. */
  predicate TxSpare(cfg: Config, t: T.Tx, n: nat) {
    t.acknak + n <= cfg.ackLimit && (n > 0 ==> t.inactTimer > t.ackTimer + RO.Wait(cfg, n - 1))
  }

  /** The tries end with a period of the timer each. */
  predicate EofPeriods(cfg: Config, t: T.Tx, es: seq<EofTry>)
    decreases |es|
  {
    es == []
    || (&& |es[0].wait| == t.ackTimer + 1 && es[0].wait[t.ackTimer].canSend && es[0].rio.canSend
        && |es[0].wait| <= t.inactTimer && EofPeriods(cfg, Again(cfg, t, |es[0].wait|), es[1..]))
  }

  lemma TxSpareNext(cfg: Config, t: T.Tx, n: nat)
    requires n > 0 && TxSpare(cfg, t, n)
    ensures t.inactTimer > t.ackTimer && UnderLimit(cfg, t.acknak) && TxSpare(cfg, Again(cfg, t, t.ackTimer + 1), n - 1)
  {}

  lemma EofTryRun(cfg: Config, src: Bytes, keep: bool, s: System, e: EofTry, stat: int)
    requires cfg.Valid() && cfg.inactTicks > 0 && Calling(cfg, src, keep, s, stat)
    requires s.t.inactTimer > s.t.ackTimer && UnderLimit(cfg, s.t.acknak) && e.rio.canSend
    requires UnderLimit(cfg, Receiver(cfg, s, true, stat, true).flags.eofCount)
    requires |e.wait| == s.t.ackTimer + 1 && e.wait[s.t.ackTimer].canSend
    ensures Run(cfg, s, EofTryEvents(src, e, stat)).Some?
    ensures var r, u := Receiver(cfg, s, true, stat, true), Run(cfg, s, EofTryEvents(src, e, stat)).value;
            var v := Receiver(cfg, u, true, stat, true);
            && Calling(cfg, src, keep, u, stat) && u.t == Again(cfg, s.t, |e.wait|) && SoFar(s, u)
            && SameGoods(r, v) && v.flags.eofCount <= r.flags.eofCount + 1
  {
    hide Calling;
    hide Noted;
    hide EofOf;
    if e.arrives {
      EofHeard(cfg, src, keep, s, e.rio, stat);
      var u := Run(cfg, s, HearEof(src, e.rio, stat)).value;
      EofRepeated(cfg, src, keep, u, e.wait, stat);
      RunConcat(cfg, s, HearEof(src, e.rio, stat), TxTickEvents(e.wait));
    } else {
      assert EofTryEvents(src, e, stat) == TxTickEvents(e.wait);
      EofRepeated(cfg, src, keep, s, e.wait, stat);
    }
  }

  /** Any number of EOFs and acknowledgements lost, under the limits: the sender still calls. */
  lemma {:induction false} EofTriesRun(cfg: Config, src: Bytes, keep: bool, s: System, es: seq<EofTry>, stat: int)
    requires cfg.Valid() && cfg.inactTicks > 0 && Calling(cfg, src, keep, s, stat)
    requires TxSpare(cfg, s.t, |es|) && EofPeriods(cfg, s.t, es)
    requires Receiver(cfg, s, true, stat, true).flags.eofCount + |es| < cfg.ackLimit
    ensures Run(cfg, s, EofTries(src, es, stat)).Some?
    ensures var r, u := Receiver(cfg, s, true, stat, true), Run(cfg, s, EofTries(src, es, stat)).value;
            var v := Receiver(cfg, u, true, stat, true);
            && Calling(cfg, src, keep, u, stat) && SoFar(s, u) && u.t.com.closeReq == s.t.com.closeReq
            && SameGoods(r, v) && v.flags.eofCount <= r.flags.eofCount + |es|
    decreases |es|
  {
    hide Calling;
    hide EofTryEvents;
    hide Receiver;
    hide TxSpare;
    hide Step;
    if es != [] {
      var e := es[0];
      TxSpareNext(cfg, s.t, |es|);
      EofTryRun(cfg, src, keep, s, e, stat);
      var u := Run(cfg, s, EofTryEvents(src, e, stat)).value;
      EofTriesRun(cfg, src, keep, u, es[1..], stat);
      RunConcat(cfg, s, EofTryEvents(src, e, stat), EofTries(src, es[1..], stat));
    }
  }

  /** The EOF is acknowledged on both sides. */
  ghost predicate Settled(cfg: Config, src: Bytes, keep: bool, s: System) {
    && !s.recycled && Acknowledged(src, keep, s.t) && s.dst == None && s.t.inactTimer > 0
    && s.r.Some? && Noted(cfg, src, s.r.value) && s.r.value.file.store.dst == None && s.r.value.inactTimer > 0
    && Ack(DIR_EOF) in s.toTx
  }

  lemma CalledAcknowledged(cfg: Config, src: Bytes, keep: bool, t: T.Tx)
    requires Called(src, keep, t)
    ensures var u := T.Recv(cfg, t, true, Ack(DIR_EOF));
            && Acknowledged(src, keep, u) && u.com.closeReq == t.com.closeReq && u.inactTimer == cfg.inactTicks
            && u.file == t.file
  {
    AckTaken(cfg, t);
    hide T.Recv;
    hide CfCrc.Checksum;
  }

  /** An EOF and its acknowledgement that get through settle it. */
  lemma EofAnsweredRun(cfg: Config, src: Bytes, keep: bool, s: System, rio: R.RxIo, stat: int)
    requires cfg.Valid() && cfg.inactTicks > 1 && rio.canSend && Calling(cfg, src, keep, s, stat)
    requires UnderLimit(cfg, Receiver(cfg, s, true, stat, true).flags.eofCount)
    ensures Run(cfg, s, EofAnswered(src, rio, stat)).Some?
    ensures var r, u := Receiver(cfg, s, true, stat, true), Run(cfg, s, EofAnswered(src, rio, stat)).value;
            && u.r.Some? && Settled(cfg, src, keep, u) && SoFar(s, u) && SameGoods(r, u.r.value)
            && u.t.com.closeReq == s.t.com.closeReq && u.r.value.inactTimer == cfg.inactTicks - 1
  {
    EofHeard(cfg, src, keep, s, rio, stat);
    var u := Run(cfg, s, HearEof(src, rio, stat)).value;
    CallingParts(cfg, src, keep, u, stat);
    CalledAcknowledged(cfg, src, keep, u.t);
    hide Calling;
    hide Noted;
    hide Called;
    hide Acknowledged;
    hide HearEof;
    hide T.Recv;
    TxHears(cfg, u, Ack(DIR_EOF));
    RunConcat(cfg, s, HearEof(src, rio, stat), [TxRecv(Ack(DIR_EOF), true)]);
    hide Run;
    assert Elements([]) == {};
  }

  lemma CallingParts(cfg: Config, src: Bytes, keep: bool, s: System, stat: int)
    requires Calling(cfg, src, keep, s, stat)
    ensures !s.recycled && Called(src, keep, s.t) && s.dst == None
    ensures s.r.Some? ==> s.r.value.file.store.dst == None
  {
    hide Gathering;
    hide Noted;
  }

  // ------------------------------------------------------------------ metadata

  /** A request for metadata that brings none: it is lost, or the metadata the sender sends is; then the receiver's
      timer runs out. */
  datatype MdTry = MdTry(heard: bool, tio: T.TxIo, wait: seq<R.RxIo>)

  /** The request arrives and the sender ticks. */
  function HearRequest(nak: Pdu, tio: T.TxIo): seq<Event> { [TxRecv(nak, true)] + [TxTick(tio)] }

  function MdTryEvents(nak: Pdu, e: MdTry): seq<Event> {
    (if e.heard then HearRequest(nak, e.tio) else []) + RxTicks(e.wait)
  }

  function MdTries(nak: Pdu, es: seq<MdTry>): seq<Event> {
    if es == [] then [] else MdTryEvents(nak, es[0]) + MdTries(nak, es[1..])
  }

  function MdAnswered(nak: Pdu, md: Pdu, tio: T.TxIo, rio: R.RxIo, stat: int): seq<Event> {
    HearRequest(nak, tio) + [RxRecv(md, true, rio, stat, true)]
  }

  /** The receiver's request for metadata is out. */
  ghost predicate Requesting(cfg: Config, src: Bytes, keep: bool, s: System, nak: Pdu) {
    && !s.recycled && Acknowledged(src, keep, s.t) && s.dst == None
    && s.r.Some? && Deaf(cfg, src, s.r.value) && s.r.value.file.store.dst == None
    && Ack(DIR_EOF) in s.toTx && cfg.Valid() && R.NakPdus(cfg, s.r.value) == [nak] && nak in s.toTx
  }

  lemma OneRequest(cfg: Config, r: R.Rx, u: R.Rx)
    requires cfg.Valid() && !r.flags.mdRecv && !u.flags.mdRecv
    ensures R.NakPdus(cfg, u) == R.NakPdus(cfg, r) && |R.NakPdus(cfg, r)| == 1
  {}

  /** The first request. */
  lemma FirstRequest(cfg: Config, src: Bytes, keep: bool, s: System, io: R.RxIo)
    requires cfg.Valid() && s.r.Some? && Settled(cfg, src, keep, s) && !s.r.value.flags.mdRecv && io.canSend
    ensures Run(cfg, s, [RxTick(io)]).Some?
    ensures var r, u := s.r.value, Run(cfg, s, [RxTick(io)]).value;
            && u.r.Some? && |R.NakPdus(cfg, r)| == 1 && Requesting(cfg, src, keep, u, R.NakPdus(cfg, r)[0])
            && SoFar(s, u) && SameGoods(r, u.r.value) && u.t == s.t
            && u.r.value.acknak == 0 && u.r.value.ackTimer == cfg.ackTicks
            && u.r.value.inactTimer == r.inactTimer - 1
  {
    var r := s.r.value;
    NotedAsksForMd(cfg, src, r, io);
    var x := R.Tick(cfg, r, io);
    OneRequest(cfg, r, x.r);
    DeafUp(cfg, src, x.r);
    hide R.Tick;
    hide R.NakPdus;
    hide Noted;
    hide Deaf;
    hide Acknowledged;
    OneRxTick(cfg, s, io);
    RunOne(cfg, s, RxTick(io));
    hide Run;
  }

  lemma DeafUp(cfg: Config, src: Bytes, r: R.Rx)
    requires Deaf(cfg, src, r)
    ensures !R.Recycles(r) && !r.flags.mdRecv
  {}

  lemma RequestHeard(cfg: Config, src: Bytes, keep: bool, s: System, nak: Pdu, tio: T.TxIo)
    requires cfg.Valid() && cfg.inactTicks > 0 && Requesting(cfg, src, keep, s, nak) && tio.canSend
    ensures Run(cfg, s, HearRequest(nak, tio)).Some?
    ensures var u := Run(cfg, s, HearRequest(nak, tio)).value;
            && u.r.Some? && Requesting(cfg, src, keep, u, nak) && SoFar(s, u) && u.r == s.r
            && u.t.com.closeReq == s.t.com.closeReq
            && u.t.inactTimer == cfg.inactTicks - 1 && Md(|src|, s.t.com.closeReq) in u.toRx
  {
    var r := s.r.value;
    DeafUp(cfg, src, r);
    AcknowledgedUp(src, keep, s.t);
    RequestTaken(cfg, r, cfg, s.t);
    AnswersMd(cfg, src, keep, s.t, tio);
    var t := T.Recv(cfg, s.t, true, nak);
    var x := T.Tick(cfg, t, tio);
    hide T.Recv;
    hide T.Tick;
    hide R.NakPdus;
    hide Deaf;
    hide Acknowledged;
    TxHears(cfg, s, nak);
    var u := BySender(s, t, []);
    OneTxTick(cfg, u, tio);
    RunOne(cfg, u, TxTick(tio));
    RunConcat(cfg, s, [TxRecv(nak, true)], [TxTick(tio)]);
    hide Run;
    BySenderTwice(s, t, [], x.t, x.sent);
    assert Md(|src|, s.t.com.closeReq) in x.sent;
  }

  lemma AcknowledgedUp(src: Bytes, keep: bool, t: T.Tx)
    requires Acknowledged(src, keep, t)
    ensures !t.hold && t.reliable
  {}

  /** A period of the receiver's timer, at the end of which it asks again. */
  lemma RequestRepeated(cfg: Config, src: Bytes, keep: bool, s: System, nak: Pdu, ios: seq<R.RxIo>)
    requires cfg.Valid() && s.r.Some? && Requesting(cfg, src, keep, s, nak)
    requires var r := s.r.value; r.inactTimer > r.ackTimer && UnderLimit(cfg, r.acknak)
    requires |ios| == s.r.value.ackTimer + 1 && ios[s.r.value.ackTimer].canSend
    ensures Run(cfg, s, RxTicks(ios)).Some?
    ensures var r, u := s.r.value, Run(cfg, s, RxTicks(ios)).value;
            && u.r.Some? && Requesting(cfg, src, keep, u, nak) && SoFar(s, u) && u.t == s.t
            && u.r.value == r.(ackTimer := cfg.ackTicks, inactTimer := r.inactTimer - |ios|, acknak := r.acknak + 1)
  {
    var r := s.r.value;
    DeafAsks(cfg, src, r, ios);
    var x := N.TickAll(cfg, r, ios);
    DeafUp(cfg, src, r);
    DeafUp(cfg, src, x.r);
    OneRequest(cfg, r, x.r);
    WaitingStaysUp(cfg, r, ios);
    hide N.TickAll;
    hide RxStaysUp;
    hide R.NakPdus;
    hide Deaf;
    hide Acknowledged;
    RxTicksRun(cfg, s, ios);
    hide Run;
    hide RxTicks;
  }

  /** A receiver that waits is not recycled. */
  lemma {:induction false} WaitingStaysUp(cfg: Config, r: R.Rx, ios: seq<R.RxIo>)
    requires cfg.Valid() && N.Asking(r) && r.inactTimer > r.ackTimer && UnderLimit(cfg, r.acknak)
    requires |ios| == r.ackTimer + 1 && ios[r.ackTimer].canSend && R.NakPdus(cfg, r) != []
    ensures RxStaysUp(cfg, r, ios)
    decreases |ios|
  {
    if r.ackTimer == 0 {
      N.AskTick(cfg, r, ios[0]);
      hide R.NakPdus;
      hide R.Tick;
      hide N.Asking;
      assert ios[1..] == [];
      NotHeld(cfg, r);
    } else {
      N.WaitTick(cfg, r, ios[0]);
      var s := r.(ackTimer := r.ackTimer - 1, inactTimer := r.inactTimer - 1);
      assert N.Asking(s) && R.NakPdus(cfg, s) == R.NakPdus(cfg, r);
      hide R.NakPdus;
      hide R.Tick;
      NotHeld(cfg, r);
      hide N.Asking;
      WaitingStaysUp(cfg, s, ios[1..]);
    }
  }

  lemma NotHeld(cfg: Config, r: R.Rx)
    requires N.Asking(r)
    ensures !r.hold
  {}

  /** The limits allow n more periods of the receiver's timer. */
  predicate RxSpare(cfg: Config, r: R.Rx, n: nat) {
    r.acknak + n <= cfg.ackLimit && (n > 0 ==> r.inactTimer > r.ackTimer + RO.Wait(cfg, n - 1))
  }

  /** The receiver after a period of n ticks. */
  function Later(cfg: Config, r: R.Rx, n: nat): R.Rx
    requires n <= r.inactTimer
  {
    r.(ackTimer := cfg.ackTicks, inactTimer := r.inactTimer - n, acknak := r.acknak + 1)
  }

  predicate MdPeriods(cfg: Config, r: R.Rx, es: seq<MdTry>)
    decreases |es|
  {
    es == []
    || (&& |es[0].wait| == r.ackTimer + 1 && es[0].wait[r.ackTimer].canSend && es[0].tio.canSend
        && |es[0].wait| <= r.inactTimer && MdPeriods(cfg, Later(cfg, r, |es[0].wait|), es[1..]))
  }

  lemma RxSpareNext(cfg: Config, r: R.Rx, n: nat)
    requires n > 0 && RxSpare(cfg, r, n)
    ensures r.inactTimer > r.ackTimer && UnderLimit(cfg, r.acknak) && RxSpare(cfg, Later(cfg, r, r.ackTimer + 1), n - 1)
  {}

  lemma MdTryRun(cfg: Config, src: Bytes, keep: bool, s: System, nak: Pdu, e: MdTry)
    requires cfg.Valid() && cfg.inactTicks > 0 && s.r.Some? && Requesting(cfg, src, keep, s, nak) && e.tio.canSend
    requires var r := s.r.value; r.inactTimer > r.ackTimer && UnderLimit(cfg, r.acknak)
    requires |e.wait| == s.r.value.ackTimer + 1 && e.wait[s.r.value.ackTimer].canSend
    ensures Run(cfg, s, MdTryEvents(nak, e)).Some?
    ensures var u := Run(cfg, s, MdTryEvents(nak, e)).value;
            && u.r.Some? && Requesting(cfg, src, keep, u, nak) && SoFar(s, u) && u.t.com.closeReq == s.t.com.closeReq
            && u.r.value == Later(cfg, s.r.value, |e.wait|)
  {
    hide Requesting;
    hide Step;
    hide RxTicks;
    hide HearRequest;
    if e.heard {
      RequestHeard(cfg, src, keep, s, nak, e.tio);
      var u := Run(cfg, s, HearRequest(nak, e.tio)).value;
      RequestRepeated(cfg, src, keep, u, nak, e.wait);
      RunConcat(cfg, s, HearRequest(nak, e.tio), RxTicks(e.wait));
    } else {
      assert MdTryEvents(nak, e) == RxTicks(e.wait);
      RequestRepeated(cfg, src, keep, s, nak, e.wait);
    }
  }

  /** Any number of requests and metadata PDUs lost, under the limits: the receiver still asks. */
  lemma {:induction false} MdTriesRun(cfg: Config, src: Bytes, keep: bool, s: System, nak: Pdu, es: seq<MdTry>)
    requires cfg.Valid() && cfg.inactTicks > 0 && s.r.Some? && Requesting(cfg, src, keep, s, nak)
    requires RxSpare(cfg, s.r.value, |es|) && MdPeriods(cfg, s.r.value, es)
    ensures Run(cfg, s, MdTries(nak, es)).Some?
    ensures var u := Run(cfg, s, MdTries(nak, es)).value;
            && u.r.Some? && Requesting(cfg, src, keep, u, nak) && SoFar(s, u) && u.t.com.closeReq == s.t.com.closeReq
            && SameGoods(s.r.value, u.r.value) && u.r.value.acknak == s.r.value.acknak + |es|
    decreases |es|
  {
    hide Requesting;
    hide MdTryEvents;
    hide Step;
    if es != [] {
      var e := es[0];
      RxSpareNext(cfg, s.r.value, |es|);
      MdTryRun(cfg, src, keep, s, nak, e);
      hide RxSpare;
      var u := Run(cfg, s, MdTryEvents(nak, e)).value;
      MdTriesRun(cfg, src, keep, u, nak, es[1..]);
      RunConcat(cfg, s, MdTryEvents(nak, e), MdTries(nak, es[1..]));
    }
  }

  /** The receiver knows size and checksum, and waits for data. */
  ghost predicate Linked(cfg: Config, src: Bytes, keep: bool, s: System) {
    && !s.recycled && Acknowledged(src, keep, s.t) && s.dst == None && s.t.inactTimer > 0
    && s.r.Some? && N.Open(cfg, src, s.r.value) && s.r.value.file.store.dst == None
    && Ack(DIR_EOF) in s.toTx
  }

  /** A request and metadata that get through. */
  lemma MdAnsweredRun(cfg: Config, src: Bytes, keep: bool, s: System, nak: Pdu, tio: T.TxIo, rio: R.RxIo, stat: int)
    requires cfg.Valid() && cfg.inactTicks > 1 && s.r.Some? && Requesting(cfg, src, keep, s, nak) && tio.canSend
    ensures var es := MdAnswered(nak, Md(|src|, s.t.com.closeReq), tio, rio, stat);
            && Run(cfg, s, es).Some?
            && var r, u := s.r.value, Run(cfg, s, es).value;
               && u.r.Some? && Linked(cfg, src, keep, u) && SoFar(s, u) && u.r.value.file.chunks == r.file.chunks
               && u.r.value.acknak == r.acknak && u.r.value.ackTimer == cfg.ackTicks
               && u.r.value.inactTimer == cfg.inactTicks && u.t.com.closeReq == s.t.com.closeReq
  {
    var r := s.r.value;
    var md := Md(|src|, s.t.com.closeReq);
    RequestHeard(cfg, src, keep, s, nak, tio);
    var u := Run(cfg, s, HearRequest(nak, tio)).value;
    RequestingParts(cfg, src, keep, u, nak);
    DeafNoMore(cfg, src, r, s.t.com.closeReq, rio);
    hide Requesting;
    hide R.Recv;
    hide Deaf;
    hide N.Open;
    hide Acknowledged;
    hide HearRequest;
    RxHears(cfg, u, md, rio, stat);
    RunConcat(cfg, s, HearRequest(nak, tio), [RxRecv(md, true, rio, stat, true)]);
    hide Run;
    assert Elements([]) == {};
  }

  lemma RequestingParts(cfg: Config, src: Bytes, keep: bool, s: System, nak: Pdu)
    requires Requesting(cfg, src, keep, s, nak)
    ensures !s.recycled && Acknowledged(src, keep, s.t) && s.dst == None && Ack(DIR_EOF) in s.toTx
    ensures s.r.Some? && Deaf(cfg, src, s.r.value) && s.r.value.file.store.dst == None
  {
    hide Deaf;
    hide Acknowledged;
  }
}
