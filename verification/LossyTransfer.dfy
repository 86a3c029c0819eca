/** A whole transfer in which anything may be lost: metadata, data, the EOF, requests, acknowledgements and FINs, as
    often as the limits allow.  Both parties come to their end all the same, with the source in place. */
module LossyTransfer {
  import opened Bytes
  import opened Cfdp
  import opened ChunkGrowth
  import opened ChunkSpec
  import opened EndToEnd
  import opened EofRepeat
  import opened FirstPass
  import opened GapSpec
  import opened LossyRounds
  import opened MdRepeat
  import opened Protocol
  import opened Recovery
  import opened Schedule
  import opened Wrappers
  import CfCrc
  import D = RxDelivery
  import F = FinRepeat
  import N = NakRound
  import R = RxSpec
  import RO = Rounds
  import RP = Repair
  import RS = RxSafety
  import RV = RxValidate
  import T = TxSpec
  import TS = TxSafety

  // ------------------------------------------------------------------ the first pass

  function Sends(first: T.TxIo, ios: seq<T.TxIo>, last: T.TxIo): seq<Event> {
    [TxTick(first)] + (DataEvents(ios) + [TxTick(last)])
  }

  lemma SendsRun(cfg: Config, s: System, first: T.TxIo, ios: seq<T.TxIo>, last: T.TxIo)
    requires cfg.Valid() && !s.recycled
    requires var a := T.Tick(cfg, s.t, first).t;
             !T.Recycles(a) && !T.Recycles(T.Tick(cfg, PassAll(cfg, a, ios).t, last).t)
    ensures var x := SendAll(cfg, s.t, first, ios, last);
            Run(cfg, s, Sends(first, ios, last)) == Some(BySender(s, x.t, x.sent))
  {
    hide T.Tick;
    hide T.Recycles;
    hide PassAll;
    hide DataEvents;
    hide BySender;
    hide Step;
    var a := T.Tick(cfg, s.t, first);
    var u := BySender(s, a.t, a.sent);
    OneTxTick(cfg, s, first);
    SenderFields(s, a.t, a.sent);
    PassRun(cfg, u, ios);
    var b := PassAll(cfg, a.t, ios);
    var v := BySender(u, b.t, b.sent);
    SenderFields(u, b.t, b.sent);
    OneTxTick(cfg, v, last);
    RunOne(cfg, v, TxTick(last));
    RunConcat(cfg, u, DataEvents(ios), [TxTick(last)]);
    Ahead(cfg, s, TxTick(first), DataEvents(ios) + [TxTick(last)]);
    var c := T.Tick(cfg, b.t, last);
    BySenderTwice(s, a.t, a.sent, b.t, b.sent);
    BySenderTwice(s, b.t, a.sent + b.sent, c.t, c.sent);
  }

  lemma AwaitingUp(src: Bytes, keep: bool, t: T.Tx)
    requires Awaiting(src, keep, t)
    ensures !T.Recycles(t)
  {}

  /** What of the first pass may reach the receiver before the EOF does. */
  predicate Early(src: Bytes, closeReq: bool, ps: seq<Pdu>, q: Pdu) { q == Md(|src|, closeReq) || q in ps }

  lemma {:induction false} ConsecutiveTrue(src: Bytes, ps: seq<Pdu>, k: nat)
    requires Consecutive(src, ps, k)
    ensures forall q :: q in ps ==> RP.IsPiece(src, q) && RS.Honest(src, q)
    decreases |ps|
  {
    if ps != [] {
      ConsecutiveTrue(src, ps[1..], k + |ps[0].data|);
      assert forall q :: q in ps ==> q == ps[0] || q in ps[1..];
    }
  }

  /** The sender has sent everything once, and is calling. */
  lemma Started(cfg: Config, src: Bytes, keep: bool, cmdTx: bool, closeReq: bool, stat: int,
                first: T.TxIo, ios: seq<T.TxIo>, last: T.TxIo)
    requires cfg.Valid() && cfg.fileChunkSize > 0 && cfg.inactTicks > 1 && !IsError(stat)
    requires first.canSend && last.canSend
    requires FirstPass.Goods(src, ios) >= |src| && forall io :: io in ios ==> Usable(src, io)
    ensures var s := Init(cfg, src, keep, cmdTx, closeReq);
            var ps := SentPieces(cfg, s.t, first, ios);
            && Run(cfg, s, Sends(first, ios, last)).Some?
            && var u := Run(cfg, s, Sends(first, ios, last)).value;
               && Calling(cfg, src, keep, u, stat) && u.r.None? && Consecutive(src, ps, 0)
               && (forall q :: Early(src, closeReq, ps, q) ==> q in u.toRx)
               && u.t.com.closeReq == closeReq && Out(cfg, src, u.t) && u.t.inactTimer >= cfg.inactTicks - 1
  {
    hide SendAll;
    hide SentPieces;
    hide Run;
    hide T.Setup;
    hide R.Setup;
    hide T.Tick;
    hide Awaiting;
    hide Called;
    hide Gathering;
    hide Consecutive;
    hide Out;
    var s := Init(cfg, src, keep, cmdTx, closeReq);
    StartsUp(cfg, src, keep, cmdTx, closeReq, first, ios, last);
    Announces(cfg, true, src, keep, cmdTx, closeReq, first, ios, last);
    SendsRun(cfg, s, first, ios, last);
    var x := SendAll(cfg, s.t, first, ios, last);
    AwaitingCalled(cfg, src, keep, x.t);
    SetupGathers(cfg, src, stat);
    SetupStore(cfg, stat);
    assert EofOf(src) in x.sent;
  }

  lemma SetupStore(cfg: Config, stat: int)
    ensures R.Setup(cfg, true, stat, true, None).file.store.dst == None
  {}

  lemma AwaitingCalled(cfg: Config, src: Bytes, keep: bool, t: T.Tx)
    requires Awaiting(src, keep, t) && t.reliable && Out(cfg, src, t)
    ensures Called(src, keep, t)
  {}

  lemma StartsUp(cfg: Config, src: Bytes, keep: bool, cmdTx: bool, closeReq: bool,
                 first: T.TxIo, ios: seq<T.TxIo>, last: T.TxIo)
    requires cfg.fileChunkSize > 0 && cfg.inactTicks > 0 && first.canSend && last.canSend
    requires FirstPass.Goods(src, ios) >= |src| && forall io :: io in ios ==> Usable(src, io)
    ensures var a := T.Tick(cfg, T.Setup(cfg, true, keep, cmdTx, closeReq, src), first).t;
            !T.Recycles(a) && !T.Recycles(T.Tick(cfg, PassAll(cfg, a, ios).t, last).t)
  {
    FirstTick(cfg, true, src, keep, cmdTx, closeReq, first);
    Announces(cfg, true, src, keep, cmdTx, closeReq, first, ios, last);
    hide T.Tick;
    hide T.Setup;
    hide PassAll;
    hide Awaiting;
    hide Consecutive;
    var t := T.Setup(cfg, true, keep, cmdTx, closeReq, src);
    AwaitingUp(src, keep, SendAll(cfg, t, first, ios, last).t);
  }

  /** What arrives of it, in any order and any number of times, leaves the sender calling and the receiver
      gathering. */
  lemma {:induction false} ArrivalsRun(cfg: Config, src: Bytes, keep: bool, closeReq: bool, ps: seq<Pdu>, s: System,
                                       qs: seq<Pdu>, io: R.RxIo, stat: int)
    requires cfg.Valid() && Calling(cfg, src, keep, s, stat) && io.seekOk && io.writable >= |src|
    requires Gathering(cfg, src, Receiver(cfg, s, true, stat, true)) && Consecutive(src, ps, 0)
    requires forall q :: Early(src, closeReq, ps, q) ==> q in s.toRx
    requires forall q :: q in qs ==> Early(src, closeReq, ps, q)
    ensures Run(cfg, s, Deliver(qs, io, stat)).Some?
    ensures var u := Run(cfg, s, Deliver(qs, io, stat)).value;
            && Calling(cfg, src, keep, u, stat) && u.t == s.t && u.toRx == s.toRx && u.toTx == s.toTx
            && Gathering(cfg, src, Receiver(cfg, u, true, stat, true))
    decreases |qs|
  {
    hide Consecutive;
    hide Calling;
    hide Gathering;
    hide Receiver;
    hide Step;
    if qs != [] {
      var q := qs[0];
      assert q in qs;
      var e := RxRecv(q, true, io, stat, true);
      ArrivalRun(cfg, src, keep, closeReq, ps, s, q, io, stat);
      var u := Step(cfg, s, e);
      ArrivalsRun(cfg, src, keep, closeReq, ps, u, qs[1..], io, stat);
      Ahead(cfg, s, e, Deliver(qs[1..], io, stat));
    }
  }

  lemma ArrivalRun(cfg: Config, src: Bytes, keep: bool, closeReq: bool, ps: seq<Pdu>, s: System, q: Pdu,
                   io: R.RxIo, stat: int)
    requires cfg.Valid() && Calling(cfg, src, keep, s, stat) && io.seekOk && io.writable >= |src|
    requires Gathering(cfg, src, Receiver(cfg, s, true, stat, true)) && Consecutive(src, ps, 0)
    requires q in s.toRx && Early(src, closeReq, ps, q)
    ensures var e := RxRecv(q, true, io, stat, true);
            var u := Step(cfg, s, e);
            && Possible(s, e) && Calling(cfg, src, keep, u, stat) && u.t == s.t && u.toRx == s.toRx && u.toTx == s.toTx
            && Gathering(cfg, src, Receiver(cfg, u, true, stat, true))
  {
    hide Consecutive;
    hide RS.Honest;
    hide RP.IsPiece;
    hide R.Recv;
    hide Gathering;
    hide Noted;
    hide Called;
    hide R.Setup;
    var r := Receiver(cfg, s, true, stat, true);
    ConsecutiveTrue(src, ps, 0);
    if q == Md(|src|, closeReq) {
      GathersMd(cfg, src, r, closeReq, io);
    } else {
      GathersPiece(cfg, src, r, q, io);
    }
  }

  // ------------------------------------------------------------------ between the EOF and the data

  lemma NotedEntered(cfg: Config, src: Bytes, r: R.Rx)
    requires Noted(cfg, src, r) && r.flags.mdRecv
    ensures N.Entered(cfg, src, r) && r.flags.eofAckCount == r.flags.eofCount && r.file.size == |src| && r.acknak == 0
  {
    hide Orderly;
    hide CfCrc.Checksum;
  }

  /** With the metadata there, the receiver's next tick asks for the data that is missing. */
  lemma FirstNakRun(cfg: Config, src: Bytes, keep: bool, s: System, io: R.RxIo)
    requires cfg.Valid() && cfg.maxChunks > 1 && io.canSend && s.r.Some? && Settled(cfg, src, keep, s)
    requires var r := s.r.value; r.flags.mdRecv && N.Lost(src, r) > 0 && r.inactTimer > 1
    ensures Run(cfg, s, [RxTick(io)]).Some?
    ensures var r, u := s.r.value, Run(cfg, s, [RxTick(io)]).value;
            && u.r.Some? && Linked(cfg, src, keep, u) && SoFar(s, u) && u.t == s.t
            && u.r.value.file.chunks == r.file.chunks && u.r.value.acknak == 0
            && u.r.value.ackTimer == cfg.ackTicks && u.r.value.inactTimer == r.inactTimer - 1
  {
    var r := s.r.value;
    NotedEntered(cfg, src, r);
    SettledParts(cfg, src, keep, s);
    hide Settled;
    hide N.Open;
    hide N.Lost;
    hide Noted;
    hide N.Entered;
    hide Acknowledged;
    hide R.Tick;
    hide R.NakPdus;
    N.FirstNak(cfg, src, r, [io]);
    OneTick(cfg, r, io);
    var x := R.Tick(cfg, r, io);
    hide N.TickAll;
    OpenUp(cfg, src, x.r);
    OneRxTick(cfg, s, io);
    RunOne(cfg, s, RxTick(io));
    hide Run;
  }

  lemma SettledParts(cfg: Config, src: Bytes, keep: bool, s: System)
    requires Settled(cfg, src, keep, s)
    ensures !s.recycled && Acknowledged(src, keep, s.t) && s.dst == None && s.t.inactTimer > 0
    ensures s.r.Some? && Noted(cfg, src, s.r.value) && s.r.value.file.store.dst == None && Ack(DIR_EOF) in s.toTx
  {
    hide Acknowledged;
    hide Noted;
  }

  lemma OneTick(cfg: Config, r: R.Rx, io: R.RxIo)
    requires cfg.Valid()
    ensures N.TickAll(cfg, r, [io]) == R.Tick(cfg, r, io)
  {
    hide R.Tick;
    var x := R.Tick(cfg, r, io);
    assert [io][1..] == [];
    assert x.sent + [] == x.sent;
  }

  lemma OpenUp(cfg: Config, src: Bytes, r: R.Rx)
    requires N.Open(cfg, src, r)
    ensures !R.Recycles(r)
  {}

  // ------------------------------------------------------------------ from the whole file to the FIN

  lemma WholeNoted(cfg: Config, src: Bytes, r: R.Rx)
    requires cfg.Valid() && Noted(cfg, src, r) && r.flags.mdRecv && N.Lost(src, r) == 0
    ensures Complete(src, r) && r.reliable && D.Due(r) <= |src| + 5
  {
    assert Missing(r.file.chunks, |src|) == {};
    forall x | 0 <= x < |src|
      ensures Covers(r.file.chunks, x)
    {
      assert x !in Missing(r.file.chunks, |src|);
    }
    hide Missing;
    hide Covers;
    RP.CoveredIsSource(cfg, src, r);
    RP.CoveredIsComplete(r, |src|);
    hide RS.Inv;
    hide RV.Checking;
    hide CfCrc.Checksum;
    hide R.CheckComplete;
    hide Orderly;
    RepairedHasArrived(src, r, r);
  }

  lemma WholeOpen(cfg: Config, src: Bytes, r: R.Rx)
    requires cfg.Valid() && N.Open(cfg, src, r) && N.Lost(src, r) == 0
    ensures Complete(src, r) && r.reliable && D.Due(r) <= |src| + 5
  {
    RO.FilledHasArrived(cfg, src, r);
    hide D.Arrived;
    hide CfCrc.Checksum;
    hide RS.Inv;
    hide Orderly;
  }

  /** The receiver misses nothing, and its sender waits. */
  ghost predicate Filled(src: Bytes, keep: bool, s: System) {
    && !s.recycled && Acknowledged(src, keep, s.t) && s.r.Some? && Complete(src, s.r.value) && s.r.value.reliable
    && D.Due(s.r.value) <= |src| + 5 && Ack(DIR_EOF) in s.toTx
  }

  /** The FIN has been sent, and its timer is running. */
  predicate FinOut(src: Bytes, keep: bool, s: System) {
    !s.recycled && Acknowledged(src, keep, s.t) && s.r.Some? && Finished(src, s)
  }

  lemma ToFinRun(cfg: Config, src: Bytes, keep: bool, s: System, ios: seq<R.RxIo>) returns (k: nat)
    requires cfg.Valid() && cfg.crcBytesPerWakeup > 0 && s.r.Some? && Filled(src, keep, s)
    requires |ios| >= |src| + 8 && s.r.value.inactTimer >= |src| + 8 && forall io :: io in ios ==> GoodRx(src, io)
    ensures 0 < k <= |ios| && Run(cfg, s, RxTicks(ios[..k])).Some?
    ensures var u := Run(cfg, s, RxTicks(ios[..k])).value;
            && u.r.Some? && FinOut(src, keep, u) && u.t == s.t && u.r.value.acknak == 0
            && u.r.value.ackTimer == cfg.ackTicks && u.r.value.inactTimer == s.r.value.inactTimer - k
  {
    hide Complete;
    hide D.Due;
    hide GoodRx;
    hide Run;
    hide RxTicks;
    hide Acknowledged;
    hide Reported;
    k := TicksToEnd(cfg, src, s, ios);
  }

  // ------------------------------------------------------------------ the FIN

  /** FINs that are lost: after each the receiver's timer runs out. */
  function FinTries(waits: seq<seq<R.RxIo>>): seq<Event> {
    if waits == [] then [] else RxTicks(waits[0]) + FinTries(waits[1..])
  }

  predicate FinPeriods(cfg: Config, r: R.Rx, waits: seq<seq<R.RxIo>>)
    decreases |waits|
  {
    waits == []
    || (&& |waits[0]| == r.ackTimer + 1 && waits[0][r.ackTimer].canSend && |waits[0]| <= r.inactTimer
        && FinPeriods(cfg, Later(cfg, r, |waits[0]|), waits[1..]))
  }

  lemma {:induction false} ReportingStaysUp(cfg: Config, r: R.Rx, ios: seq<R.RxIo>)
    requires cfg.Valid() && F.Reporting(r) && r.inactTimer > r.ackTimer && UnderLimit(cfg, r.acknak)
    requires |ios| == r.ackTimer + 1 && ios[r.ackTimer].canSend
    ensures RxStaysUp(cfg, r, ios)
    decreases |ios|
  {
    if r.ackTimer == 0 {
      F.RepeatTick(cfg, r, ios[0]);
      hide R.Tick;
      assert ios[1..] == [];
    } else {
      F.SilentTick(cfg, r, ios[0]);
      hide R.Tick;
      ReportingStaysUp(cfg, r.(ackTimer := r.ackTimer - 1, inactTimer := r.inactTimer - 1), ios[1..]);
    }
  }

  lemma ReportedReports(src: Bytes, cfg: Config, r: R.Rx, n: nat)
    requires Reported(src, r) && n <= r.inactTimer
    ensures F.Reporting(r) && Reported(src, Later(cfg, r, n))
  {}

  lemma FinRepeatedRun(cfg: Config, src: Bytes, keep: bool, s: System, ios: seq<R.RxIo>)
    requires cfg.Valid() && s.r.Some? && FinOut(src, keep, s)
    requires var r := s.r.value; r.inactTimer > r.ackTimer && UnderLimit(cfg, r.acknak)
    requires |ios| == s.r.value.ackTimer + 1 && ios[s.r.value.ackTimer].canSend
    ensures Run(cfg, s, RxTicks(ios)).Some?
    ensures var u := Run(cfg, s, RxTicks(ios)).value;
            u.r == Some(Later(cfg, s.r.value, |ios|)) && FinOut(src, keep, u) && u.t == s.t
  {
    hide Acknowledged;
    hide R.Tick;
    hide R.FinPdu;
    var r := s.r.value;
    ReportedReports(src, cfg, r, |ios|);
    assert s.dst == r.file.store.dst;
    hide Reported;
    F.RepeatsFin(cfg, r, ios);
    ReportingStaysUp(cfg, r, ios);
    hide RxStaysUp;
    hide F.Reporting;
    RxTicksRun(cfg, s, ios);
    hide N.TickAll;
    hide RxTicks;
    hide Run;
  }

  /** Any number of FINs lost, under the limits: it is still repeated. */
  lemma {:induction false} FinTriesRun(cfg: Config, src: Bytes, keep: bool, s: System, waits: seq<seq<R.RxIo>>)
    requires cfg.Valid() && s.r.Some? && FinOut(src, keep, s)
    requires RxSpare(cfg, s.r.value, |waits|) && FinPeriods(cfg, s.r.value, waits)
    ensures Run(cfg, s, FinTries(waits)).Some?
    ensures var u := Run(cfg, s, FinTries(waits)).value; u.r.Some? && FinOut(src, keep, u) && u.t == s.t
    decreases |waits|
  {
    hide FinOut;
    hide RxTicks;
    hide Step;
    if waits != [] {
      RxSpareNext(cfg, s.r.value, |waits|);
      FinRepeatedRun(cfg, src, keep, s, waits[0]);
      hide RxSpare;
      var u := Run(cfg, s, RxTicks(waits[0])).value;
      FinTriesRun(cfg, src, keep, u, waits[1..]);
      RunConcat(cfg, s, RxTicks(waits[0]), FinTries(waits[1..]));
    }
  }

  function FinAnswered(io: T.TxIo, rio: R.RxIo, stat: int): seq<Event> {
    [TxRecv(GOOD_FIN, true)] + ([TxTick(io)] + ([RxRecv(Ack(DIR_FIN), true, rio, stat, true)]
    + ([TxTick(io)] + ([TxTick(io)] + [RxTick(rio)]))))
  }

  lemma FinTaken(cfg: Config, src: Bytes, keep: bool, t: T.Tx)
    requires cfg.ackLimit > 0 && Acknowledged(src, keep, t)
    ensures var u := T.Recv(cfg, t, true, GOOD_FIN);
            EndToEnd.Answered(keep, u, false) && u.inactTimer == cfg.inactTicks
  {}

  lemma FinTakenRun(cfg: Config, src: Bytes, keep: bool, s: System)
    requires cfg.Valid() && cfg.ackLimit > 0 && FinOut(src, keep, s)
    ensures var u := Step(cfg, s, TxRecv(GOOD_FIN, true));
            && Possible(s, TxRecv(GOOD_FIN, true)) && !u.recycled && EndToEnd.Answered(keep, u.t, false)
            && u.t.inactTimer == cfg.inactTicks && Finished(src, u)
  {
    hide Acknowledged;
    hide T.Recv;
    hide EndToEnd.Answered;
    hide Reported;
    FinTaken(cfg, src, keep, s.t);
  }

  /** A FIN and its acknowledgement that get through end the transfer on both sides. */
  lemma FinAnsweredRun(cfg: Config, src: Bytes, keep: bool, s: System, io: T.TxIo, rio: R.RxIo, stat: int)
    requires cfg.Valid() && cfg.ackLimit > 0 && cfg.inactTicks >= 3 && GoodTx(src, io) && FinOut(src, keep, s)
    ensures var v := Run(cfg, s, FinAnswered(io, rio, stat)); v.Some? && Delivered(cfg, src, keep, v.value)
  {
    hide Step;
    hide Run;
    hide Possible;
    hide EndToEnd.Answered;
    hide FinOut;
    hide Finished;
    hide Delivered;
    hide R.Tick;
    FinTakenRun(cfg, src, keep, s);
    var s1 := Step(cfg, s, TxRecv(GOOD_FIN, true));
    FinAckTaken(cfg, src, keep, s1, io, rio, stat);
    var s2 := Step(cfg, s1, TxTick(io));
    var e := RxRecv(Ack(DIR_FIN), true, rio, stat, true);
    var s3 := Step(cfg, s2, e);
    PartingEnds(cfg, src, keep, s3, io, rio);
    var s4 := Step(cfg, s3, TxTick(io));
    var s5 := Step(cfg, s4, TxTick(io));
    var last := [RxTick(rio)];
    var e4 := [TxTick(io)] + last;
    var e3 := [TxTick(io)] + e4;
    var e2 := [e] + e3;
    var e1 := [TxTick(io)] + e2;
    Always(s3, io, rio);
    Always(s4, io, rio);
    Always(s5, io, rio);
    RunOne(cfg, s5, RxTick(rio));
    Ahead(cfg, s4, TxTick(io), last);
    Ahead(cfg, s3, TxTick(io), e4);
    Ahead(cfg, s2, e, e3);
    Ahead(cfg, s1, TxTick(io), e2);
    Ahead(cfg, s, TxRecv(GOOD_FIN, true), e1);
  }

  // ------------------------------------------------------------------ all of it

  /** What is lost, and what the file systems and buffers do: the calls of the first pass; what of it arrives before
      the EOF, in which order and how often; the EOFs, requests for metadata and FINs that bring no answer; the NAK
      rounds; the ticks up to the FIN.  io and rio serve all other steps. */
  datatype Plan = Plan(
    ios: seq<T.TxIo>, arrived: seq<Pdu>, eofs: seq<EofTry>, mds: seq<MdTry>, rounds: seq<RO.Round>,
    ticks: seq<R.RxIo>, fins: seq<seq<R.RxIo>>, io: T.TxIo, rio: R.RxIo)

  /** The file, whether it is kept, how the transfer was asked for, and the status in the receiver's history entry. */
  datatype Job = Job(src: Bytes, keep: bool, cmdTx: bool, closeReq: bool, stat: int)

  /** One period of a timer, at the end of which something can be sent. */
  predicate Period(cfg: Config, ios: seq<R.RxIo>) { |ios| == cfg.ackTicks + 1 && ios[cfg.ackTicks].canSend }

  predicate TxPeriod(cfg: Config, ios: seq<T.TxIo>) { |ios| == cfg.ackTicks + 1 && ios[cfg.ackTicks].canSend }

  function Beginning(cfg: Config, j: Job): System { Init(cfg, j.src, j.keep, j.cmdTx, j.closeReq) }

  /** The pieces of the first pass. */
  function PiecesOf(cfg: Config, j: Job, pl: Plan): seq<Pdu> {
    SentPieces(cfg, Beginning(cfg, j).t, pl.io, pl.ios)
  }

  /** The file systems work when they are needed, what arrives was sent, and the losses, with n rounds to spare, stay
      under the limits. */
  predicate Bearable(cfg: Config, j: Job, pl: Plan, n: nat) {
    && cfg.Valid() && cfg.maxChunks > 1 && cfg.fileChunkSize > 0 && cfg.crcBytesPerWakeup > 0 && !IsError(j.stat)
    && GoodTx(j.src, pl.io) && GoodRx(j.src, pl.rio)
    && FirstPass.Goods(j.src, pl.ios) >= |j.src| && (forall io :: io in pl.ios ==> Usable(j.src, io))
    && (forall q :: q in pl.arrived ==> Early(j.src, j.closeReq, PiecesOf(cfg, j, pl), q))
    && (forall e :: e in pl.eofs ==> TxPeriod(cfg, e.wait) && e.rio.canSend)
    && (forall e :: e in pl.mds ==> Period(cfg, e.wait) && e.tio.canSend)
    && (forall w :: w in pl.fins ==> Period(cfg, w))
    && |pl.ticks| == |j.src| + 8 && (forall io :: io in pl.ticks ==> GoodRx(j.src, io))
    && |pl.eofs| < cfg.ackLimit && |pl.mds| + n < cfg.ackLimit && |pl.fins| <= cfg.ackLimit
    && cfg.inactTicks > RO.Wait(cfg, |pl.eofs|) && cfg.inactTicks > RO.Wait(cfg, |pl.mds|) + 1
    && cfg.inactTicks > RO.Wait(cfg, n) + cfg.ackTicks + 2
    && cfg.inactTicks > RO.Wait(cfg, |pl.fins|) + |j.src| + 8
  }

  /** The stretches of the run, each from where the one before it led. */
  function Go(cfg: Config, s: Option<System>, es: seq<Event>): Option<System>
    requires cfg.Valid()
  {
    if s.None? then None else Run(cfg, s.value, es)
  }

  /** The first pass, and what arrives of it. */
  function Opened(cfg: Config, j: Job, pl: Plan): Option<System>
    requires cfg.Valid()
  {
    Go(cfg, Run(cfg, Beginning(cfg, j), Sends(pl.io, pl.ios, pl.io)), Deliver(pl.arrived, pl.rio, j.stat))
  }

  /** The EOF, until it is acknowledged. */
  function Heard(cfg: Config, j: Job, pl: Plan): Option<System>
    requires cfg.Valid()
  {
    Go(cfg, Go(cfg, Opened(cfg, j, pl), EofTries(j.src, pl.eofs, j.stat)), EofAnswered(j.src, pl.rio, j.stat))
  }

  /** What follows: a receiver without metadata gets it, one with metadata asks for the data it misses. */
  ghost function Inquiry(cfg: Config, j: Job, pl: Plan, s: System): seq<Event>
    requires cfg.Valid()
  {
    if s.r.None? || (s.r.value.flags.mdRecv && N.Lost(j.src, s.r.value) == 0) then []
    else if s.r.value.flags.mdRecv then [RxTick(pl.rio)]
    else
      var naks := R.NakPdus(cfg, s.r.value);
      if naks == [] then []
      else [RxTick(pl.rio)] + (MdTries(naks[0], pl.mds) +
                               MdAnswered(naks[0], Md(|j.src|, s.t.com.closeReq), pl.io, pl.rio, j.stat))
  }

  /** The system when nothing is left to be recovered but data. */
  ghost function UpToData(cfg: Config, j: Job, pl: Plan): Option<System>
    requires cfg.Valid()
  {
    var s := Heard(cfg, j, pl);
    if s.None? then None else Run(cfg, s.value, Inquiry(cfg, j, pl, s.value))
  }

  // ------------------------------------------------------------------ the stretches lead on

  lemma OpenedRun(cfg: Config, j: Job, pl: Plan, n: nat)
    requires Bearable(cfg, j, pl, n)
    ensures Opened(cfg, j, pl).Some?
    ensures var u, ps := Opened(cfg, j, pl).value, PiecesOf(cfg, j, pl);
            && Calling(cfg, j.src, j.keep, u, j.stat) && Gathering(cfg, j.src, Receiver(cfg, u, true, j.stat, true))
            && Consecutive(j.src, ps, 0) && (forall q :: q in ps ==> q in u.toRx)
            && u.t.com.closeReq == j.closeReq && Out(cfg, j.src, u.t) && u.t.inactTimer >= cfg.inactTicks - 1
  {
    hide RO.Wait;
    hide Calling;
    hide Gathering;
    hide Receiver;
    hide Consecutive;
    hide Out;
    hide SentPieces;
    hide Init;
    hide Sends;
    hide Deliver;
    hide Run;
    Started(cfg, j.src, j.keep, j.cmdTx, j.closeReq, j.stat, pl.io, pl.ios, pl.io);
    var s := Run(cfg, Beginning(cfg, j), Sends(pl.io, pl.ios, pl.io)).value;
    StartedGathers(cfg, j.src, j.keep, s, j.stat);
    ArrivalsRun(cfg, j.src, j.keep, j.closeReq, PiecesOf(cfg, j, pl), s, pl.arrived, pl.rio, j.stat);
  }

  lemma StartedGathers(cfg: Config, src: Bytes, keep: bool, s: System, stat: int)
    requires cfg.Valid() && Calling(cfg, src, keep, s, stat) && s.r.None? && !IsError(stat)
    ensures Gathering(cfg, src, Receiver(cfg, s, true, stat, true))
  {
    SetupGathers(cfg, src, stat);
    hide Gathering;
    hide Called;
    hide R.Setup;
  }

  lemma {:induction false} EofPeriodsHold(cfg: Config, t: T.Tx, es: seq<EofTry>)
    requires t.ackTimer == cfg.ackTicks && TxSpare(cfg, t, |es|)
    requires forall e :: e in es ==> TxPeriod(cfg, e.wait) && e.rio.canSend
    ensures EofPeriods(cfg, t, es)
    decreases |es|
  {
    if es != [] {
      assert es[0] in es;
      TxSpareNext(cfg, t, |es|);
      hide TxSpare;
      EofPeriodsHold(cfg, Again(cfg, t, |es[0].wait|), es[1..]);
    }
  }

  lemma {:induction false} MdPeriodsHold(cfg: Config, r: R.Rx, es: seq<MdTry>)
    requires r.ackTimer == cfg.ackTicks && RxSpare(cfg, r, |es|)
    requires forall e :: e in es ==> Period(cfg, e.wait) && e.tio.canSend
    ensures MdPeriods(cfg, r, es)
    decreases |es|
  {
    if es != [] {
      assert es[0] in es;
      RxSpareNext(cfg, r, |es|);
      hide RxSpare;
      MdPeriodsHold(cfg, Later(cfg, r, |es[0].wait|), es[1..]);
    }
  }

  lemma {:induction false} FinPeriodsHold(cfg: Config, r: R.Rx, waits: seq<seq<R.RxIo>>)
    requires r.ackTimer == cfg.ackTicks && RxSpare(cfg, r, |waits|)
    requires forall w :: w in waits ==> Period(cfg, w)
    ensures FinPeriods(cfg, r, waits)
    decreases |waits|
  {
    if waits != [] {
      assert waits[0] in waits;
      RxSpareNext(cfg, r, |waits|);
      hide RxSpare;
      FinPeriodsHold(cfg, Later(cfg, r, |waits[0]|), waits[1..]);
    }
  }

  lemma WaitMore(cfg: Config, n: nat)
    ensures n > 0 ==> RO.Wait(cfg, n) == cfg.ackTicks + 1 + RO.Wait(cfg, n - 1)
  {}

  lemma HeardRun(cfg: Config, j: Job, pl: Plan, n: nat)
    requires Bearable(cfg, j, pl, n)
    ensures Heard(cfg, j, pl).Some?
    ensures var u, ps := Heard(cfg, j, pl).value, PiecesOf(cfg, j, pl);
            && u.r.Some? && Settled(cfg, j.src, j.keep, u) && Consecutive(j.src, ps, 0)
            && (forall q :: q in ps ==> q in u.toRx) && u.t.com.closeReq == j.closeReq
            && u.r.value.inactTimer == cfg.inactTicks - 1
  {
    hide RO.Wait;
    hide Calling;
    hide Receiver;
    hide Consecutive;
    hide PiecesOf;
    hide Run;
    hide EofTries;
    hide EofAnswered;
    hide Settled;
    hide Opened;
    OpenedRun(cfg, j, pl, n);
    var s := Opened(cfg, j, pl).value;
    WaitMore(cfg, |pl.eofs|);
    assert TxSpare(cfg, s.t, |pl.eofs|);
    EofPeriodsHold(cfg, s.t, pl.eofs);
    NoEofYet(cfg, j.src, Receiver(cfg, s, true, j.stat, true));
    hide Gathering;
    hide TxSpare;
    EofTriesRun(cfg, j.src, j.keep, s, pl.eofs, j.stat);
    var u := Run(cfg, s, EofTries(j.src, pl.eofs, j.stat)).value;
    EofAnsweredRun(cfg, j.src, j.keep, u, pl.rio, j.stat);
  }

  lemma NoEofYet(cfg: Config, src: Bytes, r: R.Rx)
    requires Gathering(cfg, src, r)
    ensures r.flags.eofCount == 0
  {}

  /** Nothing but data is missing, if anything is, and there is time for n rounds without any. */
  ghost predicate AtData(cfg: Config, j: Job, s: System, n: nat) {
    && s.r.Some? && s.r.value.inactTimer >= cfg.inactTicks - 2
    && if N.Lost(j.src, s.r.value) > 0
       then Linked(cfg, j.src, j.keep, s) && RO.Spare(cfg, s.r.value, n)
       else Filled(j.src, j.keep, s) && s.r.value.inactTimer >= cfg.inactTicks - 1
  }

  /** A receiver that has nothing to ask for. */
  lemma SettledFilled(cfg: Config, j: Job, s: System)
    requires cfg.Valid() && s.r.Some? && Settled(cfg, j.src, j.keep, s) && s.r.value.flags.mdRecv
    requires N.Lost(j.src, s.r.value) == 0
    ensures Filled(j.src, j.keep, s)
  {
    SettledParts(cfg, j.src, j.keep, s);
    WholeNoted(cfg, j.src, s.r.value);
    hide Settled;
    hide Noted;
    hide Complete;
    hide D.Due;
    hide Acknowledged;
    hide N.Lost;
  }

  lemma LinkedFilled(cfg: Config, j: Job, s: System)
    requires cfg.Valid() && s.r.Some? && Linked(cfg, j.src, j.keep, s) && N.Lost(j.src, s.r.value) == 0
    ensures Filled(j.src, j.keep, s)
  {
    LinkedParts(cfg, j.src, j.keep, s);
    WholeOpen(cfg, j.src, s.r.value);
    hide Linked;
    hide N.Open;
    hide Complete;
    hide D.Due;
    hide Acknowledged;
    hide N.Lost;
  }

  lemma LinkedParts(cfg: Config, src: Bytes, keep: bool, s: System)
    requires Linked(cfg, src, keep, s)
    ensures !s.recycled && Acknowledged(src, keep, s.t) && s.dst == None && s.t.inactTimer > 0
    ensures s.r.Some? && N.Open(cfg, src, s.r.value) && s.r.value.file.store.dst == None && Ack(DIR_EOF) in s.toTx
  {
    hide Acknowledged;
    hide N.Open;
  }

  /** A receiver with metadata: it asks for data, or needs none. */
  lemma InquiryForData(cfg: Config, j: Job, pl: Plan, s: System, n: nat)
    requires Bearable(cfg, j, pl, n) && s.r.Some? && Settled(cfg, j.src, j.keep, s) && s.r.value.flags.mdRecv
    requires s.r.value.inactTimer == cfg.inactTicks - 1
    ensures Run(cfg, s, Inquiry(cfg, j, pl, s)).Some?
    ensures var u := Run(cfg, s, Inquiry(cfg, j, pl, s)).value;
            AtData(cfg, j, u, n) && SoFar(s, u) && u.t.com.closeReq == s.t.com.closeReq
  {
    hide RO.Wait;
    hide Settled;
    hide Linked;
    hide Filled;
    hide N.Lost;
    hide Step;
    hide PiecesOf;
    if N.Lost(j.src, s.r.value) == 0 {
      SettledFilled(cfg, j, s);
    } else {
      FirstNakRun(cfg, j.src, j.keep, s, pl.rio);
      var u := Run(cfg, s, [RxTick(pl.rio)]).value;
      hide Run;
      SameLoss(j.src, s.r.value, u.r.value);
    }
  }

  lemma SameLoss(src: Bytes, r: R.Rx, u: R.Rx)
    requires u.file.chunks == r.file.chunks
    ensures N.Lost(src, u) == N.Lost(src, r)
  {}

  /** One without: it asks for the metadata until it has it. */
  lemma InquiryForMd(cfg: Config, j: Job, pl: Plan, s: System, n: nat)
    requires Bearable(cfg, j, pl, n) && s.r.Some? && Settled(cfg, j.src, j.keep, s) && !s.r.value.flags.mdRecv
    requires s.r.value.inactTimer == cfg.inactTicks - 1
    ensures Run(cfg, s, Inquiry(cfg, j, pl, s)).Some?
    ensures var u := Run(cfg, s, Inquiry(cfg, j, pl, s)).value;
            AtData(cfg, j, u, n) && SoFar(s, u) && u.t.com.closeReq == s.t.com.closeReq
  {
    hide RO.Wait;
    hide Settled;
    hide Linked;
    hide Filled;
    hide Requesting;
    hide N.Lost;
    hide R.NakPdus;
    hide Step;
    hide PiecesOf;
    hide MdTries;
    hide MdAnswered;
    FirstRequest(cfg, j.src, j.keep, s, pl.rio);
    var nak := R.NakPdus(cfg, s.r.value)[0];
    var a := Run(cfg, s, [RxTick(pl.rio)]).value;
    WaitMore(cfg, |pl.mds|);
    assert RxSpare(cfg, a.r.value, |pl.mds|);
    MdPeriodsHold(cfg, a.r.value, pl.mds);
    MdTriesRun(cfg, j.src, j.keep, a, nak, pl.mds);
    var b := Run(cfg, a, MdTries(nak, pl.mds)).value;
    MdAnsweredRun(cfg, j.src, j.keep, b, nak, pl.io, pl.rio, j.stat);
    var md := MdAnswered(nak, Md(|j.src|, s.t.com.closeReq), pl.io, pl.rio, j.stat);
    var u := Run(cfg, b, md).value;
    RunConcat(cfg, a, MdTries(nak, pl.mds), md);
    RunConcat(cfg, s, [RxTick(pl.rio)], MdTries(nak, pl.mds) + md);
    hide Run;
    SoFarOn(s, a, b);
    SoFarOn(s, b, u);
    if N.Lost(j.src, u.r.value) == 0 {
      LinkedFilled(cfg, j, u);
    }
  }

  lemma UpToDataRun(cfg: Config, j: Job, pl: Plan, n: nat)
    requires Bearable(cfg, j, pl, n)
    ensures UpToData(cfg, j, pl).Some?
    ensures var u, ps := UpToData(cfg, j, pl).value, PiecesOf(cfg, j, pl);
            && AtData(cfg, j, u, n) && Consecutive(j.src, ps, 0) && (forall q :: q in ps ==> q in u.toRx)
            && u.t.com.closeReq == j.closeReq
  {
    HeardRun(cfg, j, pl, n);
    hide Bearable;
    hide Consecutive;
    hide PiecesOf;
    hide Run;
    hide Settled;
    hide Heard;
    hide AtData;
    hide Inquiry;
    var s := Heard(cfg, j, pl).value;
    if s.r.value.flags.mdRecv {
      InquiryForData(cfg, j, pl, s, n);
    } else {
      InquiryForMd(cfg, j, pl, s, n);
    }
  }

  // ------------------------------------------------------------------ the data

  /** The two ends at this point, and the pieces of the first pass, which may still arrive. */
  function PairOf(cfg: Config, j: Job, pl: Plan, s: System): RO.Pair
    requires s.r.Some?
  {
    RO.Pair(s.r.value, s.t, Elements(PiecesOf(cfg, j, pl)))
  }

  /** The rounds are fair, their answers are true, and as many of them as bytes are missing bring something useful;
      no more than n at first, and m later, in which nothing arrives follow one another. */
  ghost predicate Suffice(cfg: Config, j: Job, pl: Plan, s: System, n: nat, m: nat)
    requires cfg.Valid()
  {
    s.r.Some? && N.Lost(j.src, s.r.value) > 0 ==>
      var p := PairOf(cfg, j, pl, s);
      && RO.Patient(cfg, m) && RO.Steady(cfg, cfg, j.src, p, pl.rounds, n, m)
      && RO.Answered(cfg, cfg, j.src, p, pl.rounds)
      && RO.Fruitful(cfg, cfg, p, pl.rounds) >= N.Lost(j.src, s.r.value)
  }

  ghost function Recovering(cfg: Config, j: Job, pl: Plan, s: System, k: nat): seq<Event>
    requires cfg.Valid() && k <= |pl.rounds|
  {
    if s.r.None? || N.Lost(j.src, s.r.value) == 0 then []
    else RoundsEvents(cfg, PairOf(cfg, j, pl, s), pl.rounds[..k], j.stat)
  }

  lemma PairJoined(cfg: Config, j: Job, pl: Plan, s: System)
    requires cfg.Valid() && cfg.fileChunkSize > 0 && s.r.Some? && Linked(cfg, j.src, j.keep, s)
    requires Consecutive(j.src, PiecesOf(cfg, j, pl), 0) && forall q :: q in PiecesOf(cfg, j, pl) ==> q in s.toRx
    ensures var p := PairOf(cfg, j, pl, s); RO.Joined(cfg, cfg, j.src, p) && Holds(s, p)
  {
    hide PiecesOf;
    hide Consecutive;
    hide Acknowledged;
    hide N.Open;
    hide RP.Idle;
    hide RS.Honest;
    hide RP.IsPiece;
    LinkedParts(cfg, j.src, j.keep, s);
    hide Linked;
    AcknowledgedIsIdle(cfg, j.src, j.keep, s.t);
    ConsecutiveTrue(j.src, PiecesOf(cfg, j, pl), 0);
  }

  lemma HoldsFilled(cfg: Config, src: Bytes, keep: bool, s: System, u: System, q: RO.Pair)
    requires cfg.Valid() && Holds(u, q) && SoFar(s, u) && Ack(DIR_EOF) in s.toTx
    requires RO.Joined(cfg, cfg, src, q) && N.Lost(src, q.r) == 0 && Acknowledged(src, keep, q.t)
    ensures u.r == Some(q.r) && u.t == q.t && Filled(src, keep, u)
  {
    JoinedOpen(cfg, src, q);
    WholeOpen(cfg, src, q.r);
    hide N.Open;
    hide N.Lost;
    hide Complete;
    hide D.Due;
    hide Acknowledged;
    hide RP.Idle;
  }

  /** The data that is missing is recovered. */
  lemma DataRun(cfg: Config, j: Job, pl: Plan, s: System, n: nat, m: nat) returns (k: nat)
    requires cfg.Valid() && cfg.maxChunks > 1 && cfg.fileChunkSize > 0
    requires AtData(cfg, j, s, n) && Suffice(cfg, j, pl, s, n, m)
    requires Consecutive(j.src, PiecesOf(cfg, j, pl), 0) && forall q :: q in PiecesOf(cfg, j, pl) ==> q in s.toRx
    ensures k <= |pl.rounds| && Run(cfg, s, Recovering(cfg, j, pl, s, k)).Some?
    ensures var u := Run(cfg, s, Recovering(cfg, j, pl, s, k)).value;
            u.r.Some? && Filled(j.src, j.keep, u) && u.r.value.inactTimer >= cfg.inactTicks - 1
  {
    hide N.Lost;
    hide Linked;
    hide Filled;
    hide PiecesOf;
    hide Consecutive;
    hide RO.Steady;
    hide RO.Answered;
    hide RO.Fruitful;
    hide RO.Spare;
    hide RO.Patient;
    hide RO.Joined;
    hide Holds;
    hide RO.Play;
    hide Acknowledged;
    hide RoundsEvents;
    hide SoFar;
    k := 0;
    if N.Lost(j.src, s.r.value) > 0 {
      var p := PairOf(cfg, j, pl, s);
      PairJoined(cfg, j, pl, s);
      LinkedParts(cfg, j.src, j.keep, s);
      hide N.Open;
      k := RoundsRun(cfg, j.src, j.keep, s, p, pl.rounds, n, m, j.stat);
      hide Run;
      var u := Run(cfg, s, RoundsEvents(cfg, p, pl.rounds[..k], j.stat)).value;
      HoldsFilled(cfg, j.src, j.keep, s, u, RO.Play(cfg, cfg, p, pl.rounds[..k]));
    }
  }

  // ------------------------------------------------------------------ the theorem

  /** The whole run: up to the data, k rounds, i ticks up to the FIN, the FIN until it is acknowledged. */
  ghost function Played(cfg: Config, j: Job, pl: Plan, k: nat, i: nat): Option<System>
    requires cfg.Valid() && k <= |pl.rounds| && i <= |pl.ticks|
  {
    var s := UpToData(cfg, j, pl);
    if s.None? then None
    else
      var a := Run(cfg, s.value, Recovering(cfg, j, pl, s.value, k));
      Go(cfg, Go(cfg, Go(cfg, a, RxTicks(pl.ticks[..i])), FinTries(pl.fins)), FinAnswered(pl.io, pl.rio, j.stat))
  }

  lemma ToTheEnd(cfg: Config, j: Job, pl: Plan, n: nat, s: System) returns (i: nat)
    requires Bearable(cfg, j, pl, n) && s.r.Some? && Filled(j.src, j.keep, s)
    requires s.r.value.inactTimer >= cfg.inactTicks - 1
    ensures i <= |pl.ticks|
    ensures var v := Go(cfg, Go(cfg, Run(cfg, s, RxTicks(pl.ticks[..i])), FinTries(pl.fins)),
                        FinAnswered(pl.io, pl.rio, j.stat));
            v.Some? && Delivered(cfg, j.src, j.keep, v.value)
  {
    hide RO.Wait;
    hide Filled;
    hide FinOut;
    hide Delivered;
    hide PiecesOf;
    hide Run;
    hide RxTicks;
    hide FinTries;
    hide FinAnswered;
    i := ToFinRun(cfg, j.src, j.keep, s, pl.ticks);
    var a := Run(cfg, s, RxTicks(pl.ticks[..i])).value;
    WaitMore(cfg, |pl.fins|);
    assert RxSpare(cfg, a.r.value, |pl.fins|);
    FinPeriodsHold(cfg, a.r.value, pl.fins);
    FinTriesRun(cfg, j.src, j.keep, a, pl.fins);
    var b := Run(cfg, a, FinTries(pl.fins)).value;
    FinAnsweredRun(cfg, j.src, j.keep, b, pl.io, pl.rio, j.stat);
  }

  /** Whatever is lost of the first pass, of the EOFs, requests, NAKs, answers, acknowledgements and FINs, as long as
      no limit is reached and enough of the NAK rounds bring something useful: the transfer ends with the source in
      place, the sender told and its source disposed of as it was asked, and both transactions complete. */
  lemma LossyTransfer(cfg: Config, j: Job, pl: Plan, n: nat, m: nat) returns (k: nat, i: nat)
    requires Bearable(cfg, j, pl, n)
    requires UpToData(cfg, j, pl).Some? ==> Suffice(cfg, j, pl, UpToData(cfg, j, pl).value, n, m)
    ensures k <= |pl.rounds| && i <= |pl.ticks|
    ensures var v := Played(cfg, j, pl, k, i); v.Some? && Delivered(cfg, j.src, j.keep, v.value)
  {
    hide AtData;
    hide Suffice;
    hide Filled;
    hide Delivered;
    hide PiecesOf;
    hide Consecutive;
    hide UpToData;
    hide Recovering;
    hide Run;
    hide RxTicks;
    hide FinTries;
    hide FinAnswered;
    UpToDataRun(cfg, j, pl, n);
    var s := UpToData(cfg, j, pl).value;
    assert cfg.Valid() && cfg.maxChunks > 1 && cfg.fileChunkSize > 0;
    k := DataRun(cfg, j, pl, s, n, m);
    var a := Run(cfg, s, Recovering(cfg, j, pl, s, k)).value;
    i := ToTheEnd(cfg, j, pl, n, a);
  }
}
