/** NAK rounds with losses as stretches of a run of both parties. */
module LossyRounds {
  import opened Bytes
  import opened Cfdp
  import opened ChunkSpec
  import opened EndToEnd
  import opened GapSpec
  import opened MdRepeat
  import opened Protocol
  import opened Recovery
  import opened Rounds
  import opened Schedule
  import opened Wrappers
  import CfCrc
  import N = NakRound
  import R = RxSpec
  import RP = Repair
  import T = TxSpec
  import TR = TxRetransmit
  import TS = TxSafety

  // ------------------------------------------------------------------ what a round leaves of the sender

  /** Nothing but its requests, their flag, the place in the file and the inactivity timer. */
  predicate SameSender(t: T.Tx, u: T.Tx) {
    && u == t.(chunks := u.chunks, inactTimer := u.inactTimer, file := u.file, flags := u.flags)
    && u.flags == t.flags.(fdNakPending := u.flags.fdNakPending)
    && u.file.src == t.file.src && u.file.foffs == t.file.foffs && u.file.open == t.file.open
    && u.file.fate == t.file.fate
  }

  lemma SameSenderOn(t: T.Tx, u: T.Tx, v: T.Tx)
    requires SameSender(t, u) && SameSender(u, v)
    ensures SameSender(t, v)
  {}

  lemma {:induction false} NakSame(cfg: Config, t: T.Tx, segs: seq<Segment>)
    requires N.Asked(segs)
    ensures SameSender(t, T.RecvNak(cfg, t, segs))
    decreases |segs|
  {
    hide T.RecvSegment;
    if segs != [] {
      hide SameSender;
      var u := T.RecvSegment(cfg, t, segs[0]);
      SegmentSame(cfg, t, segs[0]);
      NakSame(cfg, u, segs[1..]);
      SameSenderOn(t, u, T.RecvNak(cfg, u, segs[1..]));
    }
  }

  lemma SegmentSame(cfg: Config, t: T.Tx, s: Segment)
    requires s.start != s.end
    ensures SameSender(t, T.RecvSegment(cfg, t, s))
  {
    hide Add;
  }

  lemma HearingNakSame(cfg: Config, t: T.Tx, segs: seq<Segment>)
    requires N.Asked(segs) && t.reliable && !t.hold
    ensures SameSender(t, T.Recv(cfg, t, true, Nak(segs)))
  {
    NakSame(cfg, t, segs);
    hide T.RecvNak;
  }

  lemma SendingSame(cfg: Config, f: T.TxFile, offset: nat, want: nat, io: T.TxIo)
    ensures var g := T.SendFileData(cfg, f, offset, want, false, io).file;
            g.src == f.src && g.foffs == f.foffs && g.open == f.open && g.fate == f.fate
  {
    hide CfCrc.Digest;
  }

  lemma {:induction false} DrainSame(cfg: Config, t: T.Tx, ios: seq<T.TxIo>)
    ensures SameSender(t, TR.Drain(cfg, t, ios).t)
    decreases |ios|
  {
    if ios != [] {
      var u := T.TickNak(cfg, t, ios[0]).t;
      TS.TickNakIs(cfg, t, ios[0]);
      if t.flags.fdNakPending && t.chunks != [] {
        SendingSame(cfg, t.file, t.chunks[0].offset, t.chunks[0].size, ios[0]);
      }
      hide T.TickNak;
      hide T.SendFileData;
      assert SameSender(t, u);
      hide SameSender;
      DrainSame(cfg, u, ios[1..]);
      SameSenderOn(t, u, TR.Drain(cfg, u, ios[1..]).t);
    }
  }

  lemma StillAcknowledged(src: Bytes, keep: bool, t: T.Tx, u: T.Tx)
    requires Acknowledged(src, keep, t) && SameSender(t, u) && u.chunks == [] && !u.flags.fdNakPending
    ensures Acknowledged(src, keep, u)
  {}

  /** A sender that waits for the FIN is idle as far as retransmission goes. */
  lemma AcknowledgedIsIdle(cfg: Config, src: Bytes, keep: bool, t: T.Tx)
    requires cfg.Valid() && cfg.fileChunkSize > 0 && Acknowledged(src, keep, t)
    ensures RP.Idle(cfg, src, t)
  {}

  // ------------------------------------------------------------------ a round as events

  /** The NAK, if the sender hears it. */
  function NakHeard(naks: seq<Pdu>, heard: bool): seq<Event> {
    if heard && naks != [] then [TxRecv(naks[0], true)] else []
  }

  function RoundEvents(cfg: Config, p: Pair, e: Round, stat: int): seq<Event>
    requires cfg.Valid()
  {
    (RxTicks(e.ticks) + NakHeard(N.TickAll(cfg, p.r, e.ticks).sent, e.heard))
    + (NakEvents(e.ios) + Deliver(e.arrive, e.rio, stat))
  }

  function RoundsEvents(cfg: Config, p: Pair, es: seq<Round>, stat: int): seq<Event>
    requires cfg.Valid()
    decreases |es|
  {
    if es == [] then []
    else RoundEvents(cfg, p, es[0], stat) + RoundsEvents(cfg, After(cfg, cfg, p, es[0]), es[1..], stat)
  }

  /** The system whose two ends are those of p, with everything p has sent on its way. */
  predicate Holds(s: System, p: Pair) {
    && !s.recycled && s.r == Some(p.r) && s.t == p.t && s.dst == p.r.file.store.dst && p.sent <= s.toRx
  }

  /** The receiver's part: the ticks up to its NAK. */
  lemma AskingRun(cfg: Config, src: Bytes, s: System, p: Pair, e: Round, n: nat)
    requires cfg.Valid() && cfg.maxChunks > 1 && Holds(s, p) && N.Open(cfg, src, p.r) && N.Lost(src, p.r) > 0
    requires Spare(cfg, p.r, n) && |e.ticks| == p.r.ackTimer + 1 && e.ticks[p.r.ackTimer].canSend
    ensures var x := N.TickAll(cfg, p.r, e.ticks);
            && Run(cfg, s, RxTicks(e.ticks)) == Some(ByReceiver(s, x.r, x.sent))
            && x == R.Sending(NakOut(cfg, p.r), R.NakPdus(cfg, p.r)) && x.sent != [] && N.Open(cfg, src, x.r)
  {
    RoundAsks(cfg, src, p.r, e.ticks, n);
    N.LostIsAsking(cfg, src, p.r);
    hide N.Open;
    hide N.Asking;
    hide R.NakPdus;
    WaitingStaysUp(cfg, p.r, e.ticks);
    hide RxStaysUp;
    hide N.TickAll;
    RxTicksRun(cfg, s, e.ticks);
    hide Run;
  }

  /** The sender's part: it hears the NAK, or not, and sends what it owes. */
  lemma AnsweringRun(cfg: Config, s: System, naks: seq<Pdu>, heard: bool, ios: seq<T.TxIo>)
    requires cfg.Valid() && !s.recycled && forall q :: q in naks ==> q in s.toTx
    ensures var x := TR.Drain(cfg, Nudged(cfg, s.t, naks, heard), ios);
            Run(cfg, s, NakHeard(naks, heard) + NakEvents(ios)) == Some(BySender(s, x.t, x.sent))
  {
    hide TR.Drain;
    hide T.Recv;
    hide NakEvents;
    if heard && naks != [] {
      TxHears(cfg, s, naks[0]);
      var u := BySender(s, T.Recv(cfg, s.t, true, naks[0]), []);
      DrainRun(cfg, u, ios);
      RunConcat(cfg, s, NakHeard(naks, heard), NakEvents(ios));
      var x := TR.Drain(cfg, u.t, ios);
      BySenderTwice(s, u.t, [], x.t, x.sent);
      assert [] + x.sent == x.sent;
    } else {
      assert NakHeard(naks, heard) + NakEvents(ios) == NakEvents(ios);
      DrainRun(cfg, s, ios);
    }
  }

  /** The system once the NAK has been asked and answered. */
  function Exchanged(cfg: Config, s: System, p: Pair, e: Round): System
    requires cfg.Valid()
  {
    var x := N.TickAll(cfg, p.r, e.ticks);
    var d := TR.Drain(cfg, Nudged(cfg, p.t, x.sent, e.heard), e.ios);
    BySender(ByReceiver(s, x.r, x.sent), d.t, d.sent)
  }

  function ExchangeEvents(cfg: Config, p: Pair, e: Round): seq<Event>
    requires cfg.Valid()
  {
    RxTicks(e.ticks) + (NakHeard(N.TickAll(cfg, p.r, e.ticks).sent, e.heard) + NakEvents(e.ios))
  }

  lemma ExchangeRun(cfg: Config, src: Bytes, s: System, p: Pair, e: Round, n: nat)
    requires cfg.Valid() && cfg.maxChunks > 1 && Holds(s, p) && N.Open(cfg, src, p.r) && N.Lost(src, p.r) > 0
    requires Spare(cfg, p.r, n) && |e.ticks| == p.r.ackTimer + 1 && e.ticks[p.r.ackTimer].canSend
    ensures Run(cfg, s, ExchangeEvents(cfg, p, e)) == Some(Exchanged(cfg, s, p, e))
  {
    AskingRun(cfg, src, s, p, e, n);
    var x := N.TickAll(cfg, p.r, e.ticks);
    hide N.Open;
    hide N.Lost;
    hide N.TickAll;
    hide R.NakPdus;
    hide TR.Drain;
    hide Nudged;
    hide NakEvents;
    hide RxTicks;
    hide NakHeard;
    hide Spare;
    hide NakOut;
    hide Step;
    var a := ByReceiver(s, x.r, x.sent);
    AnsweringRun(cfg, a, x.sent, e.heard, e.ios);
    RunConcat(cfg, s, RxTicks(e.ticks), NakHeard(x.sent, e.heard) + NakEvents(e.ios));
  }

  lemma ExchangedHolds(cfg: Config, s: System, p: Pair, e: Round)
    requires cfg.Valid() && Holds(s, p)
    ensures var u, x := Exchanged(cfg, s, p, e), N.TickAll(cfg, p.r, e.ticks);
            && u.r == Some(x.r) && u.dst == x.r.file.store.dst && u.t == After(cfg, cfg, p, e).t && !u.recycled
            && After(cfg, cfg, p, e).sent <= u.toRx && SoFar(s, u)
  {
    hide N.TickAll;
    hide TR.Drain;
    hide Nudged;
    hide RP.ReceiveAll;
  }

  /** All of it. */
  lemma RoundRun(cfg: Config, src: Bytes, s: System, p: Pair, e: Round, n: nat, stat: int)
    requires cfg.Valid() && cfg.maxChunks > 1 && Holds(s, p) && N.Open(cfg, src, p.r) && N.Lost(src, p.r) > 0
    requires Spare(cfg, p.r, n) && |e.ticks| == p.r.ackTimer + 1 && e.ticks[p.r.ackTimer].canSend
    requires forall q :: q in e.arrive ==> q in After(cfg, cfg, p, e).sent
    ensures Run(cfg, s, RoundEvents(cfg, p, e, stat)).Some?
    ensures var u := Run(cfg, s, RoundEvents(cfg, p, e, stat)).value;
            Holds(u, After(cfg, cfg, p, e)) && SoFar(s, u)
  {
    hide N.Open;
    hide N.Lost;
    hide Spare;
    hide Exchanged;
    hide N.TickAll;
    hide TR.Drain;
    hide Nudged;
    hide RxTicks;
    hide NakEvents;
    hide NakHeard;
    hide Deliver;
    hide RP.ReceiveAll;
    hide Step;
    hide Possible;
    ExchangeRun(cfg, src, s, p, e, n);
    ExchangedHolds(cfg, s, p, e);
    var u := Exchanged(cfg, s, p, e);
    RxHearsAll(cfg, u, e.arrive, e.rio, stat);
    RunConcat(cfg, s, ExchangeEvents(cfg, p, e), Deliver(e.arrive, e.rio, stat));
    assert RoundEvents(cfg, p, e, stat) == ExchangeEvents(cfg, p, e) + Deliver(e.arrive, e.rio, stat);
    hide Run;
    assert Elements([]) == {};
  }

  // ------------------------------------------------------------------ rounds until nothing is missing

  /** The round leaves the sender waiting for its FIN. */
  lemma RoundKeepsSender(cfg: Config, src: Bytes, keep: bool, p: Pair, e: Round, n: nat)
    requires cfg.Valid() && cfg.maxChunks > 1 && Joined(cfg, cfg, src, p) && N.Lost(src, p.r) > 0
    requires Spare(cfg, p.r, n) && Fair(cfg, cfg, src, p, e) && Truthful(cfg, cfg, src, p, e)
    requires Acknowledged(src, keep, p.t)
    ensures Acknowledged(src, keep, After(cfg, cfg, p, e).t)
    ensures After(cfg, cfg, p, e).t.com.closeReq == p.t.com.closeReq
    ensures After(cfg, cfg, p, e).t.inactTimer in {p.t.inactTimer, cfg.inactTicks}
  {
    RoundStep(cfg, cfg, src, p, e, n);
    RoundAsks(cfg, src, p.r, e.ticks, n);
    NudgedSame(cfg, src, p.r, p.t, e.heard);
    var t1 := Nudged(cfg, p.t, R.NakPdus(cfg, p.r), e.heard);
    DrainSame(cfg, t1, e.ios);
    DrainInact(cfg, t1, e.ios);
    hide N.Open;
    hide N.TickAll;
    hide R.NakPdus;
    hide TR.Drain;
    hide Nudged;
    hide RP.ReceiveAll;
    hide Fair;
    hide Truthful;
    hide AllTrue;
    SameSenderOn(p.t, t1, TR.Drain(cfg, t1, e.ios).t);
    StillAcknowledged(src, keep, p.t, After(cfg, cfg, p, e).t);
    hide Acknowledged;
  }

  lemma NudgedSame(cfg: Config, src: Bytes, r: R.Rx, t: T.Tx, heard: bool)
    requires cfg.Valid() && N.Open(cfg, src, r) && R.NakPdus(cfg, r) != [] && t.reliable && !t.hold
    ensures var u := Nudged(cfg, t, R.NakPdus(cfg, r), heard);
            SameSender(t, u) && u.inactTimer in {t.inactTimer, cfg.inactTicks}
  {
    var k := N.NakOfGaps(cfg, r);
    assert Separated(r.file.chunks) && NonEmpty(r.file.chunks) && r.file.size == |src|;
    N.GapsAsk(r.file.chunks, |src|, k);
    hide N.Open;
    hide AllGaps;
    hide NonEmpty;
    hide Separated;
    hide R.NakPdus;
    hide T.RecvNak;
    if heard {
      HearingNakSame(cfg, t, R.Segments(AllGaps(r.file.chunks, |src|, 0)[..k]));
    }
  }

  lemma {:induction false} DrainInact(cfg: Config, t: T.Tx, ios: seq<T.TxIo>)
    ensures TR.Drain(cfg, t, ios).t.inactTimer == t.inactTimer
    decreases |ios|
  {
    if ios != [] {
      TS.TickNakIs(cfg, t, ios[0]);
      hide T.TickNak;
      DrainInact(cfg, T.TickNak(cfg, t, ios[0]).t, ios[1..]);
    }
  }

  /** The run has come from the two ends of p to those of q, and nothing is missing any more. */
  ghost predicate Filling(cfg: Config, src: Bytes, keep: bool, s: System, p: Pair, u: System, q: Pair) {
    && Holds(u, q) && SoFar(s, u) && Joined(cfg, cfg, src, q) && N.Lost(src, q.r) == 0
    && q.r.inactTimer == cfg.inactTicks && Acknowledged(src, keep, q.t)
    && q.t.inactTimer in {p.t.inactTimer, cfg.inactTicks}
  }

  /** One round of a run. */
  lemma RoundGoesOn(cfg: Config, src: Bytes, keep: bool, s: System, p: Pair, e: Round, n: nat, stat: int)
    requires cfg.Valid() && cfg.maxChunks > 1 && Joined(cfg, cfg, src, p) && N.Lost(src, p.r) > 0
    requires Spare(cfg, p.r, n) && Fair(cfg, cfg, src, p, e) && Truthful(cfg, cfg, src, p, e)
    requires Holds(s, p) && Acknowledged(src, keep, p.t)
    ensures Run(cfg, s, RoundEvents(cfg, p, e, stat)).Some?
    ensures var u, q := Run(cfg, s, RoundEvents(cfg, p, e, stat)).value, After(cfg, cfg, p, e);
            && Holds(u, q) && SoFar(s, u) && Acknowledged(src, keep, q.t)
            && q.t.inactTimer in {p.t.inactTimer, cfg.inactTicks}
  {
    RoundKeepsSender(cfg, src, keep, p, e, n);
    JoinedOpen(cfg, src, p);
    hide Joined;
    hide N.Open;
    hide N.Lost;
    hide Spare;
    hide Truthful;
    hide Acknowledged;
    hide Holds;
    hide RoundEvents;
    hide Run;
    RoundRun(cfg, src, s, p, e, n, stat);
  }

  lemma FillingNow(cfg: Config, src: Bytes, keep: bool, s: System, p: Pair, e: Round, stat: int)
    requires cfg.Valid() && N.Helps(cfg, p.r, e.arrive) && N.Lost(src, After(cfg, cfg, p, e).r) == 0
    requires Joined(cfg, cfg, src, After(cfg, cfg, p, e))
    requires e.arrive != [] ==> N.Heard(cfg, p.r, After(cfg, cfg, p, e).r)
    requires Run(cfg, s, RoundEvents(cfg, p, e, stat)).Some?
    requires var u, q := Run(cfg, s, RoundEvents(cfg, p, e, stat)).value, After(cfg, cfg, p, e);
             && Holds(u, q) && SoFar(s, u) && Acknowledged(src, keep, q.t)
             && q.t.inactTimer in {p.t.inactTimer, cfg.inactTicks}
    ensures Run(cfg, s, RoundsEvents(cfg, p, [e], stat)).Some?
    ensures Filling(cfg, src, keep, s, p, Run(cfg, s, RoundsEvents(cfg, p, [e], stat)).value, Play(cfg, cfg, p, [e]))
  {
    HelpsIsSome(cfg, p.r, e.arrive);
    PlayOne(cfg, cfg, p, e);
    OneRound(cfg, p, e, stat);
    hide Joined;
    hide N.Lost;
    hide N.Helps;
    hide After;
    hide RoundEvents;
    hide RoundsEvents;
    hide Run;
    hide Play;
    hide Acknowledged;
    hide Holds;
  }

  lemma FillingLater(cfg: Config, src: Bytes, keep: bool, s: System, p: Pair, e: Round, es: seq<Round>, stat: int)
    requires cfg.Valid() && Run(cfg, s, RoundEvents(cfg, p, e, stat)).Some?
    requires var u, q := Run(cfg, s, RoundEvents(cfg, p, e, stat)).value, After(cfg, cfg, p, e);
             && SoFar(s, u) && q.t.inactTimer in {p.t.inactTimer, cfg.inactTicks}
             && Run(cfg, u, RoundsEvents(cfg, q, es, stat)).Some?
             && Filling(cfg, src, keep, u, q, Run(cfg, u, RoundsEvents(cfg, q, es, stat)).value, Play(cfg, cfg, q, es))
    ensures Run(cfg, s, RoundsEvents(cfg, p, [e] + es, stat)).Some?
    ensures Filling(cfg, src, keep, s, p, Run(cfg, s, RoundsEvents(cfg, p, [e] + es, stat)).value,
                    Play(cfg, cfg, p, [e] + es))
  {
    hide Joined;
    hide N.Lost;
    hide After;
    hide RoundEvents;
    hide RoundsEvents;
    hide Play;
    hide Acknowledged;
    hide Holds;
    hide Step;
    hide Possible;
    PlayMore(cfg, cfg, p, e, es);
    MoreRounds(cfg, p, e, es, stat);
    var u := Run(cfg, s, RoundEvents(cfg, p, e, stat)).value;
    RunConcat(cfg, s, RoundEvents(cfg, p, e, stat), RoundsEvents(cfg, After(cfg, cfg, p, e), es, stat));
    hide Run;
    SoFarOn(s, u, Run(cfg, s, RoundsEvents(cfg, p, [e] + es, stat)).value);
  }

  /** Rounds enough, among any others that the limits allow, end with nothing missing. */
  lemma {:induction false} RoundsRun(cfg: Config, src: Bytes, keep: bool, s: System, p: Pair, es: seq<Round>,
                                     n: nat, m: nat, stat: int) returns (k: nat)
    requires cfg.Valid() && cfg.maxChunks > 1 && Joined(cfg, cfg, src, p) && N.Lost(src, p.r) > 0
    requires Spare(cfg, p.r, n) && Patient(cfg, m) && Steady(cfg, cfg, src, p, es, n, m)
    requires Rounds.Answered(cfg, cfg, src, p, es) && Fruitful(cfg, cfg, p, es) >= N.Lost(src, p.r)
    requires Holds(s, p) && Acknowledged(src, keep, p.t)
    ensures 0 < k <= |es| && Run(cfg, s, RoundsEvents(cfg, p, es[..k], stat)).Some?
    ensures Filling(cfg, src, keep, s, p, Run(cfg, s, RoundsEvents(cfg, p, es[..k], stat)).value,
                    Play(cfg, cfg, p, es[..k]))
    decreases |es|
  {
    hide Joined;
    hide N.Lost;
    hide After;
    hide Truthful;
    hide Spare;
    hide Patient;
    hide N.Helps;
    hide N.Heard;
    hide NakOut;
    hide RoundEvents;
    hide RoundsEvents;
    hide Play;
    hide Run;
    hide Acknowledged;
    hide Holds;
    hide SoFar;
    hide Filling;
    var e := es[0];
    var q := After(cfg, cfg, p, e);
    RoundStep(cfg, cfg, src, p, e, n);
    RoundGoesOn(cfg, src, keep, s, p, e, n, stat);
    var u := Run(cfg, s, RoundEvents(cfg, p, e, stat)).value;
    if N.Lost(src, q.r) == 0 {
      k := 1;
      assert es[..1] == [e];
      FillingNow(cfg, src, keep, s, p, e, stat);
    } else {
      var n' := if e.arrive == [] then n - 1 else m;
      if e.arrive == [] {
        SpareNext(cfg, p.r, n);
      } else {
        SpareAgain(cfg, p.r, q.r, m);
      }
      k := RoundsRun(cfg, src, keep, u, q, es[1..], n', m, stat);
      FillingLater(cfg, src, keep, s, p, e, es[1..][..k], stat);
      assert es[..k + 1] == [e] + es[1..][..k];
      k := k + 1;
    }
  }

  lemma SoFarOn(s: System, u: System, v: System)
    requires SoFar(s, u) && SoFar(u, v)
    ensures SoFar(s, v)
  {}

  lemma JoinedOpen(cfg: Config, src: Bytes, p: Pair)
    requires Joined(cfg, cfg, src, p)
    ensures N.Open(cfg, src, p.r)
  {}

  lemma OneRound(cfg: Config, p: Pair, e: Round, stat: int)
    requires cfg.Valid()
    ensures RoundsEvents(cfg, p, [e], stat) == RoundEvents(cfg, p, e, stat)
  {
    hide RoundEvents;
    hide After;
    assert RoundEvents(cfg, p, e, stat) + [] == RoundEvents(cfg, p, e, stat);
  }

  lemma MoreRounds(cfg: Config, p: Pair, e: Round, es: seq<Round>, stat: int)
    requires cfg.Valid()
    ensures RoundsEvents(cfg, p, [e] + es, stat) ==
            RoundEvents(cfg, p, e, stat) + RoundsEvents(cfg, After(cfg, cfg, p, e), es, stat)
  {
    hide RoundEvents;
    hide After;
    assert ([e] + es)[1..] == es;
  }
}
