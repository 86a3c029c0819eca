/** Repeated NAK rounds, in each of which NAKs and pieces of the answer may be lost, repeated and
    delivered out of order: once enough rounds brought something the chunk list has a place for, and
    none of the limits was reached on the way, the source is in place. */
module Rounds {
  import opened Bytes
  import opened Cfdp
  import opened ChunkGrowth
  import opened ChunkSpec
  import opened GapSpec
  import opened NakRound
  import CfCrc
  import D = RxDelivery
  import E = EndToEnd
  import H = RxHistory
  import R = RxSpec
  import RP = Repair
  import RS = RxSafety
  import RV = RxValidate
  import T = TxSpec
  import TR = TxRetransmit
  import TS = TxSafety

  // ------------------------------------------------------------------ rounds

  /** The two ends, and every piece the sender has put on the channel. */
  datatype Pair = Pair(r: R.Rx, t: T.Tx, sent: set<Pdu>)

  /** One round: the ticks until the receiver's NAK, whether the sender hears it, what its file system
      and channel do during the answer, and what then arrives. */
  datatype Round = Round(ticks: seq<R.RxIo>, heard: bool, ios: seq<T.TxIo>, arrive: seq<Pdu>, rio: R.RxIo)

  function Nudged(tcfg: Config, t: T.Tx, naks: seq<Pdu>, heard: bool): T.Tx {
    if heard && naks != [] then T.Recv(tcfg, t, true, naks[0]) else t
  }

  function After(cfg: Config, tcfg: Config, p: Pair, e: Round): Pair
    requires cfg.Valid()
  {
    var a := TickAll(cfg, p.r, e.ticks);
    var d := TR.Drain(tcfg, Nudged(tcfg, p.t, a.sent, e.heard), e.ios);
    Pair(RP.ReceiveAll(cfg, a.r, e.arrive, e.rio), d.t, p.sent + (set q | q in d.sent))
  }

  function Play(cfg: Config, tcfg: Config, p: Pair, es: seq<Round>): Pair
    requires cfg.Valid()
    decreases |es|
  {
    if es == [] then p else Play(cfg, tcfg, After(cfg, tcfg, p, es[0]), es[1..])
  }

  /** The ticks are one period of the timer, and the NAK can go out at its end; the sender gets enough
      good calls; and of all it ever sent anything may arrive, any number of times, in any order, or
      nothing. */
  predicate Fair(cfg: Config, tcfg: Config, src: Bytes, p: Pair, e: Round)
    requires cfg.Valid()
  {
    && |e.ticks| == p.r.ackTimer + 1 && e.ticks[p.r.ackTimer].canSend
    && RP.Roomy(e.ios) && TR.Goods(src, e.ios) > |src|
    && (forall q :: q in e.arrive ==> q in After(cfg, tcfg, p, e).sent)
    && e.rio.seekOk && e.rio.writable >= |src|
  }

  /** If the sender hears the NAK, it can answer, and truly. */
  predicate Truthful(cfg: Config, tcfg: Config, src: Bytes, p: Pair, e: Round)
    requires cfg.Valid()
  {
    var t1 := Nudged(tcfg, p.t, TickAll(cfg, p.r, e.ticks).sent, e.heard);
    RP.CanAnswer(tcfg, t1, e.ios) && TS.SentTrue(src, TR.Drain(tcfg, t1, e.ios).sent)
  }

  /** Only true pieces of src have been sent. */
  predicate AllTrue(src: Bytes, sent: set<Pdu>) {
    forall q :: q in sent ==> RP.IsPiece(src, q) && RS.Honest(src, q)
  }

  ghost predicate Joined(cfg: Config, tcfg: Config, src: Bytes, p: Pair) {
    Open(cfg, src, p.r) && RP.Idle(tcfg, src, p.t) && AllTrue(src, p.sent)
  }

  /** The ticks n rounds take. */
  function Wait(cfg: Config, n: nat): nat { if n == 0 then 0 else cfg.ackTicks + 1 + Wait(cfg, n - 1) }

  /** Neither the limit on NAKs nor the inactivity timer is reached in the next round, nor in the n that
      follow if nothing arrives. */
  predicate Spare(cfg: Config, r: R.Rx, n: nat) {
    r.acknak + n < cfg.ackLimit && r.inactTimer > r.ackTimer + Wait(cfg, n)
  }

  /** The limits allow n rounds in a row in which nothing arrives. */
  predicate Patient(cfg: Config, n: nat) { n < cfg.ackLimit && cfg.inactTicks > cfg.ackTicks + Wait(cfg, n) }

  /** What the receiver is like when its NAK is out. */
  function NakOut(cfg: Config, r: R.Rx): R.Rx
    requires r.inactTimer > r.ackTimer
  {
    r.(ackTimer := cfg.ackTicks, inactTimer := r.inactTimer - r.ackTimer - 1, acknak := r.acknak + 1)
  }

  lemma OpenTimers(cfg: Config, src: Bytes, r: R.Rx)
    requires Open(cfg, src, r) && r.inactTimer > r.ackTimer
    ensures var u := NakOut(cfg, r); Open(cfg, src, u) && u.file == r.file && u.com == r.com
  {
    hide CfCrc.Checksum;
    hide Orderly;
  }

  /** The first half of a round: the NAK goes out. */
  lemma RoundAsks(cfg: Config, src: Bytes, r: R.Rx, ticks: seq<R.RxIo>, n: nat)
    requires cfg.Valid() && cfg.maxChunks > 1 && Open(cfg, src, r) && Lost(src, r) > 0 && Spare(cfg, r, n)
    requires |ticks| == r.ackTimer + 1 && ticks[r.ackTimer].canSend
    ensures TickAll(cfg, r, ticks) == R.Sending(NakOut(cfg, r), R.NakPdus(cfg, r)) && R.NakPdus(cfg, r) != []
    ensures Open(cfg, src, NakOut(cfg, r))
  {
    LostIsAsking(cfg, src, r);
    OpenTimers(cfg, src, r);
    hide Open;
    hide Asking;
    hide Lost;
    hide R.NakPdus;
    Asks(cfg, r, ticks);
  }

  /** The second half: the sender, whether it heard the NAK or not, is idle again at the end. */
  lemma RoundAnswers(cfg: Config, tcfg: Config, src: Bytes, r: R.Rx, t: T.Tx, heard: bool, ios: seq<T.TxIo>)
    requires cfg.Valid() && Open(cfg, src, r) && RP.Idle(tcfg, src, t) && R.NakPdus(cfg, r) != []
    requires RP.Roomy(ios) && TR.Goods(src, ios) > |src|
    requires RP.CanAnswer(tcfg, Nudged(tcfg, t, R.NakPdus(cfg, r), heard), ios)
    ensures var d := TR.Drain(tcfg, Nudged(tcfg, t, R.NakPdus(cfg, r), heard), ios);
            RP.Idle(tcfg, src, d.t) && !d.t.flags.fdNakPending && RP.AllPieces(src, d.sent)
  {
    var k := NakOfGaps(cfg, r);
    var segs := R.Segments(AllGaps(r.file.chunks, |src|, 0)[..k]);
    assert Separated(r.file.chunks) && NonEmpty(r.file.chunks) && r.file.size == |src|;
    GapsAsk(r.file.chunks, |src|, k);
    hide Open;
    hide AllGaps;
    hide R.NakPdus;
    hide T.Recv;
    hide TR.Drain;
    hide RP.CanAnswer;
    hide NonEmpty;
    hide Separated;
    if heard {
      Requested(tcfg, src, t, segs);
    } else {
      assert NonEmpty([]) by { EmptyList(); }
    }
    hide RP.Idle;
    hide TR.Ready;
    Answers(tcfg, src, t, Nudged(tcfg, t, R.NakPdus(cfg, r), heard), ios);
  }

  lemma EmptyList()
    ensures NonEmpty([])
  {}

  lemma TrueAndWhole(src: Bytes, sent: set<Pdu>, ps: seq<Pdu>)
    requires AllTrue(src, sent) && RP.AllPieces(src, ps) && TS.SentTrue(src, ps)
    ensures AllTrue(src, sent + (set q | q in ps))
  {
    hide RS.Honest;
    assert forall i :: 0 <= i < |ps| ==> RP.IsPiece(src, ps[i]);
    hide RP.IsPiece;
  }

  lemma Arriving(src: Bytes, sent: set<Pdu>, ps: seq<Pdu>)
    requires AllTrue(src, sent) && forall q :: q in ps ==> q in sent
    ensures RP.AllPieces(src, ps) && TS.SentTrue(src, ps)
  {
    hide RS.Honest;
    hide RP.IsPiece;
    assert forall i :: 0 <= i < |ps| ==> ps[i] in sent;
  }

  /** One round: both ends are as before, and what the receiver misses becomes less exactly when
      something useful arrived; if nothing arrived the limits have come one round closer, and if
      anything did they are as far away as ever. */
  lemma RoundStep(cfg: Config, tcfg: Config, src: Bytes, p: Pair, e: Round, n: nat)
    requires cfg.Valid() && cfg.maxChunks > 1 && Joined(cfg, tcfg, src, p) && Lost(src, p.r) > 0
    requires Spare(cfg, p.r, n) && Fair(cfg, tcfg, src, p, e) && Truthful(cfg, tcfg, src, p, e)
    ensures var q := After(cfg, tcfg, p, e);
            && Joined(cfg, tcfg, src, q) && !q.t.flags.fdNakPending
            && (if Helps(cfg, p.r, e.arrive) then Lost(src, q.r) < Lost(src, p.r) else Lost(src, q.r) == Lost(src, p.r))
            && (if e.arrive == [] then q.r == NakOut(cfg, p.r) else Heard(cfg, p.r, q.r))
  {
    hide Open;
    hide RP.Idle;
    hide Lost;
    hide TickAll;
    hide TR.Drain;
    hide RP.ReceiveAll;
    hide R.NakPdus;
    hide RP.CanAnswer;
    hide Nudged;
    hide AllTrue;
    hide TS.SentTrue;
    hide RP.AllPieces;
    hide Helps;
    RoundAsks(cfg, src, p.r, e.ticks, n);
    RoundAnswers(cfg, tcfg, src, p.r, p.t, e.heard, e.ios);
    var r1 := NakOut(cfg, p.r);
    var d := TR.Drain(tcfg, Nudged(tcfg, p.t, R.NakPdus(cfg, p.r), e.heard), e.ios);
    TrueAndWhole(src, p.sent, d.sent);
    var q := After(cfg, tcfg, p, e);
    Arriving(src, q.sent, e.arrive);
    Hears(cfg, src, r1, e.arrive, e.rio);
    SameFileHelps(cfg, src, p.r, r1, e.arrive);
    LostOfChunks(src, r1, q.r);
  }

  lemma SameFileHelps(cfg: Config, src: Bytes, r: R.Rx, u: R.Rx, ps: seq<Pdu>)
    requires u.file == r.file
    ensures (Helps(cfg, r, ps) <==> Helps(cfg, u, ps)) && Lost(src, u) == Lost(src, r)
  {
    hide Useful;
  }

  lemma LostOfChunks(src: Bytes, r: R.Rx, u: R.Rx)
    ensures u.file.chunks == r.file.chunks ==> Lost(src, u) == Lost(src, r)
  {}

  lemma SpareNext(cfg: Config, r: R.Rx, n: nat)
    requires n > 0 && Spare(cfg, r, n)
    ensures Spare(cfg, NakOut(cfg, r), n - 1)
  {}

  lemma SpareAgain(cfg: Config, r: R.Rx, u: R.Rx, n: nat)
    requires Patient(cfg, n) && Heard(cfg, r, u)
    ensures Spare(cfg, u, n)
  {}

  // ------------------------------------------------------------------ when answers are true

  /** Every read delivers all of what it can be asked for, or nothing. */
  predicate WholeOrNothing(src: Bytes, ios: seq<T.TxIo>) {
    forall io :: io in ios ==> io.readable == 0 || io.readable >= |src|
  }

  lemma {:induction false} WholeStaysAtPlace(tcfg: Config, src: Bytes, t: T.Tx, ios: seq<T.TxIo>)
    requires TR.Ready(tcfg, src, t) && TR.AtPlace(t.file) && WholeOrNothing(src, ios)
    ensures TR.NoneShort(tcfg, t, ios) && TR.AtPlace(TR.Drain(tcfg, t, ios).t.file)
    decreases |ios|
  {
    if ios != [] {
      WholeIsNotShort(tcfg, src, t, ios[0]);
      TR.TickNakCases(tcfg, src, t, ios[0]);
      TR.TickNakAtPlace(tcfg, src, t, ios[0]);
      hide T.TickNak;
      hide TR.Ready;
      hide TR.AtPlace;
      hide TR.ShortNak;
      WholeStaysAtPlace(tcfg, src, T.TickNak(tcfg, t, ios[0]).t, ios[1..]);
    }
  }

  lemma WholeIsNotShort(tcfg: Config, src: Bytes, t: T.Tx, io: T.TxIo)
    requires TR.Ready(tcfg, src, t) && (io.readable == 0 || io.readable >= |src|)
    ensures !TR.ShortNak(tcfg, t, io)
  {
    if t.chunks != [] {
      TR.FirstInside(tcfg, src, t);
    }
    hide TR.Ready;
  }

  /** From the place the sender believes in, such reads make an answer that can be given and is true, and
      leave the file at such a place for the next round. */
  lemma WholeReadsServe(tcfg: Config, src: Bytes, t: T.Tx, segs: seq<Segment>, ios: seq<T.TxIo>)
    requires RP.Idle(tcfg, src, t) && Asked(segs) && TR.AtPlace(t.file) && WholeOrNothing(src, ios)
    ensures var t1 := T.Recv(tcfg, t, true, Nak(segs));
            var d := TR.Drain(tcfg, t1, ios);
            RP.CanAnswer(tcfg, t1, ios) && TS.SentTrue(src, d.sent) && TR.AtPlace(d.t.file)
  {
    Requested(tcfg, src, t, segs);
    hide T.Recv;
    hide RP.Idle;
    hide TR.Ready;
    hide NonEmpty;
    var t1 := T.Recv(tcfg, t, true, Nak(segs));
    WholeStaysAtPlace(tcfg, src, t1, ios);
    RP.WholeReadsAnswer(tcfg, src, t1, ios);
  }

  // ------------------------------------------------------------------ enough of them

  /** As long as something is missing, the rounds are fair, and not more than n of them pass without
      anything arriving, later not more than m in a row. */
  ghost predicate Steady(cfg: Config, tcfg: Config, src: Bytes, p: Pair, es: seq<Round>, n: nat, m: nat)
    requires cfg.Valid()
    decreases |es|
  {
    es == [] || Lost(src, p.r) == 0
    || (&& Fair(cfg, tcfg, src, p, es[0]) && (es[0].arrive == [] ==> n > 0)
        && Steady(cfg, tcfg, src, After(cfg, tcfg, p, es[0]), es[1..], if es[0].arrive == [] then n - 1 else m, m))
  }

  /** As long as something is missing, every answer is true. */
  ghost predicate Answered(cfg: Config, tcfg: Config, src: Bytes, p: Pair, es: seq<Round>)
    requires cfg.Valid()
    decreases |es|
  {
    es == [] || Lost(src, p.r) == 0
    || (Truthful(cfg, tcfg, src, p, es[0]) && Answered(cfg, tcfg, src, After(cfg, tcfg, p, es[0]), es[1..]))
  }

  /** The rounds that bring something useful. */
  ghost function Fruitful(cfg: Config, tcfg: Config, p: Pair, es: seq<Round>): nat
    requires cfg.Valid()
    decreases |es|
  {
    if es == [] then 0
    else (if Helps(cfg, p.r, es[0].arrive) then 1 else 0) + Fruitful(cfg, tcfg, After(cfg, tcfg, p, es[0]), es[1..])
  }

  /** As many such rounds as bytes are missing, among any others, end with nothing missing. */
  lemma {:induction false} RoundsFill(cfg: Config, tcfg: Config, src: Bytes, p: Pair, es: seq<Round>, n: nat, m: nat)
      returns (k: nat)
    requires cfg.Valid() && cfg.maxChunks > 1 && Joined(cfg, tcfg, src, p) && Lost(src, p.r) > 0
    requires Spare(cfg, p.r, n) && Patient(cfg, m) && Steady(cfg, tcfg, src, p, es, n, m)
    requires Answered(cfg, tcfg, src, p, es)
    requires Fruitful(cfg, tcfg, p, es) >= Lost(src, p.r)
    ensures 0 < k <= |es|
    ensures var q := Play(cfg, tcfg, p, es[..k]);
            Joined(cfg, tcfg, src, q) && Lost(src, q.r) == 0 && q.r.inactTimer == cfg.inactTicks
    decreases |es|
  {
    hide Joined;
    hide Lost;
    hide After;
    hide Fair;
    hide Truthful;
    hide Spare;
    hide Patient;
    hide Helps;
    hide NakOut;
    var e := es[0];
    var q := After(cfg, tcfg, p, e);
    RoundStep(cfg, tcfg, src, p, e, n);
    if Lost(src, q.r) == 0 {
      k := 1;
      HelpsIsSome(cfg, p.r, e.arrive);
      assert es[..1] == [e];
      PlayOne(cfg, tcfg, p, e);
    } else {
      var n' := if e.arrive == [] then n - 1 else m;
      if e.arrive == [] {
        SpareNext(cfg, p.r, n);
      } else {
        SpareAgain(cfg, p.r, q.r, m);
      }
      k := RoundsFill(cfg, tcfg, src, q, es[1..], n', m);
      k := k + 1;
      assert es[..k] == [e] + es[1..][..k - 1];
      PlayMore(cfg, tcfg, p, e, es[1..][..k - 1]);
    }
  }

  lemma HelpsIsSome(cfg: Config, r: R.Rx, ps: seq<Pdu>)
    ensures Helps(cfg, r, ps) ==> ps != []
  {}

  lemma PlayOne(cfg: Config, tcfg: Config, p: Pair, e: Round)
    requires cfg.Valid()
    ensures Play(cfg, tcfg, p, [e]) == After(cfg, tcfg, p, e)
  {
    hide After;
  }

  lemma PlayMore(cfg: Config, tcfg: Config, p: Pair, e: Round, es: seq<Round>)
    requires cfg.Valid()
    ensures Play(cfg, tcfg, p, [e] + es) == Play(cfg, tcfg, After(cfg, tcfg, p, e), es)
  {
    hide After;
    assert ([e] + es)[1..] == es;
  }

  /** With nothing missing, everything has arrived. */
  lemma FilledHasArrived(cfg: Config, src: Bytes, r: R.Rx)
    requires cfg.Valid() && Open(cfg, src, r) && Lost(src, r) == 0
    ensures D.Arrived(r) && D.Due(r) <= |src| + 5 && r.file.store.temp == src && r.file.size == |src|
    ensures r.reports.eofCrc == CfCrc.Checksum(src)
  {
    assert Missing(r.file.chunks, |src|) == {};
    forall x | 0 <= x < |src|
      ensures Covers(r.file.chunks, x)
    {
      assert x !in Missing(r.file.chunks, |src|);
    }
    hide Missing;
    hide Covers;
    RP.CoveredIsSource(cfg, src, r);
    RP.CoveredIsComplete(r, |src|);
    hide RS.Inv;
    hide RV.Checking;
    hide CfCrc.Checksum;
    hide R.CheckComplete;
    hide Orderly;
    E.RepairedHasArrived(src, r, r);
  }

  /** Whatever is lost, repeated or late in each round: if as many rounds as bytes are missing bring
      something useful, and the limits allow for the others, then, file size plus five ticks of a
      working file system later, the source is in place. */
  lemma RoundsDeliver(cfg: Config, tcfg: Config, src: Bytes, p: Pair, es: seq<Round>, n: nat, m: nat,
                      log: seq<H.Write>, ts: seq<H.Event>) returns (k: nat)
    requires cfg.Valid() && cfg.maxChunks > 1 && cfg.crcBytesPerWakeup > 0 && cfg.inactTicks >= |src| + 5
    requires Joined(cfg, tcfg, src, p) && Lost(src, p.r) > 0
    requires Spare(cfg, p.r, n) && Patient(cfg, m) && Steady(cfg, tcfg, src, p, es, n, m)
    requires Answered(cfg, tcfg, src, p, es)
    requires Fruitful(cfg, tcfg, p, es) >= Lost(src, p.r)
    requires D.GoodTicks(ts, |src|) && |ts| >= |src| + 5
    ensures 0 < k <= |es|
    ensures E.InPlace(src, H.Run(cfg, H.Play(Play(cfg, tcfg, p, es[..k]).r, log), ts).r)
  {
    k := RoundsFill(cfg, tcfg, src, p, es, n, m);
    var r := Play(cfg, tcfg, p, es[..k]).r;
    hide Play;
    hide Steady;
    hide Answered;
    hide Fruitful;
    hide Open;
    hide RP.Idle;
    hide Lost;
    FilledHasArrived(cfg, src, r);
    hide D.Arrived;
    hide D.Due;
    D.Delivers(cfg, H.Play(r, log), ts);
    hide H.Run;
    assert src[..|src|] == src;
  }

  /** In one round, whole reads from the place the sender believes in make the answer true. */
  lemma WholeIsTruthful(cfg: Config, tcfg: Config, src: Bytes, p: Pair, e: Round, n: nat)
    requires cfg.Valid() && cfg.maxChunks > 1 && Joined(cfg, tcfg, src, p) && Lost(src, p.r) > 0
    requires Spare(cfg, p.r, n) && Fair(cfg, tcfg, src, p, e) && TR.AtPlace(p.t.file) && WholeOrNothing(src, e.ios)
    ensures Truthful(cfg, tcfg, src, p, e) && TR.AtPlace(After(cfg, tcfg, p, e).t.file)
  {
    RoundAsks(cfg, src, p.r, e.ticks, n);
    assert Separated(p.r.file.chunks) && NonEmpty(p.r.file.chunks) && p.r.file.size == |src|;
    hide TickAll;
    hide R.NakPdus;
    hide T.Recv;
    hide TR.Drain;
    hide RP.CanAnswer;
    hide TS.SentTrue;
    hide RP.ReceiveAll;
    var k := NakOfGaps(cfg, p.r);
    GapsAsk(p.r.file.chunks, |src|, k);
    hide AllGaps;
    hide NonEmpty;
    hide Separated;
    hide Open;
    if e.heard {
      WholeReadsServe(tcfg, src, p.t, R.Segments(AllGaps(p.r.file.chunks, |src|, 0)[..k]), e.ios);
    } else {
      SilenceServes(tcfg, src, p.t, e.ios);
    }
  }

  lemma SilenceServes(tcfg: Config, src: Bytes, t: T.Tx, ios: seq<T.TxIo>)
    requires RP.Idle(tcfg, src, t) && TR.AtPlace(t.file) && WholeOrNothing(src, ios)
    ensures var d := TR.Drain(tcfg, t, ios);
            RP.CanAnswer(tcfg, t, ios) && TS.SentTrue(src, d.sent) && TR.AtPlace(d.t.file)
  {
    EmptyList();
    WholeStaysAtPlace(tcfg, src, t, ios);
    RP.WholeReadsAnswer(tcfg, src, t, ios);
    hide TR.Drain;
    hide TR.Ready;
  }

  /** With whole reads all answers are true, over any number of rounds. */
  lemma {:induction false} WholeIsAnswered(cfg: Config, tcfg: Config, src: Bytes, p: Pair, es: seq<Round>,
                                           n: nat, m: nat)
    requires cfg.Valid() && cfg.maxChunks > 1 && Joined(cfg, tcfg, src, p)
    requires Spare(cfg, p.r, n) && Patient(cfg, m) && Steady(cfg, tcfg, src, p, es, n, m)
    requires TR.AtPlace(p.t.file) && forall e :: e in es ==> WholeOrNothing(src, e.ios)
    ensures Answered(cfg, tcfg, src, p, es)
    decreases |es|
  {
    hide Joined;
    hide Lost;
    hide After;
    hide Fair;
    hide Truthful;
    hide Spare;
    hide Patient;
    hide Helps;
    hide NakOut;
    hide Heard;
    hide WholeOrNothing;
    if es != [] && Lost(src, p.r) > 0 {
      var e := es[0];
      var q := After(cfg, tcfg, p, e);
      WholeIsTruthful(cfg, tcfg, src, p, e, n);
      RoundStep(cfg, tcfg, src, p, e, n);
      if e.arrive == [] {
        SpareNext(cfg, p.r, n);
      } else {
        SpareAgain(cfg, p.r, q.r, m);
      }
      WholeIsAnswered(cfg, tcfg, src, q, es[1..], if e.arrive == [] then n - 1 else m, m);
    }
  }
}
