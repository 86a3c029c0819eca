/** The parts of one NAK round: the receiver's timer runs out and it asks for what it misses, the sender
    answers, and pieces of the answer arrive; and which of them the chunk list has a place for. */
module NakRound {
  import opened Bytes
  import opened Cfdp
  import opened ChunkGrowth
  import opened ChunkSpec
  import opened GapSpec
  import CfCrc
  import R = RxSpec
  import RP = Repair
  import RS = RxSafety
  import RV = RxValidate
  import T = TxSpec
  import TR = TxRetransmit
  import TS = TxSafety

  // ------------------------------------------------------------------ asking

  /** Ticks of the receiver, and all it sent. */
  function TickAll(cfg: Config, r: R.Rx, ios: seq<R.RxIo>): R.Sending
    requires cfg.Valid()
    decreases |ios|
  {
    if ios == [] then R.Sending(r, [])
    else
      var x := R.Tick(cfg, r, ios[0]);
      var rest := TickAll(cfg, x.r, ios[1..]);
      R.Sending(rest.r, x.sent + rest.sent)
  }

  /** In DATA_EOF, all acknowledged, with a NAK out and its timer running. */
  predicate Waiting(r: R.Rx) {
    && !r.hold && r.reliable && r.Ok() && r.sub.DataEof? && !r.com.inactFired && r.com.ackArmed
    && r.flags.eofCount != 0 && r.flags.eofAckCount == r.flags.eofCount
    && !r.flags.sendNak && !r.flags.sendFin && !r.flags.finackRecv
  }

  /** The same while metadata or data is missing. */
  predicate Asking(r: R.Rx) {
    Waiting(r) && (r.flags.mdRecv ==> ComputeGaps(r.file.chunks, 1, r.file.size, 0) != [])
  }

  /** While the timer runs nothing happens. */
  lemma WaitTick(cfg: Config, r: R.Rx, io: R.RxIo)
    requires cfg.Valid() && Asking(r) && r.ackTimer > 0 && r.inactTimer > 0
    ensures R.Tick(cfg, r, io) == R.Sending(r.(ackTimer := r.ackTimer - 1, inactTimer := r.inactTimer - 1), [])
  {
    hide ComputeGaps;
    hide R.NakPdus;
  }

  /** When it has run out, the gaps are reported, unless the limit on NAKs is reached. */
  lemma AskTick(cfg: Config, r: R.Rx, io: R.RxIo)
    requires cfg.Valid() && Asking(r) && r.ackTimer == 0 && r.inactTimer > 0 && io.canSend
    requires UnderLimit(cfg, r.acknak) && R.NakPdus(cfg, r) != []
    ensures R.Tick(cfg, r, io) ==
            R.Sending(r.(ackTimer := cfg.ackTicks, inactTimer := r.inactTimer - 1, acknak := r.acknak + 1),
                      R.NakPdus(cfg, r))
  {
    var s := r.(inactTimer := r.inactTimer - 1, com := r.com.(ackArmed := false), acknak := r.acknak + 1,
                flags := r.flags.(sendNak := true));
    assert R.NakPdus(cfg, s) == R.NakPdus(cfg, r);
    hide ComputeGaps;
    hide R.NakPdus;
    assert R.Advance(cfg, r, io) == s;
  }

  /** A period of the timer sends one NAK. */
  lemma {:induction false} Asks(cfg: Config, r: R.Rx, ios: seq<R.RxIo>)
    requires cfg.Valid() && Asking(r) && r.inactTimer > r.ackTimer && UnderLimit(cfg, r.acknak)
    requires |ios| == r.ackTimer + 1 && ios[r.ackTimer].canSend && R.NakPdus(cfg, r) != []
    ensures TickAll(cfg, r, ios) ==
            R.Sending(r.(ackTimer := cfg.ackTicks, inactTimer := r.inactTimer - |ios|, acknak := r.acknak + 1),
                      R.NakPdus(cfg, r))
    decreases |ios|
  {
    hide R.NakPdus;
    hide R.Tick;
    hide Asking;
    if r.ackTimer == 0 {
      AskTick(cfg, r, ios[0]);
      assert ios[1..] == [];
    } else {
      WaitTick(cfg, r, ios[0]);
      var s := r.(ackTimer := r.ackTimer - 1, inactTimer := r.inactTimer - 1);
      AskingOn(cfg, r, s);
      Asks(cfg, s, ios[1..]);
    }
  }

  /** The timers do not matter to what is asked for. */
  lemma AskingOn(cfg: Config, r: R.Rx, s: R.Rx)
    requires cfg.Valid() && Asking(r) && s == r.(ackTimer := s.ackTimer, inactTimer := s.inactTimer)
    ensures Asking(s) && R.NakPdus(cfg, s) == R.NakPdus(cfg, r)
  {
    hide AllGaps;
    hide R.Segments;
    hide ComputeGaps;
  }

  // ------------------------------------------------------------------ hearing

  /** What receiving a piece does to the timers and the NAK count. */
  predicate Heard(cfg: Config, r: R.Rx, u: R.Rx) {
    u.com == r.com && u.acknak == 0 && u.ackTimer == cfg.ackTicks && u.inactTimer == cfg.inactTicks
  }

  lemma HearsPiece(cfg: Config, r: R.Rx, offset: nat, data: Bytes, io: R.RxIo)
    requires RP.Receptive(r) && r.com.ackArmed && io.seekOk && io.writable >= |data|
    ensures var u := R.Recv(cfg, r, true, Fd(offset, data), io); RP.Receptive(u) && Heard(cfg, r, u)
  {
    RP.ReceivePiece(cfg, r, offset, data, io);
    RecvFdResets(cfg, r, offset, data, io);
    hide R.RecvFd;
    hide Add;
  }

  lemma RecvFdResets(cfg: Config, r: R.Rx, offset: nat, data: Bytes, io: R.RxIo)
    requires RP.Receptive(r) && io.seekOk && io.writable >= |data|
    ensures var u := R.RecvFd(cfg, r, offset, data, io); u.com == r.com && u.acknak == 0
  {
    hide Add;
    hide WriteAt;
  }

  lemma {:induction false} HearsAll(cfg: Config, r: R.Rx, ps: seq<Pdu>, io: R.RxIo)
    requires RP.Receptive(r) && r.com.ackArmed && io.seekOk
    requires forall i :: 0 <= i < |ps| ==> ps[i].Fd? && |ps[i].data| <= io.writable
    ensures var u := RP.ReceiveAll(cfg, r, ps, io); if ps == [] then u == r else Heard(cfg, r, u)
    decreases |ps|
  {
    if ps != [] {
      hide RP.Receptive;
      hide R.Recv;
      HearsPiece(cfg, r, ps[0].offset, ps[0].data, io);
      HearsAll(cfg, R.Recv(cfg, r, true, ps[0], io), ps[1..], io);
    }
  }

  /** A receiver of src that knows size and checksum and asks for what is missing. */
  ghost predicate Open(cfg: Config, src: Bytes, r: R.Rx) {
    && RS.Inv(cfg, src, r) && RP.Receptive(r) && Waiting(r) && r.flags.mdRecv && RV.Checking(r)
    && Orderly(r.file.chunks, cfg.maxChunks, |src|)
    && r.file.size == |src| && r.reports.eofSize == |src| && r.reports.eofCrc == CfCrc.Checksum(src)
  }

  lemma OpenStays(cfg: Config, src: Bytes, r: R.Rx, u: R.Rx)
    requires Open(cfg, src, r) && RS.Inv(cfg, src, u) && RP.Receptive(u) && RP.SameFlags(r, u) && u.com == r.com
    requires Orderly(u.file.chunks, cfg.maxChunks, |src|)
    ensures Open(cfg, src, u)
  {
    hide RS.Inv;
    hide Orderly;
    hide CfCrc.Checksum;
  }

  /** Something useful is among ps. */
  ghost predicate Helps(cfg: Config, r: R.Rx, ps: seq<Pdu>) {
    exists i :: 0 <= i < |ps| && ps[i].Fd? && Useful(r.file.chunks, cfg.maxChunks, Chunk(ps[i].offset, |ps[i].data|))
  }

  ghost function Lost(src: Bytes, r: R.Rx): nat { |Missing(r.file.chunks, |src|)| }

  lemma HelpsIsUseful(cfg: Config, src: Bytes, r: R.Rx, ps: seq<Pdu>)
    requires RP.AllPieces(src, ps)
    ensures (forall i :: 0 <= i < |ps| ==> ps[i].Fd?) && Fit(RP.Pieces(ps), |src|)
    ensures Helps(cfg, r, ps) <==> SomeUseful(r.file.chunks, cfg.maxChunks, RP.Pieces(ps))
  {
    assert forall i :: 0 <= i < |ps| ==> RP.IsPiece(src, ps[i]);
    hide Useful;
    var cs := RP.Pieces(ps);
    if Helps(cfg, r, ps) {
      var i :| 0 <= i < |ps| && ps[i].Fd? && Useful(r.file.chunks, cfg.maxChunks, Chunk(ps[i].offset, |ps[i].data|));
      assert Useful(r.file.chunks, cfg.maxChunks, cs[i]);
    }
    if SomeUseful(r.file.chunks, cfg.maxChunks, cs) {
      var i :| 0 <= i < |cs| && Useful(r.file.chunks, cfg.maxChunks, cs[i]);
      assert Useful(r.file.chunks, cfg.maxChunks, Chunk(ps[i].offset, |ps[i].data|));
    }
  }

  /** Whatever true pieces arrive, the receiver goes on as before, and it misses fewer bytes exactly
      when something useful was among them. */
  lemma Hears(cfg: Config, src: Bytes, r: R.Rx, ps: seq<Pdu>, io: R.RxIo)
    requires cfg.Valid() && Open(cfg, src, r) && io.seekOk && io.writable >= |src|
    requires RP.AllPieces(src, ps) && TS.SentTrue(src, ps)
    ensures var u := RP.ReceiveAll(cfg, r, ps, io);
            && Open(cfg, src, u)
            && (if ps == [] then u == r else Heard(cfg, r, u))
            && (if Helps(cfg, r, ps) then Lost(src, u) < Lost(src, r) else u.file.chunks == r.file.chunks)
  {
    var u := RP.ReceiveAll(cfg, r, ps, io);
    RP.PiecesFit(src, ps, io);
    HelpsIsUseful(cfg, src, r, ps);
    RP.ReceiveAllKeeps(cfg, src, r, ps, io);
    hide RS.Inv;
    hide RP.Receptive;
    hide RV.Checking;
    hide Orderly;
    hide CfCrc.Checksum;
    hide RP.ReceiveAll;
    hide RP.AllPieces;
    hide TS.SentTrue;
    hide Fit;
    hide Missing;
    hide Helps;
    hide SomeUseful;
    RP.ReceiveAllAdds(cfg, r, ps, io);
    HearsAll(cfg, r, ps, io);
    AddAllGrows(r.file.chunks, cfg.maxChunks, RP.Pieces(ps), |src|);
    OpenStays(cfg, src, r, u);
    hide Open;
  }

  /** Where something is missing, and the list may hold more than one chunk, there is a NAK to send. */
  lemma LostIsAsking(cfg: Config, src: Bytes, r: R.Rx)
    requires cfg.Valid() && cfg.maxChunks > 1 && Open(cfg, src, r) && Lost(src, r) > 0
    ensures Asking(r) && R.NakPdus(cfg, r) != []
  {
    hide ComputeGaps;
    hide Covers;
    hide Separated;
    hide RS.Inv;
    var cs := r.file.chunks;
    assert Missing(cs, |src|) != {};
    var x :| x in Missing(cs, |src|);
    RP.NakSentIff(cfg, r);
    NoGapIffCovered(cs, 1, |src|);
  }

  // ------------------------------------------------------------------ the first NAK

  /** A receiver of src that has entered DATA_EOF and has not sent a NAK yet. */
  ghost predicate Entered(cfg: Config, src: Bytes, r: R.Rx) {
    && r.flags.sendNak && !r.com.ackArmed
    && Open(cfg, src, Begun(cfg, r).(inactTimer := r.inactTimer))
  }

  /** The same after its first NAK. */
  function Begun(cfg: Config, r: R.Rx): R.Rx {
    r.(ackTimer := cfg.ackTicks, com := r.com.(ackArmed := true),
       flags := r.flags.(sendNak := false, eofAckCount := r.flags.eofCount))
  }

  lemma AcksEof(cfg: Config, r: R.Rx, io: R.RxIo)
    requires cfg.Valid() && !r.hold && r.reliable && r.Ok() && r.sub.DataEof? && !r.com.inactFired && !r.com.ackArmed
    requires r.flags.sendNak && r.flags.eofAckCount != r.flags.eofCount && r.inactTimer > 0 && io.canSend
    ensures R.Tick(cfg, r, io) ==
            R.Sending(r.(inactTimer := r.inactTimer - 1, flags := r.flags.(eofAckCount := r.flags.eofCount)),
                      [Ack(DIR_EOF)])
  {
    hide R.NakPdus;
    hide ComputeGaps;
  }

  lemma SendsNak(cfg: Config, r: R.Rx, io: R.RxIo)
    requires cfg.Valid() && !r.hold && r.reliable && r.Ok() && r.sub.DataEof? && !r.com.inactFired && !r.com.ackArmed
    requires r.flags.sendNak && r.flags.eofAckCount == r.flags.eofCount && r.inactTimer > 0 && io.canSend
    requires R.NakPdus(cfg, r) != []
    ensures R.Tick(cfg, r, io) == R.Sending(Begun(cfg, r).(inactTimer := r.inactTimer - 1), R.NakPdus(cfg, r))
  {
    var s := r.(inactTimer := r.inactTimer - 1);
    assert R.NakPdus(cfg, s) == R.NakPdus(cfg, r);
    hide ComputeGaps;
    hide R.NakPdus;
    assert R.Advance(cfg, r, io) == s;
  }

  /** From there two ticks at most make it open: the EOF is acknowledged and the gaps are reported. */
  lemma FirstNak(cfg: Config, src: Bytes, r: R.Rx, ios: seq<R.RxIo>)
    requires cfg.Valid() && cfg.maxChunks > 1 && Entered(cfg, src, r) && Lost(src, r) > 0
    requires |ios| == (if r.flags.eofAckCount == r.flags.eofCount then 1 else 2)
    requires r.inactTimer > |ios| && forall io :: io in ios ==> io.canSend
    ensures var x := TickAll(cfg, r, ios);
            && x.r == Begun(cfg, r).(inactTimer := r.inactTimer - |ios|) && Open(cfg, src, x.r)
            && R.NakPdus(cfg, r) != [] && x.sent == (if |ios| == 2 then [Ack(DIR_EOF)] else []) + R.NakPdus(cfg, r)
  {
    var o := Begun(cfg, r).(inactTimer := r.inactTimer);
    LostIsAsking(cfg, src, o);
    assert Waiting(o) && R.NakPdus(cfg, o) == R.NakPdus(cfg, r);
    hide R.NakPdus;
    hide Open;
    hide Lost;
    OpenInact(cfg, src, o, r.inactTimer - |ios|);
    hide R.Tick;
    if |ios| == 2 {
      AcksEof(cfg, r, ios[0]);
      var s := r.(inactTimer := r.inactTimer - 1, flags := r.flags.(eofAckCount := r.flags.eofCount));
      assert R.NakPdus(cfg, s) == R.NakPdus(cfg, r) by { SameGaps(cfg, r, s); }
      SendsNak(cfg, s, ios[1]);
      TwoTicks(cfg, r, ios);
    } else {
      SendsNak(cfg, r, ios[0]);
      assert ios[1..] == [];
    }
  }

  lemma SameGaps(cfg: Config, r: R.Rx, u: R.Rx)
    requires cfg.Valid() && u.file == r.file && u.flags.mdRecv == r.flags.mdRecv
    ensures R.NakPdus(cfg, u) == R.NakPdus(cfg, r)
  {
    hide ComputeGaps;
  }

  lemma TwoTicks(cfg: Config, r: R.Rx, ios: seq<R.RxIo>)
    requires cfg.Valid() && |ios| == 2
    ensures var x := R.Tick(cfg, r, ios[0]);
            var y := R.Tick(cfg, x.r, ios[1]);
            TickAll(cfg, r, ios) == R.Sending(y.r, x.sent + y.sent)
  {
    hide R.Tick;
    assert ios[1..] == [ios[1]] && ios[1..][1..] == [];
    var x := R.Tick(cfg, r, ios[0]);
    var y := R.Tick(cfg, x.r, ios[1]);
    assert TickAll(cfg, x.r, ios[1..]).sent == y.sent + [];
  }

  lemma OpenInact(cfg: Config, src: Bytes, r: R.Rx, n: nat)
    requires Open(cfg, src, r)
    ensures Open(cfg, src, r.(inactTimer := n))
  {
    hide CfCrc.Checksum;
    hide Orderly;
  }

  // ------------------------------------------------------------------ answering

  /** What neither a NAK nor its answer touches. */
  predicate SameRole(t: T.Tx, u: T.Tx) {
    u.reliable == t.reliable && u.hold == t.hold && u.fsize == t.fsize && u.file.open == t.file.open
  }

  lemma {:induction false} NakRole(tcfg: Config, t: T.Tx, segs: seq<Segment>)
    ensures SameRole(t, T.RecvNak(tcfg, t, segs))
    decreases |segs|
  {
    hide Add;
    if segs != [] {
      NakRole(tcfg, T.RecvSegment(tcfg, t, segs[0]), segs[1..]);
    }
  }

  lemma RecvRole(tcfg: Config, t: T.Tx, segs: seq<Segment>)
    ensures SameRole(t, T.Recv(tcfg, t, true, Nak(segs)))
  {
    NakRole(tcfg, t, segs);
    hide T.RecvNak;
  }

  lemma {:induction false} DrainRole(tcfg: Config, src: Bytes, t: T.Tx, ios: seq<T.TxIo>)
    requires TR.Ready(tcfg, src, t)
    ensures var d := TR.Drain(tcfg, t, ios); SameRole(t, d.t) && TR.Ready(tcfg, src, d.t)
    decreases |ios|
  {
    if ios != [] {
      TR.TickNakCases(tcfg, src, t, ios[0]);
      TS.TickNakIs(tcfg, t, ios[0]);
      hide T.TickNak;
      hide TR.Ready;
      DrainRole(tcfg, src, T.TickNak(tcfg, t, ios[0]).t, ios[1..]);
    }
  }

  /** The NAK the receiver sends names the first of its gaps. */
  lemma NakOfGaps(cfg: Config, r: R.Rx) returns (k: nat)
    requires cfg.Valid() && r.flags.mdRecv && R.NakPdus(cfg, r) != []
    ensures 0 < k <= |AllGaps(r.file.chunks, r.file.size, 0)|
    ensures R.NakPdus(cfg, r) == [Nak(R.Segments(AllGaps(r.file.chunks, r.file.size, 0)[..k]))]
  {
    var limit := R.NakLimit(cfg.maxChunks, r.file.chunks);
    var gaps := ComputeGaps(r.file.chunks, limit, r.file.size, 0);
    var all := AllGaps(r.file.chunks, r.file.size, 0);
    GapsLimited(r.file.chunks, limit, r.file.size, 0);
    k := Min(|gaps|, NAK_MAX_SEGMENTS);
    assert gaps <= all;
    assert gaps[..k] == all[..k];
    hide ComputeGaps;
    hide AllGaps;
  }

  /** Every segment asks for something. */
  predicate Asked(segs: seq<Segment>) { forall i :: 0 <= i < |segs| ==> segs[i].start != segs[i].end }

  lemma GapsAsk(cs: seq<Chunk>, total: nat, k: nat)
    requires Separated(cs) && NonEmpty(cs) && k <= |AllGaps(cs, total, 0)|
    ensures Asked(R.Segments(AllGaps(cs, total, 0)[..k]))
  {
    RP.GapsNonEmpty(cs, total);
    hide AllGaps;
    var gaps := AllGaps(cs, total, 0);
    assert forall i :: 0 <= i < k ==> R.Segments(gaps[..k])[i] == R.Segments(gaps)[i];
  }

  /** The requests a NAK leaves with an idle sender. */
  lemma Requested(tcfg: Config, src: Bytes, t: T.Tx, segs: seq<Segment>)
    requires RP.Idle(tcfg, src, t) && Asked(segs)
    ensures var u := T.Recv(tcfg, t, true, Nak(segs));
            && TR.Ready(tcfg, src, u) && NonEmpty(u.chunks) && SameRole(t, u) && u.file == t.file
            && TR.Outstanding(u.chunks) <= |src| && (u.chunks != [] ==> u.flags.fdNakPending)
  {
    RecvRole(tcfg, t, segs);
    RP.NakArrives(tcfg, t, segs);
    hide T.Recv;
    TR.NakAddsSegments(tcfg, t, segs);
    TR.NakKeepsNonEmpty(tcfg, t, segs);
    RP.NakReady(tcfg, src, t, segs);
    hide T.RecvNak;
    hide Add;
    var u := T.Recv(tcfg, t, true, Nak(segs));
    RP.OutstandingBound(u.chunks, 0, |src|);
    hide Separated;
    hide NonEmpty;
  }

  /** With nothing owed nothing is sent. */
  lemma {:induction false} NothingOwed(tcfg: Config, t: T.Tx, ios: seq<T.TxIo>)
    requires t.chunks == []
    ensures var d := TR.Drain(tcfg, t, ios); d.sent == [] && d.t.chunks == []
    decreases |ios|
  {
    if ios != [] {
      TS.TickNakIs(tcfg, t, ios[0]);
      hide T.TickNak;
      NothingOwed(tcfg, T.TickNak(tcfg, t, ios[0]).t, ios[1..]);
    }
  }

  /** A sender that can answer is idle again afterwards, and what it sent are pieces of the file. */
  lemma Answers(tcfg: Config, src: Bytes, t: T.Tx, t1: T.Tx, ios: seq<T.TxIo>)
    requires RP.Idle(tcfg, src, t) && TR.Ready(tcfg, src, t1) && NonEmpty(t1.chunks) && SameRole(t, t1)
    requires TR.Outstanding(t1.chunks) <= |src| && (t1.chunks != [] ==> t1.flags.fdNakPending)
    requires RP.Roomy(ios) && TR.Goods(src, ios) > |src| && RP.CanAnswer(tcfg, t1, ios)
    ensures var d := TR.Drain(tcfg, t1, ios);
            RP.Idle(tcfg, src, d.t) && !d.t.flags.fdNakPending && RP.AllPieces(src, d.sent)
  {
    DrainRole(tcfg, src, t1, ios);
    RP.DrainSendsPieces(tcfg, src, t1, ios);
    if t1.chunks == [] {
      NothingOwed(tcfg, t1, ios);
      if t1.flags.fdNakPending {
        TR.EmptiedDrains(tcfg, t1, ios);
      } else {
        TR.Drained(tcfg, t1, ios);
      }
    } else {
      TR.DrainFinishes(tcfg, src, t1, ios);
    }
    hide TR.Ready;
    hide NonEmpty;
    hide TR.Drain;
  }

  /** What is sent first is the start of the lowest request. */
  lemma {:induction false} FirstServed(tcfg: Config, src: Bytes, t: T.Tx, ios: seq<T.TxIo>)
    requires TR.Ready(tcfg, src, t) && TR.Drain(tcfg, t, ios).sent != []
    ensures t.chunks != [] && TR.Drain(tcfg, t, ios).sent[0].Fd?
    ensures TR.Drain(tcfg, t, ios).sent[0].offset == t.chunks[0].offset
    decreases |ios|
  {
    if ios != [] {
      TR.TickNakCases(tcfg, src, t, ios[0]);
      hide T.TickNak;
      hide TR.Ready;
      if T.TickNak(tcfg, t, ios[0]).sent == [] {
        FirstServed(tcfg, src, T.TickNak(tcfg, t, ios[0]).t, ios[1..]);
      }
    }
  }

  /** Every piece of the answer starts at an offset the receiver does not have. */
  lemma AnswerIsNew(tcfg: Config, src: Bytes, t: T.Tx, cs: seq<Chunk>, k: nat, ios: seq<T.TxIo>, i: nat)
    requires RP.Idle(tcfg, src, t) && Separated(cs) && NonEmpty(cs) && k <= |AllGaps(cs, |src|, 0)|
    requires var ps := TR.Drain(tcfg, T.Recv(tcfg, t, true, Nak(R.Segments(AllGaps(cs, |src|, 0)[..k]))), ios).sent;
             i < |ps| && RP.IsPiece(src, ps[i])
    ensures var ps := TR.Drain(tcfg, T.Recv(tcfg, t, true, Nak(R.Segments(AllGaps(cs, |src|, 0)[..k]))), ios).sent;
            !Covers(cs, ps[i].offset)
  {
    var gaps := AllGaps(cs, |src|, 0);
    var segs := R.Segments(gaps[..k]);
    GapsAsk(cs, |src|, k);
    hide AllGaps;
    Requested(tcfg, src, t, segs);
    RP.NakArrives(tcfg, t, segs);
    hide T.Recv;
    var t1 := T.Recv(tcfg, t, true, Nak(segs));
    var ps := TR.Drain(tcfg, t1, ios).sent;
    var x := ps[i].offset;
    assert TR.Carries(ps[i], x);
    TR.DrainSplits(tcfg, src, t1, ios, x);
    TR.NakRequests(tcfg, t, segs);
    hide T.RecvNak;
    hide TR.Drain;
    hide NonEmpty;
    hide Separated;
    assert TR.InSegment(|src|, segs, x);
    var j :| 0 <= j < |segs| && segs[j].start <= x < segs[j].end;
    assert gaps[j].Has(x);
    GapsUncovered(cs, |src|, 0, x);
  }

  /** The lowest of the requests starts where a gap starts: behind something held, or at 0. */
  lemma LowestRequest(cs: seq<Chunk>, total: nat, k: nat, owed: seq<Chunk>)
    requires Separated(cs) && NonEmpty(cs) && Inside(cs, total) && k <= |AllGaps(cs, total, 0)|
    requires Separated(owed) && NonEmpty(owed) && owed != []
    requires forall x :: Covers(owed, x) <==> TR.InSegment(total, R.Segments(AllGaps(cs, total, 0)[..k]), x)
    ensures owed[0].offset == 0 || Covers(cs, owed[0].offset - 1)
  {
    var gaps := AllGaps(cs, total, 0);
    var segs := R.Segments(gaps[..k]);
    GapsSeparated(cs, total, 0);
    hide AllGaps;
    var x := owed[0].offset;
    HasCovers(owed, 0, x);
    NothingBelow(owed, x - 1);
    hide Covers;
    assert TR.InSegment(total, segs, x);
    var j :| 0 <= j < |segs| && segs[j].start <= x < segs[j].end <= total;
    if x > 0 && !Covers(cs, x - 1) {
      assert !TR.InSegment(total, segs, x - 1);
      assert segs[j].start == x && gaps[j].offset == x;
      GapsComplete(cs, total, 0, x - 1);
      NotAdjacent(gaps, j);
    }
  }

  lemma NothingBelow(cs: seq<Chunk>, x: int)
    requires Separated(cs) && cs != [] && x < cs[0].offset
    ensures !Covers(cs, x)
  {
    assert forall i :: 0 < i < |cs| ==> cs[0].End() < cs[i].offset;
  }

  lemma NotAdjacent(cs: seq<Chunk>, j: nat)
    requires Separated(cs) && j < |cs|
    ensures !Covers(cs, cs[j].offset - 1)
  {
    assert forall i :: 0 <= i < |cs| && i != j ==> cs[i].End() < cs[j].offset || cs[j].End() < cs[i].offset;
  }

  /** What a piece of the answer is good for: any, where the list has room; and where it has none, the
      first one sent, if the beginning of the file is there and the requests fit the sender's list. */
  lemma AnswerHelps(cfg: Config, tcfg: Config, src: Bytes, r: R.Rx, t: T.Tx, ios: seq<T.TxIo>, i: nat)
    requires cfg.Valid() && Open(cfg, src, r) && RP.Idle(tcfg, src, t) && R.NakPdus(cfg, r) != []
    requires var ps := TR.Drain(tcfg, T.Recv(tcfg, t, true, R.NakPdus(cfg, r)[0]), ios).sent;
             i < |ps| && RP.IsPiece(src, ps[i])
    requires || |r.file.chunks| < cfg.maxChunks
             || (i == 0 && Covers(r.file.chunks, 0) && |R.NakPdus(cfg, r)[0].segments| <= tcfg.maxChunks)
    ensures Helps(cfg, r, [TR.Drain(tcfg, T.Recv(tcfg, t, true, R.NakPdus(cfg, r)[0]), ios).sent[i]])
  {
    var cs := r.file.chunks;
    var k := NakOfGaps(cfg, r);
    assert r.file.size == |src| && Separated(cs) && NonEmpty(cs) && Inside(cs, |src|);
    var segs := R.Segments(AllGaps(cs, |src|, 0)[..k]);
    hide AllGaps;
    hide Open;
    hide R.NakPdus;
    hide T.Recv;
    hide Separated;
    hide Inside;
    var p := TR.Drain(tcfg, T.Recv(tcfg, t, true, Nak(segs)), ios).sent[i];
    AnswerIsNew(tcfg, src, t, cs, k, ios, i);
    if |cs| >= cfg.maxChunks {
      FirstTouches(tcfg, src, t, cs, k, ios);
    }
    hide TR.Drain;
    hide RP.Idle;
    hide Covers;
    NewIsUseful(cfg, r, p);
  }

  lemma NewIsUseful(cfg: Config, r: R.Rx, p: Pdu)
    requires p.Fd? && p.data != [] && !Covers(r.file.chunks, p.offset)
    requires |r.file.chunks| < cfg.maxChunks || Touches(r.file.chunks, Chunk(p.offset, |p.data|))
    ensures Helps(cfg, r, [p])
  {
    var c := Chunk(p.offset, |p.data|);
    assert c.Has(p.offset);
    assert Useful(r.file.chunks, cfg.maxChunks, c);
    assert [p][0] == p;
  }

  /** The same of what a NAK leaves owed, if all of it fits the sender's list. */
  lemma LowestOwed(tcfg: Config, src: Bytes, t: T.Tx, cs: seq<Chunk>, k: nat)
    requires RP.Idle(tcfg, src, t) && Separated(cs) && NonEmpty(cs) && Inside(cs, |src|)
    requires k <= |AllGaps(cs, |src|, 0)| && k <= tcfg.maxChunks
    ensures var owed := T.Recv(tcfg, t, true, Nak(R.Segments(AllGaps(cs, |src|, 0)[..k]))).chunks;
            owed != [] ==> owed[0].offset == 0 || Covers(cs, owed[0].offset - 1)
  {
    var segs := R.Segments(AllGaps(cs, |src|, 0)[..k]);
    GapsAsk(cs, |src|, k);
    hide AllGaps;
    RP.NakArrives(tcfg, t, segs);
    Requested(tcfg, src, t, segs);
    hide T.Recv;
    TR.NakRequests(tcfg, t, segs);
    hide T.RecvNak;
    var t1 := T.Recv(tcfg, t, true, Nak(segs));
    assert Separated(t1.chunks) && !Covers(t.chunks, 0);
    hide RP.Idle;
    hide TR.Ready;
    hide Covers;
    hide Separated;
    hide NonEmpty;
    hide TR.InSegment;
    if t1.chunks != [] {
      LowestRequest(cs, |src|, k, t1.chunks);
    }
  }

  lemma FirstTouches(tcfg: Config, src: Bytes, t: T.Tx, cs: seq<Chunk>, k: nat, ios: seq<T.TxIo>)
    requires RP.Idle(tcfg, src, t) && Separated(cs) && NonEmpty(cs) && Inside(cs, |src|) && Covers(cs, 0)
    requires k <= |AllGaps(cs, |src|, 0)| && k <= tcfg.maxChunks
    requires var ps := TR.Drain(tcfg, T.Recv(tcfg, t, true, Nak(R.Segments(AllGaps(cs, |src|, 0)[..k]))), ios).sent;
             ps != [] && RP.IsPiece(src, ps[0]) && !Covers(cs, ps[0].offset)
    ensures var ps := TR.Drain(tcfg, T.Recv(tcfg, t, true, Nak(R.Segments(AllGaps(cs, |src|, 0)[..k]))), ios).sent;
            Touches(cs, Chunk(ps[0].offset, |ps[0].data|))
  {
    var segs := R.Segments(AllGaps(cs, |src|, 0)[..k]);
    GapsAsk(cs, |src|, k);
    LowestOwed(tcfg, src, t, cs, k);
    hide AllGaps;
    hide NonEmpty;
    hide Separated;
    Requested(tcfg, src, t, segs);
    hide T.Recv;
    var t1 := T.Recv(tcfg, t, true, Nak(segs));
    FirstServed(tcfg, src, t1, ios);
    hide RP.Idle;
    hide TR.Ready;
    var p := TR.Drain(tcfg, t1, ios).sent[0];
    hide TR.Drain;
    var j :| 0 <= j < |cs| && cs[j].Has(p.offset - 1);
    TouchAt(cs, j, Chunk(p.offset, |p.data|));
  }
}
