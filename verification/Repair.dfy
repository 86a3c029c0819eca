/** One loss-free NAK round repairs everything: the gaps the receiver reports become requests of
    the sender, the pieces the sender transmits fill exactly those gaps, and the receiver then
    finds the file complete. */
module Repair {
  import opened Bytes
  import opened Cfdp
  import opened ChunkSpec
  import opened GapSpec
  import CfCrc
  import R = RxSpec
  import RS = RxSafety
  import T = TxSpec
  import TS = TxSafety
  import opened TxRetransmit

  // ------------------------------------------------------------------ the NAK

  lemma NoGapsAtAll(cs: seq<Chunk>, limit: nat, total: nat)
    requires Separated(cs)
    ensures limit > 0 ==>
              (ComputeGaps(cs, limit, total, 0) == [] <==> forall x :: 0 <= x < total ==> Covers(cs, x))
    ensures limit == 0 ==>
              (ComputeGaps(cs, limit, total, 0) == [] <==> total == 0 || (cs != [] && cs[0].offset == 0))
  {
    if limit > 0 {
      NoGapIffCovered(cs, limit, total);
    } else {
      GapsLimited(cs, 0, total, 0);
    }
  }

  /** A receiver that knows the size stays silent exactly when nothing is missing, or when its
      list holds a single chunk, is full, and that chunk starts at the beginning: then the limit on
      the number of gaps is zero, and the NAK of an incomplete file is not sent. */
  lemma NakSentIff(cfg: Config, r: R.Rx)
    requires cfg.Valid() && r.flags.mdRecv && Separated(r.file.chunks) && |r.file.chunks| <= cfg.maxChunks
    ensures R.NakPdus(cfg, r) == [] <==>
            (forall x :: 0 <= x < r.file.size ==> Covers(r.file.chunks, x))
            || (cfg.maxChunks == 1 && |r.file.chunks| == 1 && r.file.chunks[0].offset == 0)
  {
    hide ComputeGaps;
    hide Covers;
    hide Separated;
    NoGapsAtAll(r.file.chunks, R.NakLimit(cfg.maxChunks, r.file.chunks), r.file.size);
    if |r.file.chunks| == 1 {
      OneChunkCovers(r.file.chunks);
    }
  }

  lemma OneChunkCovers(cs: seq<Chunk>)
    requires |cs| == 1
    ensures Covers(cs, 0) ==> cs[0].offset == 0
  {}

  /** All gaps of r fit into one NAK. */
  predicate OneNak(cfg: Config, r: R.Rx)
    requires cfg.Valid()
  {
    var gaps := AllGaps(r.file.chunks, r.file.size, 0);
    0 < |gaps| <= R.NakLimit(cfg.maxChunks, r.file.chunks) && |gaps| <= NAK_MAX_SEGMENTS
  }

  lemma NakCarriesAllGaps(cfg: Config, r: R.Rx)
    requires cfg.Valid() && r.flags.mdRecv && OneNak(cfg, r)
    ensures R.NakPdus(cfg, r) == [Nak(R.Segments(AllGaps(r.file.chunks, r.file.size, 0)))]
  {
    hide ComputeGaps;
    hide AllGaps;
    GapsLimited(r.file.chunks, R.NakLimit(cfg.maxChunks, r.file.chunks), r.file.size, 0);
    var gaps := AllGaps(r.file.chunks, r.file.size, 0);
    assert ComputeGaps(r.file.chunks, R.NakLimit(cfg.maxChunks, r.file.chunks), r.file.size, 0) == gaps;
    assert gaps[..|gaps|] == gaps;
  }

  /** When every chunk lies inside the file, so does every gap. */
  lemma GapInside(cs: seq<Chunk>, total: nat, j: nat)
    requires Separated(cs) && Inside(cs, total) && j < |AllGaps(cs, total, 0)|
    ensures AllGaps(cs, total, 0)[j].End() <= total
  {
    hide GapsFrom;
    if cs != [] {
      GapEnd(cs, total, 0, j);
      var end := AllGaps(cs, total, 0)[j].End();
      if StartsAt(cs, end) {
        var k :| 0 <= k < |cs| && cs[k].offset == end;
      }
    }
  }

  /** The segments ask for exactly what is missing. */
  lemma SegmentsAreTheMissing(cs: seq<Chunk>, total: nat, x: int)
    requires Separated(cs) && Inside(cs, total)
    ensures InSegment(total, R.Segments(AllGaps(cs, total, 0)), x) <==> 0 <= x < total && !Covers(cs, x)
  {
    var gaps := AllGaps(cs, total, 0);
    var segs := R.Segments(gaps);
    hide AllGaps;
    hide Separated;
    hide R.Segments;
    if InSegment(total, segs, x) {
      var i :| 0 <= i < |segs| && segs[i].start <= x < segs[i].end <= total;
      assert gaps[i].Has(x);
      GapsUncovered(cs, total, 0, x);
    }
    if 0 <= x < total && !Covers(cs, x) {
      GapsComplete(cs, total, 0, x);
      var i :| 0 <= i < |gaps| && gaps[i].Has(x);
      GapInside(cs, total, i);
      assert segs[i].start <= x < segs[i].end <= total;
    }
  }

  // ------------------------------------------------------------------ the pieces

  /** A piece starts right after something that is already there, or the list has room for one
      that starts at the beginning. */
  ghost predicate Linked(cs: seq<Chunk>, max: nat, ps: seq<Chunk>, i: nat)
    requires i < |ps|
  {
    || (i == 0 && |cs| < max)
    || Covers(cs, ps[i].offset - 1)
    || exists j :: 0 <= j < i && ps[j].Has(ps[i].offset - 1)
  }

  lemma LinkedTouches(cs: seq<Chunk>, max: nat, ps: seq<Chunk>)
    requires ps != [] && Linked(cs, max, ps, 0)
    ensures |cs| < max || Touches(cs, ps[0])
  {
    if Covers(cs, ps[0].offset - 1) {
      var k :| 0 <= k < |cs| && cs[k].Has(ps[0].offset - 1);
      TouchAt(cs, k, ps[0]);
    }
  }

  lemma LinkedTail(cs: seq<Chunk>, max: nat, ps: seq<Chunk>, ds: seq<Chunk>, i: nat)
    requires 0 < i < |ps| && Linked(cs, max, ps, i)
    requires forall x :: Covers(ds, x) <==> Covers(cs, x) || ps[0].Has(x)
    ensures Linked(ds, max, ps[1..], i - 1)
  {
    hide Covers;
    var x := ps[i].offset - 1;
    if !Covers(cs, x) {
      var j :| 0 <= j < i && ps[j].Has(x);
      if j > 0 {
        assert ps[1..][j - 1].Has(x);
      }
    }
  }

  /** Pieces that are linked are all taken in, whatever the room. */
  lemma {:induction false} AddAllLinked(cs: seq<Chunk>, max: nat, ps: seq<Chunk>)
    requires Separated(cs) && |cs| <= max && 0 < max
    requires forall i :: 0 <= i < |ps| ==> Linked(cs, max, ps, i)
    ensures Separated(AddAll(cs, max, ps)) && |AddAll(cs, max, ps)| <= max
    ensures forall x :: Covers(AddAll(cs, max, ps), x) <==> Covers(cs, x) || Covers(ps, x)
    decreases |ps|
  {
    if ps != [] {
      LinkedTouches(cs, max, ps);
      AddRefines(cs, max, ps[0]);
      CoversCons(ps);
      hide Add;
      hide Separated;
      hide Touches;
      hide Covers;
      hide Linked;
      var ds := Add(cs, max, ps[0]);
      forall i | 0 <= i < |ps[1..]|
        ensures Linked(ds, max, ps[1..], i)
      {
        LinkedTail(cs, max, ps, ds, i + 1);
      }
      AddAllLinked(ds, max, ps[1..]);
    }
  }

  /** File data PDUs as the pieces of the file they carry. */
  function Pieces(ps: seq<Pdu>): (cs: seq<Chunk>)
    requires forall i :: 0 <= i < |ps| ==> ps[i].Fd?
    ensures |cs| == |ps| && forall i :: 0 <= i < |ps| ==> cs[i] == Chunk(ps[i].offset, |ps[i].data|)
  {
    seq(|ps|, i requires 0 <= i < |ps| => Chunk(ps[i].offset, |ps[i].data|))
  }

  lemma PiecesCover(ps: seq<Pdu>, x: int)
    requires InOrder(ps)
    ensures Covers(Pieces(ps), x) <==> Sent(ps, x)
  {
    var cs := Pieces(ps);
    if Covers(cs, x) {
      var i :| 0 <= i < |cs| && cs[i].Has(x);
      assert Carries(ps[i], x);
    }
    if Sent(ps, x) {
      var i :| 0 <= i < |ps| && Carries(ps[i], x);
      assert cs[i].Has(x);
    }
  }

  /** Pieces sent in order that fill exactly the missing offsets are linked. */
  lemma PiecesLinked(cs: seq<Chunk>, max: nat, ps: seq<Pdu>, total: nat, i: nat)
    requires InOrder(ps) && (forall k :: 0 <= k < |ps| ==> ps[k].data != [])
    requires forall x :: Sent(ps, x) <==> 0 <= x < total && !Covers(cs, x)
    requires i < |ps| && (|cs| < max || Covers(cs, 0))
    ensures Linked(cs, max, Pieces(ps), i)
  {
    hide Covers;
    var x := ps[i].offset - 1;
    assert Carries(ps[i], x + 1) && Sent(ps, x + 1);
    assert i > 0 ==> ps[0].offset + |ps[0].data| <= ps[i].offset && ps[0].data != [];
    if x >= 0 && !Covers(cs, x) {
      assert Sent(ps, x);
      var j :| 0 <= j < |ps| && Carries(ps[j], x);
      assert j < i;
      assert Pieces(ps)[j].Has(x);
    }
  }

  // ------------------------------------------------------------------ the receiver

  /** The PDUs arrive one after the other and the file system takes them. */
  function ReceiveAll(cfg: Config, r: R.Rx, ps: seq<Pdu>, io: R.RxIo): R.Rx
    decreases |ps|
  {
    if ps == [] then r else ReceiveAll(cfg, R.Recv(cfg, r, true, ps[0], io), ps[1..], io)
  }

  ghost predicate Receptive(r: R.Rx) {
    !r.hold && r.reliable && r.Ok() && r.file.open && r.file.store.pos == r.file.cachedPos
  }

  /** What receiving file data does not touch. */
  predicate SameFlags(r: R.Rx, u: R.Rx) {
    && u.sub == r.sub && u.flags == r.flags && u.com.isComplete == r.com.isComplete
    && u.com.inactFired == r.com.inactFired && u.reports == r.reports && u.file.size == r.file.size
  }

  lemma ReceivePiece(cfg: Config, r: R.Rx, offset: nat, data: Bytes, io: R.RxIo)
    requires Receptive(r) && io.seekOk && io.writable >= |data|
    ensures var u := R.Recv(cfg, r, true, Fd(offset, data), io);
            && Receptive(u) && SameFlags(r, u) && u.inactTimer == cfg.inactTicks
            && u.file.chunks == Add(r.file.chunks, cfg.maxChunks, Chunk(offset, |data|))
            && u.file.store.temp == WriteAt(r.file.store.temp, offset, data)
  {
    hide Add;
    hide WriteAt;
    RS.RecvFdEffect(cfg, r, offset, data, io);
    RecvFdOk(cfg, r, offset, data, io);
    hide R.RecvFd;
  }

  lemma RecvFdOk(cfg: Config, r: R.Rx, offset: nat, data: Bytes, io: R.RxIo)
    requires Receptive(r) && io.seekOk && io.writable >= |data|
    ensures var u := R.RecvFd(cfg, r, offset, data, io); u.Ok() && u.hold == r.hold && u.reliable == r.reliable
  {
    hide Add;
    hide WriteAt;
  }

  lemma {:induction false} ReceiveAllAdds(cfg: Config, r: R.Rx, ps: seq<Pdu>, io: R.RxIo)
    requires Receptive(r) && io.seekOk
    requires forall i :: 0 <= i < |ps| ==> ps[i].Fd? && |ps[i].data| <= io.writable
    ensures var u := ReceiveAll(cfg, r, ps, io);
            && Receptive(u) && SameFlags(r, u) && u.inactTimer == (if ps == [] then r.inactTimer else cfg.inactTicks)
            && u.file.chunks == AddAll(r.file.chunks, cfg.maxChunks, Pieces(ps))
    decreases |ps|
  {
    if ps != [] {
      hide Receptive;
      hide Add;
      hide R.Recv;
      hide SameFlags;
      ReceivePiece(cfg, r, ps[0].offset, ps[0].data, io);
      var u := R.Recv(cfg, r, true, ps[0], io);
      ReceiveAllAdds(cfg, u, ps[1..], io);
      SameFlagsOn(r, u, ReceiveAll(cfg, r, ps, io));
      AddPieces(r.file.chunks, cfg.maxChunks, ps);
      hide AddAll;
      hide Pieces;
    } else {
      hide Receptive;
    }
  }

  lemma SameFlagsOn(r: R.Rx, s: R.Rx, u: R.Rx)
    requires SameFlags(r, s) && SameFlags(s, u)
    ensures SameFlags(r, u)
  {}

  lemma AddPieces(cs: seq<Chunk>, max: nat, ps: seq<Pdu>)
    requires ps != [] && forall i :: 0 <= i < |ps| ==> ps[i].Fd?
    ensures AddAll(cs, max, Pieces(ps)) ==
            AddAll(Add(cs, max, Chunk(ps[0].offset, |ps[0].data|)), max, Pieces(ps[1..]))
  {
    hide Add;
    assert Pieces(ps)[1..] == Pieces(ps[1..]);
  }

  lemma {:induction false} ReceiveAllKeeps(cfg: Config, src: Bytes, r: R.Rx, ps: seq<Pdu>, io: R.RxIo)
    requires cfg.Valid() && RS.Inv(cfg, src, r) && TS.SentTrue(src, ps)
    ensures RS.Inv(cfg, src, ReceiveAll(cfg, r, ps, io))
    decreases |ps|
  {
    hide RS.Inv;
    hide R.Recv;
    hide RS.Honest;
    if ps != [] {
      RS.RecvKeeps(cfg, src, r, true, ps[0], io);
      ReceiveAllKeeps(cfg, src, R.Recv(cfg, r, true, ps[0], io), ps[1..], io);
    }
  }

  // ------------------------------------------------------------------ the round

  /** A list of disjoint requests inside the file owes no more than the file. */
  lemma {:induction false} OutstandingBound(cs: seq<Chunk>, low: nat, total: nat)
    requires Separated(cs) && Inside(cs, total) && From(cs, low) && low <= total
    ensures Outstanding(cs) <= total - low
    decreases |cs|
  {
    if cs != [] {
      var rest := cs[1..];
      assert forall i :: 0 <= i < |rest| ==> cs[0].End() < rest[i].offset;
      OutstandingBound(rest, cs[0].End(), total);
    }
  }

  lemma GapsNonEmpty(cs: seq<Chunk>, total: nat)
    requires Separated(cs) && NonEmpty(cs)
    ensures forall i :: 0 <= i < |AllGaps(cs, total, 0)| ==>
              var s := R.Segments(AllGaps(cs, total, 0))[i]; s.start != s.end
  {
    GapsSeparated(cs, total, 0);
    hide AllGaps;
    hide Separated;
  }

  /** Every chunk of a list that speaks the truth about a prefix of the source lies inside it. */
  lemma ChunksInside(cfg: Config, src: Bytes, r: R.Rx)
    requires RS.Inv(cfg, src, r) && r.Ok() && r.file.open && NonEmpty(r.file.chunks)
    ensures Separated(r.file.chunks) && |r.file.chunks| <= cfg.maxChunks && Inside(r.file.chunks, |src|)
  {
    var cs := r.file.chunks;
    forall i | 0 <= i < |cs|
      ensures cs[i].End() <= |src|
    {
      HasCovers(cs, i, cs[i].End() - 1);
    }
  }

  /** The requests the NAK leaves with an idle sender. */
  lemma NakToRequests(tcfg: Config, src: Bytes, t: T.Tx, cs: seq<Chunk>)
    requires tcfg.Valid() && Ready(tcfg, src, t) && t.chunks == [] && t.fsize == |src|
    requires Separated(cs) && NonEmpty(cs) && Inside(cs, |src|)
    requires 0 < |AllGaps(cs, |src|, 0)| <= tcfg.maxChunks
    ensures var u := T.RecvNak(tcfg, t, R.Segments(AllGaps(cs, |src|, 0)));
            && Ready(tcfg, src, u) && u.flags.fdNakPending && NonEmpty(u.chunks) && u.file == t.file
            && (forall x :: Covers(u.chunks, x) <==> 0 <= x < |src| && !Covers(cs, x))
  {
    var segs := R.Segments(AllGaps(cs, |src|, 0));
    GapsNonEmpty(cs, |src|);
    hide AllGaps;
    hide R.Segments;
    NakRequests(tcfg, t, segs);
    NakAddsSegments(tcfg, t, segs);
    NakKeepsNonEmpty(tcfg, t, segs);
    NakReady(tcfg, src, t, segs);
    forall x
      ensures InSegment(|src|, segs, x) <==> 0 <= x < |src| && !Covers(cs, x)
    {
      SegmentsAreTheMissing(cs, |src|, x);
    }
    var u := T.RecvNak(tcfg, t, segs);
    hide T.RecvNak;
    hide Accepted;
    hide Ready;
    assert Covers(cs, 0) || !Covers(cs, 0);
    FirstGapOffset(cs, |cs| + 1, |src|);
    var x := AllGaps(cs, |src|, 0)[0].offset;
    assert Covers(u.chunks, x);
  }

  lemma {:induction false} NakReady(tcfg: Config, src: Bytes, t: T.Tx, segs: seq<Segment>)
    requires tcfg.Valid() && Ready(tcfg, src, t) && t.fsize == |src|
    ensures Ready(tcfg, src, T.RecvNak(tcfg, t, segs))
    decreases |segs|
  {
    if segs != [] {
      hide TS.RequestsInv;
      hide TS.SourceInv;
      hide Add;
      TS.RecvSegmentChunks(tcfg, src, t, segs[0]);
      TS.RecvSegmentEffect(tcfg, t, segs[0]);
      NakReady(tcfg, src, T.RecvSegment(tcfg, t, segs[0]), segs[1..]);
    }
  }

  predicate Roomy(ios: seq<T.TxIo>) { forall io :: io in ios ==> io.room > 0 }

  lemma PieceNonEmpty(tcfg: Config, f: T.TxFile, offset: nat, want: nat, io: T.TxIo)
    requires tcfg.fileChunkSize > 0 && io.room > 0 && want > 0
    ensures var d := T.SendFileData(tcfg, f, offset, want, false, io);
            d.sent != [] ==> d.sent[0].Fd? && d.sent[0].data != []
  {}

  /** Every one carries something that belongs into the file. */
  predicate AllPieces(src: Bytes, ps: seq<Pdu>) {
    forall i :: 0 <= i < |ps| ==> IsPiece(src, ps[i])
  }

  predicate IsPiece(src: Bytes, p: Pdu) { p.Fd? && p.data != [] && p.offset + |p.data| <= |src| }

  lemma {:induction false} DrainSendsPieces(tcfg: Config, src: Bytes, t: T.Tx, ios: seq<T.TxIo>)
    requires tcfg.fileChunkSize > 0 && Ready(tcfg, src, t) && NonEmpty(t.chunks) && Roomy(ios)
    ensures AllPieces(src, Drain(tcfg, t, ios).sent)
    decreases |ios|
  {
    if ios != [] {
      hide NonEmpty;
      TickNakCases(tcfg, src, t, ios[0]);
      TickNakOutstanding(tcfg, src, t, ios[0]);
      var u := T.TickNak(tcfg, t, ios[0]);
      if u.sent != [] {
        SendsAPiece(tcfg, src, t, ios[0]);
      }
      hide Ready;
      hide IsPiece;
      hide T.TickNak;
      DrainSendsPieces(tcfg, src, u.t, ios[1..]);
    }
  }

  lemma SendsAPiece(tcfg: Config, src: Bytes, t: T.Tx, io: T.TxIo)
    requires tcfg.fileChunkSize > 0 && Ready(tcfg, src, t) && NonEmpty(t.chunks) && io.room > 0
    requires T.TickNak(tcfg, t, io).sent != []
    ensures var x := T.TickNak(tcfg, t, io); |x.sent| == 1 && IsPiece(src, x.sent[0])
  {
    TickNakCases(tcfg, src, t, io);
    FirstInside(tcfg, src, t);
    FirstNonEmpty(t.chunks);
    PieceNonEmpty(tcfg, t.file, t.chunks[0].offset, t.chunks[0].size, io);
    TS.TickNakIs(tcfg, t, io);
    hide T.TickNak;
    hide T.SendFileData;
    hide Ready;
    hide NonEmpty;
  }

  lemma FirstNonEmpty(cs: seq<Chunk>)
    requires cs != [] && NonEmpty(cs)
    ensures cs[0].size > 0
  {}

  /** A receiver that has metadata and EOF of a transfer of src, but not all of its data. */
  ghost predicate Lacking(cfg: Config, src: Bytes, r: R.Rx) {
    && RS.Inv(cfg, src, r) && Receptive(r) && NonEmpty(r.file.chunks)
    && r.flags.mdRecv && r.flags.eofCount != 0 && cfg.Valid() && OneNak(cfg, r)
    && (|r.file.chunks| < cfg.maxChunks || Covers(r.file.chunks, 0))
  }

  /** A sender of src with its file open and nothing to send again. */
  ghost predicate Idle(tcfg: Config, src: Bytes, t: T.Tx) {
    && tcfg.Valid() && tcfg.fileChunkSize > 0 && t.reliable && !t.hold && t.file.open
    && Ready(tcfg, src, t) && t.chunks == [] && t.fsize == |src|
  }

  /** The sender takes the NAK in every sub-state. */
  lemma NakArrives(tcfg: Config, t: T.Tx, segs: seq<Segment>)
    requires t.reliable && !t.hold
    ensures var u, v := T.Recv(tcfg, t, true, Nak(segs)), T.RecvNak(tcfg, t, segs);
            u.file == v.file && u.chunks == v.chunks && u.flags == v.flags
  {
    hide T.RecvNak;
  }

  /** The sender can answer: its first request fits, and no read of the calls overshoots. */
  predicate CanAnswer(tcfg: Config, t: T.Tx, ios: seq<T.TxIo>) { Fits(t) && NoneOvershoots(tcfg, t, ios) }

  /** A sender that stands where it believes to stand can, if no read comes up short. */
  lemma WholeReadsAnswer(tcfg: Config, src: Bytes, t: T.Tx, ios: seq<T.TxIo>)
    requires Ready(tcfg, src, t) && NonEmpty(t.chunks) && AtPlace(t.file) && NoneShort(tcfg, t, ios)
    ensures CanAnswer(tcfg, t, ios) && TS.SentTrue(src, Drain(tcfg, t, ios).sent)
  {
    if t.chunks != [] {
      FirstInside(tcfg, src, t);
    }
    WholeReadsFit(tcfg, src, t, ios);
    NoneShortIsPlaced(tcfg, src, t, ios);
    DrainIsTrue(tcfg, src, t, ios);
    hide Ready;
    hide NonEmpty;
    hide Drain;
  }

  /** What the sender transmits in answer to the NAK of r fills its gaps exactly. */
  lemma AnswerFillsGaps(cfg: Config, tcfg: Config, src: Bytes, r: R.Rx, t: T.Tx, segs: seq<Segment>, ios: seq<T.TxIo>)
    requires Lacking(cfg, src, r) && Idle(tcfg, src, t) && |AllGaps(r.file.chunks, |src|, 0)| <= tcfg.maxChunks
    requires segs == R.Segments(AllGaps(r.file.chunks, |src|, 0))
    requires r.file.size == |src| && Roomy(ios) && Goods(src, ios) > |src|
    ensures var t1 := T.Recv(tcfg, t, true, Nak(segs));
            var d := Drain(tcfg, t1, ios);
            && (!d.t.flags.fdNakPending <==> CanAnswer(tcfg, t1, ios))
            && (CanAnswer(tcfg, t1, ios) ==>
                  && d.t.chunks == []
                  && forall x :: Sent(d.sent, x) <==> 0 <= x < |src| && !Covers(r.file.chunks, x))
            && InOrder(d.sent) && AllPieces(src, d.sent)
            && (AtPlace(t.file) && NoneShort(tcfg, t1, ios) ==> CanAnswer(tcfg, t1, ios) && TS.SentTrue(src, d.sent))
  {
    var cs := r.file.chunks;
    hide T.RecvNak;
    hide R.Segments;
    hide AllGaps;
    ChunksInside(cfg, src, r);
    NakToRequests(tcfg, src, t, cs);
    NakArrives(tcfg, t, segs);
    hide T.Recv;
    var t1 := T.Recv(tcfg, t, true, Nak(segs));
    assert TS.RequestsInv(tcfg.maxChunks, src, t1.chunks);
    OutstandingBound(t1.chunks, 0, |src|);
    hide RS.Inv;
    hide Ready;
    DrainFinishes(tcfg, src, t1, ios);
    DrainInOrder(tcfg, src, t1, ios, 0);
    DrainSendsPieces(tcfg, src, t1, ios);
    if AtPlace(t1.file) && NoneShort(tcfg, t1, ios) {
      WholeReadsAnswer(tcfg, src, t1, ios);
    }
    if CanAnswer(tcfg, t1, ios) {
      forall x
        ensures Sent(Drain(tcfg, t1, ios).sent, x) <==> 0 <= x < |src| && !Covers(cs, x)
      {
        DrainSplits(tcfg, src, t1, ios, x);
      }
    }
  }

  // ------------------------------------------------------------------ what arrives

  /** Pieces in order that fill the gaps of r complete it, even if its list was full. */
  lemma PiecesComplete(cfg: Config, src: Bytes, r: R.Rx, ps: seq<Pdu>, io: R.RxIo)
    requires Lacking(cfg, src, r) && r.file.size == |src| && io.seekOk && io.writable >= |src|
    requires InOrder(ps) && AllPieces(src, ps)
    requires forall x :: Sent(ps, x) <==> 0 <= x < |src| && !Covers(r.file.chunks, x)
    ensures var u := ReceiveAll(cfg, r, ps, io);
            && Receptive(u) && SameFlags(r, u) && Separated(u.file.chunks)
            && u.inactTimer == (if ps == [] then r.inactTimer else cfg.inactTicks)
            && forall x :: 0 <= x < |src| ==> Covers(u.file.chunks, x)
  {
    ChunksInside(cfg, src, r);
    PiecesFit(src, ps, io);
    hide Covers;
    hide RS.Inv;
    hide Separated;
    hide Inside;
    hide AllPieces;
    ReceiveAllAdds(cfg, r, ps, io);
    forall i | 0 <= i < |ps|
      ensures Linked(r.file.chunks, cfg.maxChunks, Pieces(ps), i)
    {
      PiecesLinked(r.file.chunks, cfg.maxChunks, ps, |src|, i);
    }
    AddAllLinked(r.file.chunks, cfg.maxChunks, Pieces(ps));
    forall x | 0 <= x < |src|
      ensures Covers(ReceiveAll(cfg, r, ps, io).file.chunks, x)
    {
      PiecesCover(ps, x);
    }
  }

  lemma PiecesFit(src: Bytes, ps: seq<Pdu>, io: R.RxIo)
    requires AllPieces(src, ps) && io.writable >= |src|
    ensures forall i :: 0 <= i < |ps| ==> ps[i].Fd? && 0 < |ps[i].data| <= io.writable
  {
    assert forall i :: 0 <= i < |ps| ==> IsPiece(src, ps[i]);
  }

  /** Bytes that no piece carries stay, and no byte is lost. */
  lemma {:induction false} ReceiveAllLeaves(cfg: Config, r: R.Rx, ps: seq<Pdu>, io: R.RxIo, x: nat)
    requires Receptive(r) && io.seekOk && x < |r.file.store.temp| && !Sent(ps, x)
    requires forall i :: 0 <= i < |ps| ==> ps[i].Fd? && |ps[i].data| <= io.writable
    ensures var u := ReceiveAll(cfg, r, ps, io);
            x < |u.file.store.temp| && u.file.store.temp[x] == r.file.store.temp[x]
    decreases |ps|
  {
    if ps != [] {
      ReceivePiece(cfg, r, ps[0].offset, ps[0].data, io);
      WriteAtFacts(r.file.store.temp, ps[0].offset, ps[0].data);
      SentHead(ps, x);
      hide Receptive;
      hide R.Recv;
      hide Sent;
      ReceiveAllLeaves(cfg, R.Recv(cfg, r, true, ps[0], io), ps[1..], io, x);
    }
  }

  lemma SentHead(ps: seq<Pdu>, x: int)
    requires ps != []
    ensures Sent(ps, x) <==> Carries(ps[0], x) || Sent(ps[1..], x)
  {
    assert ps == [ps[0]] + ps[1..];
    SentCons([ps[0]], ps[1..], x);
    SentOne([ps[0]], x);
  }

  /** Every byte of pieces in order ends up at its offset. */
  lemma {:induction false} ReceiveAllWrites(cfg: Config, r: R.Rx, ps: seq<Pdu>, io: R.RxIo, i: nat, x: nat)
    requires Receptive(r) && io.seekOk && InOrder(ps) && i < |ps| && Carries(ps[i], x)
    requires forall k :: 0 <= k < |ps| ==> ps[k].Fd? && |ps[k].data| <= io.writable
    ensures var u := ReceiveAll(cfg, r, ps, io);
            x < |u.file.store.temp| && u.file.store.temp[x] == ps[i].data[x - ps[i].offset]
    decreases |ps|
  {
    hide Receptive;
    hide R.Recv;
    hide InOrder;
    hide Sent;
    ReceivePiece(cfg, r, ps[0].offset, ps[0].data, io);
    hide WriteAt;
    OrderTail(ps, x);
    var v := R.Recv(cfg, r, true, ps[0], io);
    if i == 0 {
      WriteAtFacts(r.file.store.temp, ps[0].offset, ps[0].data);
      ReceiveAllLeaves(cfg, v, ps[1..], io, x);
    } else {
      ReceiveAllWrites(cfg, v, ps[1..], io, i - 1, x);
    }
  }

  lemma OrderTail(ps: seq<Pdu>, x: int)
    requires ps != [] && InOrder(ps)
    ensures InOrder(ps[1..]) && (Carries(ps[0], x) ==> !Sent(ps[1..], x))
  {
    assert forall i :: 0 <= i < |ps[1..]| ==> ps[1..][i] == ps[i + 1];
  }

  // ------------------------------------------------------------------ the round

  /** With all of its gaps filled, the receiver finds the file complete, and the file is the source
      exactly when the pieces were true of it. */
  lemma FilledIsComplete(cfg: Config, src: Bytes, r: R.Rx, ps: seq<Pdu>, io: R.RxIo)
    requires Lacking(cfg, src, r) && io.seekOk && io.writable >= |src| && InOrder(ps) && AllPieces(src, ps)
    requires forall x :: Sent(ps, x) <==> 0 <= x < |src| && !Covers(r.file.chunks, x)
    ensures var u := ReceiveAll(cfg, r, ps, io);
            && Receptive(u) && SameFlags(r, u) && u.inactTimer in {r.inactTimer, cfg.inactTicks}
            && |src| <= |u.file.store.temp| && (u.file.store.temp == src <==> TS.SentTrue(src, ps))
            && R.CheckComplete(u.(flags := u.flags.(sendNak := false)))
  {
    var u := ReceiveAll(cfg, r, ps, io);
    assert r.file.size == |src|;
    PiecesComplete(cfg, src, r, ps, io);
    CoveredIsComplete(u, |src|);
    if src != [] {
      ByteHeld(cfg, src, r, ps, io, |src| - 1);
    }
    if TS.SentTrue(src, ps) {
      ReceiveAllKeeps(cfg, src, r, ps, io);
      CoveredIsSource(cfg, src, u);
    }
    if u.file.store.temp == src {
      HeldIsTrue(cfg, src, r, ps, io);
    }
  }

  /** Every offset holds a byte: what was there, or what its piece carried. */
  lemma ByteHeld(cfg: Config, src: Bytes, r: R.Rx, ps: seq<Pdu>, io: R.RxIo, x: nat)
    requires Lacking(cfg, src, r) && io.seekOk && io.writable >= |src| && InOrder(ps) && AllPieces(src, ps)
    requires Sent(ps, x) || Covers(r.file.chunks, x)
    ensures x < |ReceiveAll(cfg, r, ps, io).file.store.temp|
  {
    PiecesFit(src, ps, io);
    hide Covers;
    hide InOrder;
    hide ReceiveAll;
    if Sent(ps, x) {
      var i :| 0 <= i < |ps| && Carries(ps[i], x);
      ReceiveAllWrites(cfg, r, ps, io, i, x);
    } else {
      ReceiveAllLeaves(cfg, r, ps, io, x);
    }
  }

  lemma HeldIsTrue(cfg: Config, src: Bytes, r: R.Rx, ps: seq<Pdu>, io: R.RxIo)
    requires Receptive(r) && io.seekOk && io.writable >= |src| && InOrder(ps) && AllPieces(src, ps)
    requires ReceiveAll(cfg, r, ps, io).file.store.temp == src
    ensures TS.SentTrue(src, ps)
  {
    PiecesFit(src, ps, io);
    forall p | p in ps
      ensures RS.Honest(src, p)
    {
      var i :| 0 <= i < |ps| && ps[i] == p;
      assert IsPiece(src, p);
      PieceHeld(cfg, src, r, ps, io, i);
      hide RS.Honest;
    }
    hide InOrder;
    hide ReceiveAll;
  }

  lemma PieceHeld(cfg: Config, src: Bytes, r: R.Rx, ps: seq<Pdu>, io: R.RxIo, i: nat)
    requires Receptive(r) && io.seekOk && InOrder(ps) && i < |ps| && IsPiece(src, ps[i])
    requires forall k :: 0 <= k < |ps| ==> ps[k].Fd? && |ps[k].data| <= io.writable
    requires ReceiveAll(cfg, r, ps, io).file.store.temp == src
    ensures RS.Honest(src, ps[i])
  {
    hide InOrder;
    hide Receptive;
    hide ReceiveAll;
    hide CfCrc.Checksum;
    var p := ps[i];
    forall x | p.offset <= x < p.offset + |p.data|
      ensures src[x] == p.data[x - p.offset]
    {
      ReceiveAllWrites(cfg, r, ps, io, i, x);
    }
    IsSlice(src, p.data, p.offset);
  }

  lemma IsSlice(src: Bytes, data: Bytes, offset: nat)
    requires offset + |data| <= |src| && forall x :: offset <= x < offset + |data| ==> src[x] == data[x - offset]
    ensures data == src[offset..offset + |data|]
  {}

  lemma CoveredIsComplete(u: R.Rx, size: nat)
    requires u.flags.mdRecv && u.flags.eofCount != 0 && u.file.size == size && Separated(u.file.chunks)
    requires forall x :: 0 <= x < size ==> Covers(u.file.chunks, x)
    ensures R.CheckComplete(u.(flags := u.flags.(sendNak := false)))
  {
    NoGapIffCovered(u.file.chunks, 1, size);
    hide ComputeGaps;
    hide Covers;
    hide Separated;
  }

  lemma CoveredIsSource(cfg: Config, src: Bytes, u: R.Rx)
    requires RS.Inv(cfg, src, u) && Receptive(u)
    requires forall x :: 0 <= x < |src| ==> Covers(u.file.chunks, x)
    ensures u.file.store.temp == src
  {
    hide Covers;
    hide Separated;
    assert src != [] ==> Covers(u.file.chunks, |src| - 1);
  }

  /** The round: the one NAK r sends is handed to an idle sender.  However the answer is cut and
      whatever calls fail in between, the sender is through with it exactly when it can answer at
      all; then nothing is owed, the receiver finds the file complete, and the file is the source
      exactly when the pieces were true.  Both hold when no read comes up short. */
  lemma OneRoundRepairs(cfg: Config, tcfg: Config, src: Bytes, r: R.Rx, t: T.Tx, ios: seq<T.TxIo>, io: R.RxIo)
    requires Lacking(cfg, src, r) && Idle(tcfg, src, t) && |AllGaps(r.file.chunks, |src|, 0)| <= tcfg.maxChunks
    requires Roomy(ios) && Goods(src, ios) > |src| && io.seekOk && io.writable >= |src|
    ensures |R.NakPdus(cfg, r)| == 1
    ensures var t1 := T.Recv(tcfg, t, true, R.NakPdus(cfg, r)[0]);
            var d := Drain(tcfg, t1, ios);
            var u := ReceiveAll(cfg, r, d.sent, io);
            && (!d.t.flags.fdNakPending <==> CanAnswer(tcfg, t1, ios))
            && (CanAnswer(tcfg, t1, ios) ==>
                  && d.t.chunks == [] && Receptive(u) && SameFlags(r, u)
                  && u.inactTimer in {r.inactTimer, cfg.inactTicks}
                  && |src| <= |u.file.store.temp| && (u.file.store.temp == src <==> TS.SentTrue(src, d.sent))
                  && R.CheckComplete(u.(flags := u.flags.(sendNak := false))))
            && (AtPlace(t.file) && NoneShort(tcfg, t1, ios) ==> CanAnswer(tcfg, t1, ios) && TS.SentTrue(src, d.sent))
  {
    hide AllGaps;
    hide R.Segments;
    hide Covers;
    hide T.Recv;
    var segs := R.Segments(AllGaps(r.file.chunks, |src|, 0));
    assert r.file.size == |src|;
    NakCarriesAllGaps(cfg, r);
    AnswerFillsGaps(cfg, tcfg, src, r, t, segs, ios);
    var t1 := T.Recv(tcfg, t, true, Nak(segs));
    var ps := Drain(tcfg, t1, ios).sent;
    hide Lacking;
    hide Drain;
    hide ReceiveAll;
    hide CanAnswer;
    if CanAnswer(tcfg, t1, ios) {
      FilledIsComplete(cfg, src, r, ps, io);
    }
  }
}
