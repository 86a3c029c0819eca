/** Retransmission: NAK segments become requests in the chunk list, and CF_CFDP_S_Tick_Nak serves
    them, lowest offset first, until none is left. */
module TxRetransmit {
  import opened Bytes
  import opened Cfdp
  import opened ChunkSpec
  import opened TxSpec
  import CfCrc
  import RxSafety
  import TxSafety

  // ------------------------------------------------------------------ from NAK to requests

  /** The segments of a NAK that ask for file data and are not rejected. */
  function Accepted(fsize: nat, segs: seq<Segment>): seq<Chunk> {
    if segs == [] then []
    else
      var s := segs[0];
      if (s.start == 0 && s.end == 0) || s.end < s.start || s.end > fsize then Accepted(fsize, segs[1..])
      else [Chunk(s.start, s.end - s.start)] + Accepted(fsize, segs[1..])
  }

  lemma {:induction false} NakAddsSegments(cfg: Config, t: Tx, segs: seq<Segment>)
    ensures var u := RecvNak(cfg, t, segs);
            && u.chunks == AddAll(t.chunks, cfg.maxChunks, Accepted(t.fsize, segs))
            && u.flags.fdNakPending == (t.flags.fdNakPending || Accepted(t.fsize, segs) != [])
            && u.file == t.file && u.fsize == t.fsize
    decreases |segs|
  {
    hide Add;
    if segs != [] {
      NakAddsSegments(cfg, RecvSegment(cfg, t, segs[0]), segs[1..]);
    }
  }

  ghost predicate InSegment(fsize: nat, segs: seq<Segment>, x: int) {
    exists i :: 0 <= i < |segs| && segs[i].start <= x < segs[i].end <= fsize
  }

  lemma {:induction false} AcceptedCovers(fsize: nat, segs: seq<Segment>, x: int)
    ensures Covers(Accepted(fsize, segs), x) <==> InSegment(fsize, segs, x)
    decreases |segs|
  {
    if segs != [] {
      AcceptedCovers(fsize, segs[1..], x);
      assert forall i :: 0 < i < |segs| ==> segs[i] == segs[1..][i - 1];
      assert InSegment(fsize, segs, x) <==>
             (segs[0].start <= x < segs[0].end <= fsize) || InSegment(fsize, segs[1..], x) by {
        if InSegment(fsize, segs[1..], x) {
          var i :| 0 <= i < |segs[1..]| && segs[1..][i].start <= x < segs[1..][i].end <= fsize;
          assert segs[i + 1] == segs[1..][i];
        }
      }
      if Accepted(fsize, segs) != Accepted(fsize, segs[1..]) {
        CoversCons(Accepted(fsize, segs));
        assert Accepted(fsize, segs)[1..] == Accepted(fsize, segs[1..]);
      }
    }
  }

  lemma {:induction false} AcceptedCount(fsize: nat, segs: seq<Segment>)
    ensures |Accepted(fsize, segs)| <= |segs|
    decreases |segs|
  {
    if segs != [] {
      AcceptedCount(fsize, segs[1..]);
    }
  }

  /** After a NAK the sender owes what it owed before and every offset of a segment inside the
      file, if its list has room; whatever the room, nothing else. */
  lemma NakRequests(cfg: Config, t: Tx, segs: seq<Segment>)
    requires cfg.Valid() && Separated(t.chunks) && |t.chunks| <= cfg.maxChunks
    ensures var u := RecvNak(cfg, t, segs);
            && Separated(u.chunks) && |u.chunks| <= cfg.maxChunks
            && (forall x :: Covers(u.chunks, x) ==> Covers(t.chunks, x) || InSegment(t.fsize, segs, x))
            && (|t.chunks| + |segs| <= cfg.maxChunks ==>
                  forall x :: Covers(u.chunks, x) <==> Covers(t.chunks, x) || InSegment(t.fsize, segs, x))
  {
    hide Add;
    hide AddAll;
    hide RecvNak;
    hide Separated;
    hide Covers;
    var accepted := Accepted(t.fsize, segs);
    NakAddsSegments(cfg, t, segs);
    AcceptedCount(t.fsize, segs);
    AddAllRefines(t.chunks, cfg.maxChunks, accepted);
    forall x
      ensures Covers(accepted, x) <==> InSegment(t.fsize, segs, x)
    {
      AcceptedCovers(t.fsize, segs, x);
    }
  }

  // ------------------------------------------------------------------ serving the requests

  /** Repeated CF_CFDP_S_Tick_Nak, and all it sent. */
  function Drain(cfg: Config, t: Tx, ios: seq<TxIo>): Sending
    decreases |ios|
  {
    if ios == [] then Sending(t, [])
    else
      var x := TickNak(cfg, t, ios[0]);
      var rest := Drain(cfg, x.t, ios[1..]);
      Sending(rest.t, x.sent + rest.sent)
  }

  /** The bytes owed. */
  function Outstanding(cs: seq<Chunk>): nat {
    if cs == [] then 0 else cs[0].size + Outstanding(cs[1..])
  }

  predicate Carries(p: Pdu, x: int) { p.Fd? && p.offset <= x < p.offset + |p.data| }

  ghost predicate Sent(ps: seq<Pdu>, x: int) {
    exists i :: 0 <= i < |ps| && Carries(ps[i], x)
  }

  /** The pieces were sent lowest offset first and never twice. */
  ghost predicate InOrder(ps: seq<Pdu>) {
    && (forall i :: 0 <= i < |ps| ==> ps[i].Fd?)
    && forall i, j :: 0 <= i < j < |ps| ==> ps[i].offset + |ps[i].data| <= ps[j].offset
  }

  /** Nothing below the first request is owed. */
  ghost predicate From(cs: seq<Chunk>, low: nat) {
    forall i :: 0 <= i < |cs| ==> low <= cs[i].offset
  }

  ghost predicate Ready(cfg: Config, src: Bytes, t: Tx) {
    && TxSafety.SourceInv(src, t.file) && TxSafety.RequestsInv(cfg.maxChunks, src, t.chunks)
  }

  /** p carries the first bytes of the lowest request cs[0], and cs' is what is owed afterwards. */
  predicate Serves(cs: seq<Chunk>, p: Pdu, cs': seq<Chunk>)
    requires cs != []
  {
    && p.Fd? && p.offset == cs[0].offset && |p.data| <= cs[0].size
    && cs' == if |p.data| > 0 then RemoveFromFirst(cs, |p.data|) else cs
  }

  /** One call: a successful one sends as many bytes as it takes off the lowest request, under that
      request's offset; any other leaves the list alone. */
  lemma TickNakServes(cfg: Config, src: Bytes, t: Tx, io: TxIo)
    requires Ready(cfg, src, t) && t.flags.fdNakPending && t.chunks != []
    ensures var x := TickNak(cfg, t, io);
            && Ready(cfg, src, x.t) && x.t.flags == t.flags && x.t.file.open == t.file.open
            && if x.sent == [] then x.t.chunks == t.chunks
               else |x.sent| == 1 && Serves(t.chunks, x.sent[0], x.t.chunks)
  {
    var c := t.chunks[0];
    hide RemoveFromFirst;
    hide TxSafety.RequestsInv;
    SendsPiece(cfg, t.file, c.offset, c.size, io);
    var d := SendFileData(cfg, t.file, c.offset, c.size, false, io);
    if d.result.Sent? {
      TxSafety.RemoveInside(cfg.maxChunks, src, t.chunks, d.result.n);
    }
    hide SendFileData;
  }

  lemma FirstInside(cfg: Config, src: Bytes, t: Tx)
    requires TxSafety.RequestsInv(cfg.maxChunks, src, t.chunks) && t.chunks != []
    ensures t.chunks[0].End() <= |src|
  {}

  lemma SendsPiece(cfg: Config, f: TxFile, offset: nat, want: nat, io: TxIo)
    ensures var d := SendFileData(cfg, f, offset, want, false, io);
            && d.file.src == f.src && d.file.foffs == f.foffs && d.file.open == f.open
            && Transmitted(d.result) <= want
            && (d.result.Sent? <==> d.sent != [])
            && (d.result.Sent? ==> |d.sent| == 1 && d.sent[0].Fd? && d.sent[0].offset == offset
                                   && |d.sent[0].data| == d.result.n)
  {
    hide ReadFrom;
    ReadPiece(f, Wanted(cfg, want, io.room), io.readable);
    ReadPiece(f.(cachedPos := offset, pos := offset), Wanted(cfg, want, io.room), io.readable);
  }

  lemma ReadPiece(f: TxFile, n: nat, readable: nat)
    ensures var r := ReadFrom(f, n, readable);
            && r.file.src == f.src && r.file.foffs == f.foffs && r.file.open == f.open
            && (r.ok ==> |r.data| == n)
  {}

  /** What one call sent and what it leaves owed are the two halves of what was owed. */
  lemma ServesSplits(cs: seq<Chunk>, p: Pdu, cs': seq<Chunk>, x: int)
    requires Separated(cs) && cs != [] && Serves(cs, p, cs')
    ensures Covers(cs, x) <==> Carries(p, x) || Covers(cs', x)
    ensures !(Carries(p, x) && Covers(cs', x))
    ensures Outstanding(cs') == Outstanding(cs) - |p.data|
    ensures From(cs', p.offset + |p.data|)
    ensures NonEmpty(cs) <==> NonEmpty(cs')
  {
    RemoveUncovers(cs, |p.data|);
    hide Separated;
    assert cs == [cs[0]] + cs[1..];
    assert cs[0].Has(x) ==> Covers(cs, x);
    ServesKeepsEmpty(cs, p, cs');
    ServesFrom(cs, p, cs');
    hide Covers;
    hide NonEmpty;
    hide From;
  }

  lemma ServesKeepsEmpty(cs: seq<Chunk>, p: Pdu, cs': seq<Chunk>)
    requires cs != [] && Serves(cs, p, cs')
    ensures NonEmpty(cs) <==> NonEmpty(cs')
  {
    if |p.data| == 0 {
    } else if |p.data| == cs[0].size {
      NonEmptyTail(cs);
    } else {
      NonEmptyTail(cs);
      NonEmptyTail(cs');
      assert cs'[1..] == cs[1..];
    }
  }

  lemma NonEmptyTail(cs: seq<Chunk>)
    requires cs != []
    ensures NonEmpty(cs) <==> cs[0].size > 0 && NonEmpty(cs[1..])
  {
    assert forall i :: 0 < i < |cs| ==> cs[i] == cs[1..][i - 1];
  }

  lemma ServesFrom(cs: seq<Chunk>, p: Pdu, cs': seq<Chunk>)
    requires Separated(cs) && cs != [] && Serves(cs, p, cs')
    ensures From(cs', p.offset + |p.data|)
  {
    assert forall i :: 0 < i < |cs| ==> cs[0].End() < cs[i].offset;
  }

  /** Calls on which the channel and the file system do what they are asked to. */
  predicate Good(src: Bytes, io: TxIo) {
    io.canSend && io.seekOk && io.readable >= |src| && io.room > 0
  }

  function Goods(src: Bytes, ios: seq<TxIo>): nat {
    if ios == [] then 0 else (if Good(src, ios[0]) then 1 else 0) + Goods(src, ios[1..])
  }

  /** One call on any state: it serves the lowest request, or changes nothing that is owed. */
  lemma TickNakCases(cfg: Config, src: Bytes, t: Tx, io: TxIo)
    requires Ready(cfg, src, t)
    ensures var x := TickNak(cfg, t, io);
            && Ready(cfg, src, x.t) && x.t.file.open == t.file.open
            && (x.sent == [] ==> x.t.chunks == t.chunks)
            && (x.sent != [] ==> t.chunks != [] && |x.sent| == 1 && Serves(t.chunks, x.sent[0], x.t.chunks))
            && (x.t.flags.fdNakPending <==> t.flags.fdNakPending && t.chunks != [])
  {
    hide TxSafety.SourceInv;
    hide TxSafety.RequestsInv;
    if t.flags.fdNakPending && t.chunks != [] {
      TickNakServes(cfg, src, t, io);
      hide TickNak;
    }
  }

  /** Whatever the channel and the file system do, what has been sent and what is still owed are
      exactly the two halves of what was owed at the beginning. */
  lemma {:induction false} DrainSplits(cfg: Config, src: Bytes, t: Tx, ios: seq<TxIo>, x: int)
    requires Ready(cfg, src, t)
    ensures var d := Drain(cfg, t, ios);
            && (Covers(t.chunks, x) <==> Sent(d.sent, x) || Covers(d.t.chunks, x))
            && !(Sent(d.sent, x) && Covers(d.t.chunks, x))
    decreases |ios|
  {
    if ios != [] {
      assert Separated(t.chunks);
      hide Ready;
      hide TickNak;
      hide Covers;
      hide Separated;
      hide Serves;
      TickNakCases(cfg, src, t, ios[0]);
      var u := TickNak(cfg, t, ios[0]);
      var rest := Drain(cfg, u.t, ios[1..]);
      DrainSplits(cfg, src, u.t, ios[1..], x);
      SentCons(u.sent, rest.sent, x);
      if u.sent != [] {
        ServesSplits(t.chunks, u.sent[0], u.t.chunks, x);
        SentOne(u.sent, x);
      }
    }
  }

  lemma SentCons(a: seq<Pdu>, b: seq<Pdu>, x: int)
    ensures Sent(a + b, x) <==> Sent(a, x) || Sent(b, x)
  {
    if Sent(a + b, x) {
      var i :| 0 <= i < |a + b| && Carries((a + b)[i], x);
      assert i < |a| ==> Carries(a[i], x);
      assert i >= |a| ==> Carries(b[i - |a|], x);
    }
    if Sent(a, x) {
      var i :| 0 <= i < |a| && Carries(a[i], x);
      assert (a + b)[i] == a[i];
    }
    if Sent(b, x) {
      var i :| 0 <= i < |b| && Carries(b[i], x);
      assert (a + b)[|a| + i] == b[i];
    }
  }

  lemma SentOne(a: seq<Pdu>, x: int)
    requires |a| == 1
    ensures Sent(a, x) <==> Carries(a[0], x)
  {}

  /** The pieces start at low or beyond. */
  ghost predicate Above(ps: seq<Pdu>, low: nat) {
    forall i :: 0 <= i < |ps| ==> ps[i].Fd? && low <= ps[i].offset
  }

  lemma OrderCons(p: Pdu, ps: seq<Pdu>, low: nat)
    requires p.Fd? && low <= p.offset && InOrder(ps) && Above(ps, p.offset + |p.data|)
    ensures InOrder([p] + ps) && Above([p] + ps, low)
  {}

  /** Lowest offset first, and nothing twice. */
  lemma {:induction false} DrainInOrder(cfg: Config, src: Bytes, t: Tx, ios: seq<TxIo>, low: nat)
    requires Ready(cfg, src, t) && From(t.chunks, low)
    ensures var d := Drain(cfg, t, ios);
            InOrder(d.sent) && Above(d.sent, low)
    decreases |ios|
  {
    hide TickNak;
    hide Separated;
    hide Ready;
    hide From;
    hide InOrder;
    if ios == [] {
      Nothing(low);
    } else {
      hide Above;
      DrainUnfolds(cfg, t, ios);
      hide Drain;
      TickNakCases(cfg, src, t, ios[0]);
      var u := TickNak(cfg, t, ios[0]);
      if u.sent == [] {
        DrainInOrder(cfg, src, u.t, ios[1..], low);
      } else {
        hide Serves;
        var p := u.sent[0];
        ServesAbove(cfg, src, t, p, u.t.chunks, low);
        DrainInOrder(cfg, src, u.t, ios[1..], p.offset + |p.data|);
        OrderCons(p, Drain(cfg, u.t, ios[1..]).sent, low);
      }
    }
  }

  lemma Nothing(low: nat)
    ensures InOrder([]) && Above([], low)
  {}

  lemma DrainUnfolds(cfg: Config, t: Tx, ios: seq<TxIo>)
    requires ios != []
    ensures var u := TickNak(cfg, t, ios[0]);
            var rest := Drain(cfg, u.t, ios[1..]).sent;
            && (u.sent == [] ==> Drain(cfg, t, ios).sent == rest)
            && (|u.sent| == 1 ==> Drain(cfg, t, ios).sent == [u.sent[0]] + rest)
  {
    hide TickNak;
    var u := TickNak(cfg, t, ios[0]);
    assert [] + Drain(cfg, u.t, ios[1..]).sent == Drain(cfg, u.t, ios[1..]).sent;
    assert |u.sent| == 1 ==> u.sent == [u.sent[0]];
  }

  lemma ServesAbove(cfg: Config, src: Bytes, t: Tx, p: Pdu, cs: seq<Chunk>, low: nat)
    requires Ready(cfg, src, t) && From(t.chunks, low) && t.chunks != [] && Serves(t.chunks, p, cs)
    ensures p.Fd? && low <= p.offset && From(cs, p.offset + |p.data|)
  {
    assert Separated(t.chunks);
    ServesFrom(t.chunks, p, cs);
    hide TickNak;
  }

  // ------------------------------------------------------------------ short reads

  /** The call gets as far as reading. */
  predicate Reads(f: TxFile, offset: nat, io: TxIo) {
    io.canSend && f.open && (f.cachedPos == offset || io.seekOk)
  }

  /** It delivers some but not all of what was asked for. */
  predicate Short(cfg: Config, f: TxFile, offset: nat, want: nat, io: TxIo) {
    Reads(f, offset, io) && 0 < io.readable < Wanted(cfg, want, io.room)
  }

  /** The position the code believes in stays the true one exactly as long as no read delivers
      some but not all of what was asked for. */
  lemma DriftIff(cfg: Config, f: TxFile, offset: nat, want: nat, calcCrc: bool, io: TxIo)
    requires f.pos == f.cachedPos && offset + want <= |f.src|
    ensures var g := SendFileData(cfg, f, offset, want, calcCrc, io).file;
            g.pos == g.cachedPos <==> !Short(cfg, f, offset, want, io)
  {
    hide CfCrc.Digest;
  }

  /** After such a read the retry does not seek: it labels the bytes at the true position with the
      requested offset. */
  lemma DriftedRetry(cfg: Config, f: TxFile, offset: nat, want: nat, io1: TxIo, io2: TxIo)
    requires f.pos == f.cachedPos && offset + want <= |f.src|
    requires Short(cfg, f, offset, want, io1)
    requires io2.canSend && io2.readable >= |f.src|
    requires offset + io1.readable + Wanted(cfg, want, io2.room) <= |f.src|
    ensures var g := SendFileData(cfg, f, offset, want, false, io1).file;
            var at := offset + io1.readable;
            SendFileData(cfg, g, offset, want, false, io2).sent ==
            [Fd(offset, f.src[at..at + Wanted(cfg, want, io2.room)])]
  {
    hide CfCrc.Digest;
    var at := offset + io1.readable;
    assert f.src[at..at] == [];
  }

  // ------------------------------------------------------------------ what the pieces carry

  /** The piece is true of the source exactly when the seek was made or not needed, or the bytes
      found at the wrong place happen to be the right ones. */
  lemma PieceTrueIff(cfg: Config, src: Bytes, f: TxFile, offset: nat, want: nat, io: TxIo)
    requires f.src == src && offset + want <= |src|
    ensures var d := SendFileData(cfg, f, offset, want, false, io);
            var n := Transmitted(d.result);
            TxSafety.SentTrue(src, d.sent) <==>
            !TxSafety.Misplaced(f, offset) || n == 0 ||
            (f.pos + n <= |src| && src[f.pos..f.pos + n] == src[offset..offset + n])
  {
    var d := SendFileData(cfg, f, offset, want, false, io);
    hide CfCrc.Digest;
    if TxSafety.Misplaced(f, offset) {
      assert src[offset..offset] == [];
      MisplacedPiece(cfg, f, offset, want, io);
      if d.sent != [] {
        assert d.sent[0] in d.sent;
      }
      hide SendFileData;
    } else {
      TxSafety.SendFileDataEffect(cfg, src, f, offset, want, false, io);
    }
  }

  lemma MisplacedPiece(cfg: Config, f: TxFile, offset: nat, want: nat, io: TxIo)
    requires TxSafety.Misplaced(f, offset)
    ensures var d := SendFileData(cfg, f, offset, want, false, io);
            var n := Transmitted(d.result);
            && n <= want
            && (d.sent == [] ==> n == 0)
            && (d.sent != [] && n == 0 ==> d.sent == [Fd(offset, [])])
            && (d.sent != [] && n > 0 ==> f.pos + n <= |f.src| && d.sent == [Fd(offset, f.src[f.pos..f.pos + n])])
  {}

  /** No call of the sequence skips its seek at a wrong place. */
  predicate AllPlaced(cfg: Config, t: Tx, ios: seq<TxIo>)
    decreases |ios|
  {
    ios == [] || (TxSafety.NakPlaced(t, ios[0]) && AllPlaced(cfg, TickNak(cfg, t, ios[0]).t, ios[1..]))
  }

  lemma {:induction false} DrainIsTrue(cfg: Config, src: Bytes, t: Tx, ios: seq<TxIo>)
    requires Ready(cfg, src, t) && AllPlaced(cfg, t, ios)
    ensures TxSafety.SentTrue(src, Drain(cfg, t, ios).sent)
    decreases |ios|
  {
    if ios != [] {
      hide TickNak;
      hide RxSafety.Honest;
      TickNakCases(cfg, src, t, ios[0]);
      TxSafety.TickNakEffect(cfg, src, t, ios[0]);
      DrainIsTrue(cfg, src, TickNak(cfg, t, ios[0]).t, ios[1..]);
    }
  }

  /** The read this call makes for the lowest request delivers some but not all of it. */
  predicate ShortNak(cfg: Config, t: Tx, io: TxIo) {
    && t.flags.fdNakPending && t.chunks != []
    && Short(cfg, t.file, t.chunks[0].offset, t.chunks[0].size, io)
  }

  predicate NoneShort(cfg: Config, t: Tx, ios: seq<TxIo>)
    decreases |ios|
  {
    ios == [] || (!ShortNak(cfg, t, ios[0]) && NoneShort(cfg, TickNak(cfg, t, ios[0]).t, ios[1..]))
  }

  predicate AtPlace(f: TxFile) { f.pos == f.cachedPos }

  lemma TickNakAtPlace(cfg: Config, src: Bytes, t: Tx, io: TxIo)
    requires Ready(cfg, src, t) && AtPlace(t.file) && !ShortNak(cfg, t, io)
    ensures AtPlace(TickNak(cfg, t, io).t.file) && TxSafety.NakPlaced(t, io)
  {
    if t.flags.fdNakPending && t.chunks != [] {
      FirstInside(cfg, src, t);
      DriftIff(cfg, t.file, t.chunks[0].offset, t.chunks[0].size, false, io);
      hide SendFileData;
      hide Short;
    }
  }

  /** Without such reads no seek is skipped at a wrong place. */
  lemma {:induction false} NoneShortIsPlaced(cfg: Config, src: Bytes, t: Tx, ios: seq<TxIo>)
    requires Ready(cfg, src, t) && AtPlace(t.file) && NoneShort(cfg, t, ios)
    ensures AllPlaced(cfg, t, ios)
    decreases |ios|
  {
    if ios != [] {
      hide TickNak;
      hide Ready;
      TickNakCases(cfg, src, t, ios[0]);
      TickNakAtPlace(cfg, src, t, ios[0]);
      NoneShortIsPlaced(cfg, src, TickNak(cfg, t, ios[0]).t, ios[1..]);
    }
  }

  // ------------------------------------------------------------------ running past the end

  /** Where the next read of offset begins, if its seek works. */
  function ReadsFrom(f: TxFile, offset: nat): nat { if f.cachedPos == offset then f.pos else offset }

  /** The lowest request can be served to its end from where the file stands. */
  predicate Fits(t: Tx) {
    t.chunks != [] ==> ReadsFrom(t.file, t.chunks[0].offset) + t.chunks[0].size <= |t.file.src|
  }

  /** It cannot: the file stands too far behind, and no seek will be made to put that right. */
  predicate Overrun(t: Tx) {
    && t.flags.fdNakPending && t.chunks != [] && t.chunks[0].size > 0
    && t.file.cachedPos == t.chunks[0].offset && t.file.pos + t.chunks[0].size > |t.file.src|
  }

  /** The read this call makes stops short, and so late in the file that the request does not fit any
      more behind it. */
  predicate Overshoots(cfg: Config, t: Tx, io: TxIo) {
    && t.flags.fdNakPending && t.chunks != []
    && var c := t.chunks[0];
       && Reads(t.file, c.offset, io) && io.readable < Wanted(cfg, c.size, io.room)
       && ReadsFrom(t.file, c.offset) + io.readable + c.size > |t.file.src|
  }

  predicate NoneOvershoots(cfg: Config, t: Tx, ios: seq<TxIo>)
    decreases |ios|
  {
    ios == [] || (!Overshoots(cfg, t, ios[0]) && NoneOvershoots(cfg, TickNak(cfg, t, ios[0]).t, ios[1..]))
  }

  /** One read from a place at which the request fits: what it sends, and where it leaves the file. */
  lemma FittingRead(cfg: Config, f: TxFile, offset: nat, want: nat, io: TxIo)
    requires ReadsFrom(f, offset) + want <= |f.src|
    ensures var d := SendFileData(cfg, f, offset, want, false, io);
            var n := Wanted(cfg, want, io.room);
            var at := ReadsFrom(f, offset);
            if !Reads(f, offset, io) then d.file == f && d.sent == [] && Transmitted(d.result) == 0
            else && d.file.cachedPos == offset + Transmitted(d.result)
                 && d.file.pos == at + Min(io.readable, n)
                 && Transmitted(d.result) == (if io.readable < n then 0 else n)
                 && (d.sent == [] <==> io.readable < n)
  {
    hide CfCrc.Digest;
  }

  /** One read from a place at which it does not. */
  lemma OverrunRead(cfg: Config, f: TxFile, offset: nat, want: nat, io: TxIo)
    requires f.cachedPos == offset && f.pos + want > |f.src|
    ensures var d := SendFileData(cfg, f, offset, want, false, io);
            var n := Transmitted(d.result);
            d.file.src == f.src && d.file.cachedPos == offset + n && d.file.pos >= f.pos + n && n < want + 1
            && (n == want ==> n == 0)
  {
    hide CfCrc.Digest;
  }

  /** A transaction that has run past the end stays there, whatever the calls do. */
  lemma {:induction false} OverrunStays(cfg: Config, src: Bytes, t: Tx, ios: seq<TxIo>)
    requires Ready(cfg, src, t) && Overrun(t)
    ensures Overrun(Drain(cfg, t, ios).t)
    decreases |ios|
  {
    if ios != [] {
      TickNakCases(cfg, src, t, ios[0]);
      OverrunStep(cfg, t, ios[0]);
      hide TickNak;
      hide Ready;
      hide Overrun;
      OverrunStays(cfg, src, TickNak(cfg, t, ios[0]).t, ios[1..]);
    }
  }

  lemma OverrunStep(cfg: Config, t: Tx, io: TxIo)
    requires Overrun(t)
    ensures Overrun(TickNak(cfg, t, io).t)
  {
    var c := t.chunks[0];
    OverrunRead(cfg, t.file, c.offset, c.size, io);
    TxSafety.TickNakIs(cfg, t, io);
    hide TickNak;
    hide SendFileData;
  }

  /** One call runs past the end exactly when its read overshoots. */
  lemma OverrunIff(cfg: Config, src: Bytes, t: Tx, io: TxIo)
    requires Ready(cfg, src, t) && t.flags.fdNakPending && t.chunks != [] && NonEmpty(t.chunks) && Fits(t)
    ensures var u := TickNak(cfg, t, io).t;
            (Overrun(u) <==> Overshoots(cfg, t, io)) && (!Overshoots(cfg, t, io) ==> Fits(u))
  {
    var c := t.chunks[0];
    assert |t.chunks| > 1 ==> c.End() < t.chunks[1].offset;
    assert c.size > 0;
    FittingRead(cfg, t.file, c.offset, c.size, io);
    SendsPiece(cfg, t.file, c.offset, c.size, io);
    TxSafety.TickNakIs(cfg, t, io);
    hide TickNak;
    hide SendFileData;
    hide Ready;
    hide NonEmpty;
  }

  /** A short read from the right place runs past the end exactly when what it delivered and the
      whole request together reach beyond the file; so it always does for the file's last bytes. */
  lemma ShortReadOverruns(cfg: Config, src: Bytes, t: Tx, io: TxIo)
    requires Ready(cfg, src, t) && NonEmpty(t.chunks) && AtPlace(t.file) && ShortNak(cfg, t, io)
    ensures Overrun(TickNak(cfg, t, io).t) <==> t.chunks[0].End() + io.readable > |src|
  {
    FirstInside(cfg, src, t);
    OverrunIff(cfg, src, t, io);
    assert Overshoots(cfg, t, io) <==> t.chunks[0].End() + io.readable > |src|;
    hide TickNak;
    hide Ready;
    hide NonEmpty;
  }

  /** From where the first request fits, calls without short reads do not run past the end. */
  lemma {:induction false} WholeReadsFit(cfg: Config, src: Bytes, t: Tx, ios: seq<TxIo>)
    requires Ready(cfg, src, t) && NonEmpty(t.chunks) && Fits(t) && NoneShort(cfg, t, ios)
    ensures NoneOvershoots(cfg, t, ios)
    decreases |ios|
  {
    if ios != [] {
      TickNakCases(cfg, src, t, ios[0]);
      TickNakOutstanding(cfg, src, t, ios[0]);
      if t.flags.fdNakPending && t.chunks != [] {
        OvershootIsShort(cfg, t, ios[0]);
        OverrunIff(cfg, src, t, ios[0]);
      }
      hide TickNak;
      hide Ready;
      hide NonEmpty;
      hide Short;
      var u := TickNak(cfg, t, ios[0]).t;
      assert Fits(u) by { NothingDue(cfg, t, ios[0]); }
      WholeReadsFit(cfg, src, u, ios[1..]);
    }
  }

  lemma OvershootIsShort(cfg: Config, t: Tx, io: TxIo)
    requires Fits(t)
    ensures Overshoots(cfg, t, io) ==> ShortNak(cfg, t, io)
  {}

  lemma NothingDue(cfg: Config, t: Tx, io: TxIo)
    ensures !t.flags.fdNakPending || t.chunks == [] ==>
              TickNak(cfg, t, io).t == t.(flags := t.flags.(fdNakPending := false))
  {}

  /** No byte is in any of the PDUs. */
  predicate NoBytes(ps: seq<Pdu>) { forall p :: p in ps ==> p.Fd? && p.data == [] }

  /** With the file at its end the calls send nothing any more. */
  lemma {:induction false} OverrunSilent(cfg: Config, src: Bytes, t: Tx, ios: seq<TxIo>)
    requires Ready(cfg, src, t) && Overrun(t) && t.file.pos >= |src|
    ensures var d := Drain(cfg, t, ios);
            NoBytes(d.sent) && d.t.chunks == t.chunks && d.t.file == t.file && Overrun(d.t)
    decreases |ios|
  {
    if ios != [] {
      TickNakCases(cfg, src, t, ios[0]);
      SilentStep(cfg, src, t, ios[0]);
      OverrunStep(cfg, t, ios[0]);
      hide TickNak;
      hide Ready;
      hide Overrun;
      OverrunSilent(cfg, src, TickNak(cfg, t, ios[0]).t, ios[1..]);
    }
  }

  lemma SilentStep(cfg: Config, src: Bytes, t: Tx, io: TxIo)
    requires Ready(cfg, src, t) && Overrun(t) && t.file.pos >= |src|
    ensures var x := TickNak(cfg, t, io); NoBytes(x.sent) && x.t.chunks == t.chunks && x.t.file == t.file
  {
    hide CfCrc.Digest;
    hide TxSafety.RequestsInv;
  }

  /** The NAK asks for nothing but what is owed already. */
  ghost predicate Known(cs: seq<Chunk>, segs: seq<Segment>) {
    forall i :: 0 <= i < |segs| ==>
      segs[i].start < segs[i].end && forall x :: segs[i].start <= x < segs[i].end ==> Covers(cs, x)
  }

  /** Such a NAK changes neither what is owed nor where the file stands. */
  lemma {:induction false} RepeatedNak(cfg: Config, t: Tx, segs: seq<Segment>)
    requires cfg.Valid() && Separated(t.chunks) && |t.chunks| <= cfg.maxChunks && NonEmpty(t.chunks)
    requires Known(t.chunks, segs)
    ensures var u := RecvNak(cfg, t, segs);
            u.chunks == t.chunks && u.file == t.file && (t.flags.fdNakPending ==> u.flags.fdNakPending)
    decreases |segs|
  {
    if segs != [] {
      KnownTail(t.chunks, segs);
      RepeatedSegment(cfg, t, segs[0]);
      hide Known;
      hide RecvSegment;
      hide Separated;
      hide NonEmpty;
      RepeatedNak(cfg, RecvSegment(cfg, t, segs[0]), segs[1..]);
    }
  }

  lemma KnownTail(cs: seq<Chunk>, segs: seq<Segment>)
    requires segs != [] && Known(cs, segs)
    ensures Known(cs, segs[1..]) && Known(cs, [segs[0]])
  {
    hide Covers;
    assert forall i :: 0 <= i < |segs[1..]| ==> segs[1..][i] == segs[i + 1];
  }

  lemma RepeatedSegment(cfg: Config, t: Tx, s: Segment)
    requires cfg.Valid() && Separated(t.chunks) && |t.chunks| <= cfg.maxChunks && NonEmpty(t.chunks)
    requires Known(t.chunks, [s])
    ensures var u := RecvSegment(cfg, t, s);
            u.chunks == t.chunks && u.file == t.file && (t.flags.fdNakPending ==> u.flags.fdNakPending)
  {
    hide Covers;
    hide Separated;
    hide NonEmpty;
    assert [s][0] == s;
    AddKnown(t.chunks, cfg.maxChunks, Chunk(s.start, s.end - s.start));
    hide Add;
  }

  lemma AddKnown(cs: seq<Chunk>, max: nat, c: Chunk)
    requires Separated(cs) && |cs| <= max && 0 < max && NonEmpty(cs)
    requires c.size > 0 && forall x :: c.Has(x) ==> Covers(cs, x)
    ensures Add(cs, max, c) == cs
  {
    hide Add;
    assert c.Has(c.offset);
    var k :| 0 <= k < |cs| && cs[k].Has(c.offset);
    TouchAt(cs, k, c);
    AddMerges(cs, max, c);
    Canonical(Add(cs, max, c), cs);
  }

  // ------------------------------------------------------------------ progress

  /** A good call sends something of the lowest request if that fits. */
  lemma GoodServes(cfg: Config, src: Bytes, t: Tx, io: TxIo)
    requires Ready(cfg, src, t) && Fits(t) && t.file.open && cfg.fileChunkSize > 0
    requires Good(src, io) && t.flags.fdNakPending && t.chunks != []
    ensures var x := TickNak(cfg, t, io);
            |x.sent| == 1 && x.sent[0].Fd? && (t.chunks[0].size > 0 ==> |x.sent[0].data| > 0)
  {
    var c := t.chunks[0];
    FirstInside(cfg, src, t);
    FittingRead(cfg, t.file, c.offset, c.size, io);
    SendsPiece(cfg, t.file, c.offset, c.size, io);
    TxSafety.TickNakIs(cfg, t, io);
    hide TickNak;
    hide SendFileData;
    hide TxSafety.RequestsInv;
  }

  /** Each call that serves a request takes that many bytes off what is owed. */
  lemma TickNakOutstanding(cfg: Config, src: Bytes, t: Tx, io: TxIo)
    requires Ready(cfg, src, t)
    ensures var x := TickNak(cfg, t, io);
            && Outstanding(x.t.chunks) == Outstanding(t.chunks) - (if x.sent == [] then 0 else |x.sent[0].data|)
            && (NonEmpty(t.chunks) <==> NonEmpty(x.t.chunks))
  {
    assert Separated(t.chunks);
    hide Ready;
    hide TickNak;
    hide Separated;
    hide NonEmpty;
    TickNakCases(cfg, src, t, io);
    var x := TickNak(cfg, t, io);
    if x.sent != [] {
      ServesSplits(t.chunks, x.sent[0], x.t.chunks, 0);
    }
  }

  /** Where nothing is owed, the next call clears the flag. */
  lemma EmptiedDrains(cfg: Config, t: Tx, ios: seq<TxIo>)
    requires t.flags.fdNakPending && t.chunks == [] && ios != []
    ensures var d := Drain(cfg, t, ios); !d.t.flags.fdNakPending && d.t.chunks == []
    ensures NoneOvershoots(cfg, t, ios)
  {
    var u := TickNak(cfg, t, ios[0]).t;
    assert !u.flags.fdNakPending && u.chunks == [];
    hide TickNak;
    Drained(cfg, u, ios[1..]);
  }

  lemma {:induction false} FittingFinishes(cfg: Config, src: Bytes, t: Tx, ios: seq<TxIo>)
    requires Ready(cfg, src, t) && t.file.open && cfg.fileChunkSize > 0
    requires t.flags.fdNakPending && Goods(src, ios) > Outstanding(t.chunks)
    requires t.chunks != [] && NonEmpty(t.chunks) && Fits(t)
    ensures var d := Drain(cfg, t, ios);
            && (!d.t.flags.fdNakPending <==> NoneOvershoots(cfg, t, ios))
            && (!d.t.flags.fdNakPending ==> d.t.chunks == [])
    decreases |ios|, 0
  {
    var io := ios[0];
    assert t.chunks[0].size > 0;
    hide Ready;
    hide TickNak;
    hide Good;
    hide Overshoots;
    hide Overrun;
    hide Fits;
    hide NonEmpty;
    TickNakCases(cfg, src, t, io);
    TickNakOutstanding(cfg, src, t, io);
    OverrunIff(cfg, src, t, io);
    var u := TickNak(cfg, t, io).t;
    if Overshoots(cfg, t, io) {
      OverrunStays(cfg, src, u, ios[1..]);
      OverrunPends(Drain(cfg, u, ios[1..]).t);
    } else {
      if Good(src, io) {
        GoodServes(cfg, src, t, io);
      }
      DrainFinishes(cfg, src, u, ios[1..]);
    }
  }

  lemma OverrunPends(t: Tx)
    requires Overrun(t)
    ensures t.flags.fdNakPending
  {}

  /** Calls enough to serve everything, among any others, clear the pending flag exactly when no
      request was empty, the first one fitted, and no read overshot. */
  lemma {:induction false} DrainFinishes(cfg: Config, src: Bytes, t: Tx, ios: seq<TxIo>)
    requires Ready(cfg, src, t) && t.file.open && cfg.fileChunkSize > 0
    requires t.flags.fdNakPending && Goods(src, ios) > Outstanding(t.chunks)
    ensures var d := Drain(cfg, t, ios);
            && (!d.t.flags.fdNakPending <==> NonEmpty(t.chunks) && Fits(t) && NoneOvershoots(cfg, t, ios))
            && (!d.t.flags.fdNakPending ==> d.t.chunks == [])
    decreases |ios|, 1
  {
    if !NonEmpty(t.chunks) {
      NeverDrains(cfg, src, t, ios);
    } else if !Fits(t) {
      FirstInside(cfg, src, t);
      assert Overrun(t);
      OverrunStays(cfg, src, t, ios);
    } else if t.chunks == [] {
      EmptiedDrains(cfg, t, ios);
    } else {
      FittingFinishes(cfg, src, t, ios);
    }
  }

  /** With nothing pending nothing more is sent. */
  lemma {:induction false} Drained(cfg: Config, t: Tx, ios: seq<TxIo>)
    requires !t.flags.fdNakPending
    ensures Drain(cfg, t, ios) == Sending(t, []) && NoneOvershoots(cfg, t, ios)
    decreases |ios|
  {
    if ios != [] {
      Drained(cfg, t, ios[1..]);
    }
  }

  /** An empty request is not taken off the list by being served, however often. */
  lemma {:induction false} NeverDrains(cfg: Config, src: Bytes, t: Tx, ios: seq<TxIo>)
    requires Ready(cfg, src, t) && t.flags.fdNakPending && !NonEmpty(t.chunks)
    ensures var d := Drain(cfg, t, ios); d.t.flags.fdNakPending && !NonEmpty(d.t.chunks)
    decreases |ios|
  {
    if ios != [] {
      hide Ready;
      hide TickNak;
      TickNakCases(cfg, src, t, ios[0]);
      TickNakOutstanding(cfg, src, t, ios[0]);
      NeverDrains(cfg, src, TickNak(cfg, t, ios[0]).t, ios[1..]);
    }
  }

  /** Such a request comes from a NAK segment whose start and end are the same nonzero offset, which
      the sender does not reject; it is noted unless it lies in or at the end of another request, or
      the list is full. */
  lemma EmptySegmentAccepted(cfg: Config, t: Tx, s: Segment)
    requires cfg.Valid() && Separated(t.chunks) && |t.chunks| <= cfg.maxChunks && NonEmpty(t.chunks)
    ensures !NonEmpty(RecvNak(cfg, t, [s]).chunks) <==>
            && 0 < s.start == s.end <= t.fsize
            && !Touches(t.chunks, Chunk(s.start, 0)) && |t.chunks| < cfg.maxChunks
  {
    hide Touches;
    hide Separated;
    hide NonEmpty;
    hide Add;
    RecvOne(cfg, t, s);
    hide RecvNak;
    if s.start <= s.end {
      var c := Chunk(s.start, s.end - s.start);
      AddRefines(t.chunks, cfg.maxChunks, c);
      if c.size == 0 {
        AddEmpty(t.chunks, cfg.maxChunks, c);
      }
    }
  }

  lemma RecvOne(cfg: Config, t: Tx, s: Segment)
    ensures RecvNak(cfg, t, [s]) == RecvSegment(cfg, t, s)
  {
    hide RecvSegment;
    assert [s][1..] == [];
    assert RecvNak(cfg, t, [s]) == RecvNak(cfg, RecvSegment(cfg, t, s), []);
  }

  lemma AddEmpty(cs: seq<Chunk>, max: nat, c: Chunk)
    requires Separated(cs) && |cs| <= max && 0 < max && NonEmpty(cs) && c.size == 0
    ensures NonEmpty(Add(cs, max, c)) <==> Touches(cs, c) || |cs| == max
  {
    hide Add;
    hide Touches;
    hide Separated;
    if Touches(cs, c) {
      AddMerges(cs, max, c);
    } else if |cs| < max {
      AddInserts(cs, max, c);
    } else {
      AddWithoutTouch(cs, max, c);
      hide InsertPos;
    }
  }

  /** A NAK without such segments leaves only requests for something. */
  lemma {:induction false} NakKeepsNonEmpty(cfg: Config, t: Tx, segs: seq<Segment>)
    requires cfg.Valid() && Separated(t.chunks) && |t.chunks| <= cfg.maxChunks && NonEmpty(t.chunks)
    requires forall i :: 0 <= i < |segs| ==> segs[i].start != segs[i].end || segs[i].start == 0
    ensures NonEmpty(RecvNak(cfg, t, segs).chunks)
    decreases |segs|
  {
    hide Add;
    hide NonEmpty;
    hide Separated;
    if segs != [] {
      var s := segs[0];
      if s.start <= s.end {
        AddRefines(t.chunks, cfg.maxChunks, Chunk(s.start, s.end - s.start));
      }
      NakKeepsNonEmpty(cfg, RecvSegment(cfg, t, s), segs[1..]);
    }
  }
}
