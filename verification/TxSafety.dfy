/** What a sender keeps, whatever PDUs reach it: all it sends is true of its source file, and it
    gives the file up only after a FIN that said COMPLETE and RETAINED. */
module TxSafety {
  import opened Bytes
  import opened Cfdp
  import opened ChunkSpec
  import opened TxSpec
  import opened CfCrc
  import opened Wrappers
  import RxSafety

  /** No seek will be made to offset, although the file stands elsewhere. */
  predicate Misplaced(f: TxFile, offset: nat) {
    f.open && f.cachedPos == offset && f.pos != offset
  }

  /** The next retransmission, if there is one, reads where it means to. */
  predicate NakPlaced(t: Tx, io: TxIo) {
    io.canSend && t.flags.fdNakPending && t.chunks != [] ==> !Misplaced(t.file, t.chunks[0].offset)
  }

  predicate SentTrue(src: Bytes, sent: seq<Pdu>) {
    forall p :: p in sent ==> RxSafety.Honest(src, p)
  }

  ghost predicate SourceInv(src: Bytes, f: TxFile) {
    f.src == src && f.foffs <= |src|
  }

  /** The requests to be served are inside the file. */
  ghost predicate RequestsInv(max: nat, src: Bytes, chunks: seq<Chunk>) {
    Separated(chunks) && |chunks| <= max && Inside(chunks, |src|)
  }

  ghost predicate CrcInv(src: Bytes, sub: SubState, sendEof: bool, f: TxFile) {
    if sub.DataNormal?
    then !sendEof && f.foffs <= |src| && f.crc == Digest(START, src[..f.foffs])
    else sub.DataEof? || sendEof ==> f.crc.result == Checksum(src)
  }

  predicate GivenUp(f: TxFile) { f.fate.Removed? || f.fate.MovedAway? }

  /** In class 2 the first FIN is on record, and the source is given up only on its word.  got
      holds every PDU that may reach the sender. */
  ghost predicate FateInv(got: set<Pdu>, t: Tx) {
    t.reliable ==>
      && (t.flags.finCount != 0 ==> Fin(t.fin.cc, t.fin.dc, t.fin.fs) in got)
      && (t.com.isComplete ==> t.flags.finCount != 0)
      && (GivenUp(t.file) ==> !t.keep && t.flags.finCount != 0 && t.fin.dc == COMPLETE && t.fin.fs == RETAINED)
  }

  ghost predicate Inv(cfg: Config, src: Bytes, got: set<Pdu>, t: Tx) {
    && SourceInv(src, t.file) && t.fsize == |src| && RequestsInv(cfg.maxChunks, src, t.chunks)
    && CrcInv(src, t.sub, t.flags.sendEof, t.file) && FateInv(got, t)
  }

  // ------------------------------------------------------------------ file data

  lemma ReadFromEffect(src: Bytes, f: TxFile, n: nat, readable: nat)
    requires f.src == src && f.pos == f.cachedPos && f.pos + n <= |src|
    ensures var r := ReadFrom(f, n, readable);
            && r.file == f.(pos := r.file.pos, cachedPos := r.file.cachedPos)
            && (r.ok ==> r.file.pos == r.file.cachedPos && r.data == src[f.pos..f.pos + n])
  {
    assert src[f.pos..f.pos] == [];
  }

  lemma SendFileDataEffect(cfg: Config, src: Bytes, f: TxFile, offset: nat, want: nat, calcCrc: bool, io: TxIo)
    requires f.src == src && offset + want <= |src| && !Misplaced(f, offset)
    ensures var d := SendFileData(cfg, f, offset, want, calcCrc, io);
            && d.file.src == f.src && d.file.fate == f.fate && d.file.foffs == f.foffs && d.file.open == f.open
            && (d.result.Sent? ==> d.file.pos == d.file.cachedPos) && (d.result.NoBuffer? ==> d.file == f)
            && Transmitted(d.result) <= want
            && d.file.crc == (if calcCrc then Digest(f.crc, src[offset..offset + Transmitted(d.result)]) else f.crc)
    ensures SentTrue(src, SendFileData(cfg, f, offset, want, calcCrc, io).sent)
  {
    hide Digest;
    hide ReadFrom;
    assert src[offset..offset] == [] && Digest(f.crc, []) == f.crc by { DigestNone(f.crc); }
    var s := SeekFor(f, offset, io.seekOk);
    if s.ok {
      ReadFromEffect(src, s.file, Wanted(cfg, want, io.room), io.readable);
    }
  }

  lemma DigestNone(s: State)
    requires s.Valid()
    ensures Digest(s, []) == s
  {}

  lemma FirstPassCrc(src: Bytes, foffs: nat, n: nat)
    requires foffs + n <= |src|
    ensures Digest(Digest(START, src[..foffs]), src[foffs..foffs + n]) == Digest(START, src[..foffs + n])
  {
    DigestConcat(START, src[..foffs], src[foffs..foffs + n]);
    assert src[..foffs] + src[foffs..foffs + n] == src[..foffs + n];
  }

  /** The first pass digests what it sends. */
  lemma FirstPassStep(cfg: Config, src: Bytes, f: TxFile, io: TxIo)
    requires SourceInv(src, f) && !Misplaced(f, f.foffs) && f.crc == Digest(START, src[..f.foffs])
    ensures var d := FirstPass(cfg, f, |src|, io);
            && SourceInv(src, d.file) && d.file.crc == Digest(START, src[..d.file.foffs])
            && d.file.fate == f.fate && SentTrue(src, d.sent)
            && (d.result.Sent? ==> d.file.pos == d.file.cachedPos)
            && (d.result.NoBuffer? ==> d.file.pos == f.pos && d.file.cachedPos == f.cachedPos)
  {
    hide SendFileData;
    hide Digest;
    hide SentTrue;
    hide Misplaced;
    SendFileDataEffect(cfg, src, f, f.foffs, |src| - f.foffs, true, io);
    var d := SendFileData(cfg, f, f.foffs, |src| - f.foffs, true, io);
    FirstPassCrc(src, f.foffs, Transmitted(d.result));
  }

  /** A step of the first pass that leaves the position astray leaves the transaction in error. */
  lemma SendNewDataEffect(cfg: Config, src: Bytes, t: Tx, io: TxIo)
    requires SourceInv(src, t.file) && t.fsize == |src| && t.sub.DataNormal? && t.file.pos == t.file.cachedPos
    requires CrcInv(src, t.sub, t.flags.sendEof, t.file)
    ensures var u := SendNewData(cfg, t, io).t;
            && u == t.(stat := u.stat, file := u.file) && u.file.fate == t.file.fate
            && SourceInv(src, u.file) && CrcInv(src, t.sub, t.flags.sendEof, u.file)
            && (u.file.pos != u.file.cachedPos ==> !u.Ok())
    ensures SentTrue(src, SendNewData(cfg, t, io).sent)
  {
    FirstPassStep(cfg, src, t.file, io);
    hide FirstPass;
    hide Digest;
    hide Checksum;
    hide SentTrue;
  }

  /** Whatever the seek and the read do, sending file data keeps the source and its fate, and without
      a checksum to compute the checksum. */
  lemma SendKeepsSource(cfg: Config, f: TxFile, offset: nat, want: nat, calcCrc: bool, io: TxIo)
    ensures var d := SendFileData(cfg, f, offset, want, calcCrc, io);
            && d.file.src == f.src && d.file.fate == f.fate && d.file.foffs == f.foffs && d.file.open == f.open
            && (!calcCrc ==> d.file.crc == f.crc) && Transmitted(d.result) <= want
            && forall p :: p in d.sent ==> p.Fd?
  {
    hide ReadFrom;
    hide Digest;
    var n := Wanted(cfg, want, io.room);
    ReadKeepsSource(f, n, io.readable);
    ReadKeepsSource(f.(cachedPos := offset, pos := offset), n, io.readable);
  }

  lemma ReadKeepsSource(f: TxFile, n: nat, readable: nat)
    ensures var g := ReadFrom(f, n, readable).file;
            g.src == f.src && g.fate == f.fate && g.foffs == f.foffs && g.open == f.open && g.crc == f.crc
  {}

  /** A piece that is read where it belongs is true. */
  lemma NakSendsTrue(cfg: Config, src: Bytes, t: Tx, io: TxIo)
    requires SourceInv(src, t.file) && RequestsInv(cfg.maxChunks, src, t.chunks) && NakPlaced(t, io)
    requires t.flags.fdNakPending && t.chunks != []
    ensures SentTrue(src, SendFileData(cfg, t.file, t.chunks[0].offset, t.chunks[0].size, false, io).sent)
  {
    var c := t.chunks[0];
    if io.canSend {
      SendFileDataEffect(cfg, src, t.file, c.offset, c.size, false, io);
      hide SendFileData;
    }
  }

  /** Serving a request, wherever the file stands, leaves the checksum of the first pass alone. */
  lemma TickNakEffect(cfg: Config, src: Bytes, t: Tx, io: TxIo)
    requires SourceInv(src, t.file) && RequestsInv(cfg.maxChunks, src, t.chunks)
    ensures var x := TickNak(cfg, t, io);
            var u := x.t;
            && u == t.(file := u.file, chunks := u.chunks, flags := u.flags)
            && u.flags == t.flags.(fdNakPending := u.flags.fdNakPending)
            && u.file.fate == t.file.fate && u.file.crc == t.file.crc && u.file.foffs == t.file.foffs
            && SourceInv(src, u.file) && RequestsInv(cfg.maxChunks, src, u.chunks)
            && (forall p :: p in x.sent ==> p.Fd?) && (NakPlaced(t, io) ==> SentTrue(src, x.sent))
  {
    assert SentTrue(src, []);
    hide SendFileData;
    hide Digest;
    hide RequestsInv;
    hide RemoveFromFirst;
    hide SentTrue;
    hide NakPlaced;
    TickNakIs(cfg, t, io);
    if t.flags.fdNakPending && t.chunks != [] {
      var c := t.chunks[0];
      SendKeepsSource(cfg, t.file, c.offset, c.size, false, io);
      if NakPlaced(t, io) {
        NakSendsTrue(cfg, src, t, io);
      }
      var d := SendFileData(cfg, t.file, c.offset, c.size, false, io);
      if d.result.Sent? {
        RemoveInside(cfg.maxChunks, src, t.chunks, d.result.n);
      }
    }
    hide TickNak;
  }

  lemma TickNakIs(cfg: Config, t: Tx, io: TxIo)
    ensures var x := TickNak(cfg, t, io);
            && x.t == t.(file := x.t.file, chunks := x.t.chunks, flags := x.t.flags)
            && x.t.flags == t.flags.(fdNakPending := x.t.flags.fdNakPending)
            && if t.flags.fdNakPending && t.chunks != [] then
                 var d := SendFileData(cfg, t.file, t.chunks[0].offset, t.chunks[0].size, false, io);
                 var n := Transmitted(d.result);
                 && x.t.file == d.file && x.sent == d.sent
                 && x.t.chunks == if n > 0 then RemoveFromFirst(t.chunks, n) else t.chunks
               else x.t.file == t.file && x.sent == [] && x.t.chunks == t.chunks
  {
    hide SendFileData;
    hide RemoveFromFirst;
  }

  lemma TickNewDataKeeps(cfg: Config, src: Bytes, got: set<Pdu>, t: Tx, io: TxIo)
    requires Inv(cfg, src, got, t) && (t.sub.DataNormal? ==> t.file.pos == t.file.cachedPos)
    ensures Inv(cfg, src, got, TickNewData(cfg, t, io).t) && SentTrue(src, TickNewData(cfg, t, io).sent)
  {
    if t.sub.DataNormal? {
      SendNewDataEffect(cfg, src, t, io);
    }
    hide SendNewData;
    hide SourceInv;
    hide RequestsInv;
    hide CrcInv;
  }

  /** A retransmission keeps the sender's invariant wherever the file stands, and sends true pieces if
      it does not skip its seek at a wrong place. */
  lemma TickNakKeeps(cfg: Config, src: Bytes, got: set<Pdu>, t: Tx, io: TxIo)
    requires Inv(cfg, src, got, t)
    ensures Inv(cfg, src, got, TickNak(cfg, t, io).t)
    ensures NakPlaced(t, io) ==> SentTrue(src, TickNak(cfg, t, io).sent)
  {
    TickNakEffect(cfg, src, t, io);
    hide TickNak;
    hide SourceInv;
    hide RequestsInv;
    hide Digest;
  }

  lemma RemoveInside(max: nat, src: Bytes, cs: seq<Chunk>, n: nat)
    requires cs != [] && RequestsInv(max, src, cs)
    ensures RequestsInv(max, src, RemoveFromFirst(cs, n))
  {
    RemoveUncovers(cs, n);
    hide Separated;
    var rest := RemoveFromFirst(cs, n);
    forall i | 0 <= i < |rest|
      ensures rest[i].End() <= |src|
    {
      assert cs[0].End() <= |src|;
      assert rest[i] == cs[i + |cs| - |rest|] || rest[i].End() == cs[0].End();
    }
  }

  lemma SpliceInside(cs: seq<Chunk>, a: nat, k: nat, m: Chunk, c: Chunk, total: nat)
    requires Inside(cs, total) && c.End() <= total && Spans(cs, a, k, m, c)
    ensures Inside(Splice(cs, a, k, m), total)
  {}

  lemma InsertInside(cs: seq<Chunk>, c: Chunk, total: nat)
    requires Inside(cs, total) && c.End() <= total
    ensures Inside(InsertAt(cs, InsertPos(cs, c.offset), c), total)
    ensures cs != [] ==> Inside(Erase(cs, Smallest(cs)), total)
  {
    hide Smallest;
    hide InsertPos;
  }

  lemma AddInside(max: nat, src: Bytes, cs: seq<Chunk>, c: Chunk)
    requires RequestsInv(max, src, cs) && max > 0 && c.End() <= |src|
    ensures RequestsInv(max, src, Add(cs, max, c))
  {
    AddRefines(cs, max, c);
    var total := |src|;
    if Touches(cs, c) {
      var a, k, m := MergeIsSplice(cs, max, c);
      hide Add;
      SpliceInside(cs, a, k, m, c, total);
    } else {
      AddWithoutTouch(cs, max, c);
      InsertInside(cs, c, total);
      if cs != [] {
        InsertInside(Erase(cs, Smallest(cs)), c, total);
      }
    }
  }

  // ------------------------------------------------------------------ receiving PDUs

  lemma RecvFinKeeps(cfg: Config, src: Bytes, got: set<Pdu>, t: Tx, cc: nat, dc: nat, fs: nat)
    requires Inv(cfg, src, got, t) && Fin(cc, dc, fs) in got
    ensures Inv(cfg, src, got, RecvFin(cfg, t, cc, dc, fs))
    ensures Inv(cfg, src, got, EarlyFin(cfg, t, cc, dc, fs))
  {
    hide SourceInv;
    hide RequestsInv;
    hide CrcInv;
  }

  /** Nothing the invariant speaks of changed, the requests apart. */
  predicate OnlyRequests(t: Tx, u: Tx) {
    && u.file == t.file && u.fsize == t.fsize && u.sub == t.sub && u.reliable == t.reliable && u.keep == t.keep
    && u.fin == t.fin && u.com == t.com && u.flags.finCount == t.flags.finCount && u.flags.sendEof == t.flags.sendEof
  }

  lemma RequestsChange(cfg: Config, src: Bytes, got: set<Pdu>, t: Tx, u: Tx)
    requires Inv(cfg, src, got, t) && OnlyRequests(t, u) && RequestsInv(cfg.maxChunks, src, u.chunks)
    ensures Inv(cfg, src, got, u)
  {
    hide SourceInv;
    hide RequestsInv;
    hide CrcInv;
  }

  lemma RecvSegmentChunks(cfg: Config, src: Bytes, t: Tx, s: Segment)
    requires cfg.Valid() && t.fsize == |src| && RequestsInv(cfg.maxChunks, src, t.chunks)
    ensures RequestsInv(cfg.maxChunks, src, RecvSegment(cfg, t, s).chunks)
  {
    hide RequestsInv;
    hide Add;
    if s.start <= s.end <= t.fsize {
      var c := Chunk(s.start, s.end - s.start);
      AddInside(cfg.maxChunks, src, t.chunks, c);
    }
  }

  lemma RecvSegmentEffect(cfg: Config, t: Tx, s: Segment)
    ensures OnlyRequests(t, RecvSegment(cfg, t, s))
  {
    hide Add;
  }

  lemma RecvSegmentKeeps(cfg: Config, src: Bytes, got: set<Pdu>, t: Tx, s: Segment)
    requires cfg.Valid() && Inv(cfg, src, got, t)
    ensures Inv(cfg, src, got, RecvSegment(cfg, t, s))
  {
    RecvSegmentChunks(cfg, src, t, s);
    RecvSegmentEffect(cfg, t, s);
    RequestsChange(cfg, src, got, t, RecvSegment(cfg, t, s));
  }

  lemma {:induction false} RecvNakKeeps(cfg: Config, src: Bytes, got: set<Pdu>, t: Tx, segs: seq<Segment>)
    requires cfg.Valid() && Inv(cfg, src, got, t)
    ensures Inv(cfg, src, got, RecvNak(cfg, t, segs))
    decreases |segs|
  {
    if segs != [] {
      RecvSegmentKeeps(cfg, src, got, t, segs[0]);
      RecvNakKeeps(cfg, src, got, RecvSegment(cfg, t, segs[0]), segs[1..]);
    }
    hide Inv;
    hide RecvSegment;
  }

  lemma RecvEofAckKeeps(cfg: Config, src: Bytes, got: set<Pdu>, t: Tx, directive: nat)
    requires Inv(cfg, src, got, t)
    ensures Inv(cfg, src, got, RecvEofAck(t, directive))
  {
    hide SourceInv;
    hide RequestsInv;
    hide CrcInv;
  }

  lemma RecvKeeps(cfg: Config, src: Bytes, got: set<Pdu>, t: Tx, class2: bool, p: Pdu)
    requires cfg.Valid() && Inv(cfg, src, got, t) && p in got
    ensures Inv(cfg, src, got, Recv(cfg, t, class2, p))
  {
    match p {
      case Fin(cc, dc, fs) => RecvFinKeeps(cfg, src, got, t, cc, dc, fs);
      case Nak(segs) => RecvNakKeeps(cfg, src, got, t, segs);
      case Ack(directive) => RecvEofAckKeeps(cfg, src, got, t, directive);
      case _ =>
    }
    hide Inv;
    hide RecvFin;
    hide EarlyFin;
    hide RecvNak;
    hide RecvEofAck;
    ArmInactKeeps(cfg, src, got, if t.reliable then S2Recv(cfg, t, p) else S1Recv(cfg, t, p));
    ArmInactKeeps(cfg, src, got, if p.Fin? then RecvFin(cfg, t, p.cc, p.dc, p.fs) else t);
    ArmInactKeeps(cfg, src, got, t);
  }

  lemma ArmInactKeeps(cfg: Config, src: Bytes, got: set<Pdu>, t: Tx)
    requires Inv(cfg, src, got, t)
    ensures Inv(cfg, src, got, ArmInact(cfg, t))
  {
    hide SourceInv;
    hide RequestsInv;
    hide CrcInv;
  }

  // ------------------------------------------------------------------ the state machine

  lemma CheckDataEofKeeps(cfg: Config, src: Bytes, got: set<Pdu>, t: Tx)
    requires Inv(cfg, src, got, t) && t.sub.DataEof?
    ensures var c := CheckDataEof(cfg, t); Inv(cfg, src, got, c.t.(sub := c.next)) && !c.next.DataNormal?
  {
    hide SourceInv;
    hide RequestsInv;
    hide Checksum;
  }

  lemma FilestoreKeeps(cfg: Config, src: Bytes, got: set<Pdu>, t: Tx, io: TxIo)
    requires Inv(cfg, src, got, t) && t.sub.Filestore?
    ensures Inv(cfg, src, got, t.(file := t.file.(fate := RetentionFate(cfg, t, io)), sub := Complete))
  {
    hide RequestsInv;
    hide Checksum;
  }

  /** Leaving the first pass: the digest of the whole file is finalized. */
  lemma FirstPassEnds(cfg: Config, src: Bytes, got: set<Pdu>, t: Tx)
    requires Inv(cfg, src, got, t) && t.sub.DataNormal? && t.file.foffs >= t.fsize
    ensures Inv(cfg, src, got, Enter(cfg, t, DataEof))
  {
    hide RequestsInv;
    hide Checksum;
    hide Finalize;
    hide Digest;
    assert src[..|src|] == src;
    FinalizeIsChecksum(START, src);
  }

  lemma FirstPassStops(cfg: Config, src: Bytes, got: set<Pdu>, t: Tx)
    requires Inv(cfg, src, got, t) && t.sub.DataNormal?
    ensures Inv(cfg, src, got, Enter(cfg, t, Filestore))
  {
    hide RequestsInv;
    hide SourceInv;
    hide Digest;
    hide Checksum;
  }

  lemma EnterKeeps(cfg: Config, src: Bytes, got: set<Pdu>, t: Tx, next: SubState)
    requires Inv(cfg, src, got, t.(sub := next)) && (next.Filestore? || next.Complete?)
    ensures Inv(cfg, src, got, Enter(cfg, t, next))
  {
    hide RequestsInv;
    hide Checksum;
  }

  lemma CheckStateKeeps(cfg: Config, src: Bytes, got: set<Pdu>, t: Tx, io: TxIo)
    requires Inv(cfg, src, got, t)
    ensures Inv(cfg, src, got, CheckState(cfg, t, io))
  {
    match t.sub
    case DataNormal =>
      if t.file.foffs >= t.fsize {
        FirstPassEnds(cfg, src, got, t);
      }
      FirstPassStops(cfg, src, got, t);
      hide Inv;
      hide Enter;
    case DataEof =>
      CheckDataEofKeeps(cfg, src, got, t);
      hide Inv;
      var c := CheckDataEof(cfg, t);
      assert c.next == t.sub ==> c.t.(sub := c.next) == c.t;
      if c.next != t.sub {
        EnterKeeps(cfg, src, got, c.t, c.next);
      }
      hide Enter;
      hide CheckDataEof;
    case Filestore =>
      FilestoreKeeps(cfg, src, got, t, io);
      EnterKeeps(cfg, src, got, t.(file := t.file.(fate := RetentionFate(cfg, t, io))), Complete);
      hide Inv;
      hide RetentionFate;
      hide Enter;
    case Complete =>
  }

  lemma TimersKeep(cfg: Config, src: Bytes, got: set<Pdu>, t: Tx)
    requires Inv(cfg, src, got, t)
    ensures Inv(cfg, src, got, InactTimerTick(t)) && Inv(cfg, src, got, AckTimerTick(t))
  {
    hide SourceInv;
    hide RequestsInv;
    hide CrcInv;
  }

  lemma MaintenanceKeeps(cfg: Config, src: Bytes, got: set<Pdu>, t: Tx, io: TxIo)
    requires Inv(cfg, src, got, t)
    ensures Inv(cfg, src, got, Maintenance(cfg, t, io).t)
  {
    hide SourceInv;
    hide RequestsInv;
    hide Digest;
    hide Checksum;
  }

  lemma MaintenanceTrue(cfg: Config, src: Bytes, t: Tx, io: TxIo)
    requires t.fsize == |src| && (t.flags.sendEof ==> t.file.crc.result == Checksum(src))
    ensures SentTrue(src, Maintenance(cfg, t, io).sent)
  {
    hide ArmAck;
    hide Checksum;
  }

  lemma TickKeeps(cfg: Config, src: Bytes, got: set<Pdu>, t: Tx, io: TxIo)
    requires Inv(cfg, src, got, t)
    ensures Inv(cfg, src, got, Tick(cfg, t, io).t) && SentTrue(src, Tick(cfg, t, io).sent)
  {
    hide InactTimerTick;
    hide AckTimerTick;
    hide CheckState;
    hide Maintenance;
    var s := InactTimerTick(t);
    TimersKeep(cfg, src, got, t);
    TimersKeep(cfg, src, got, s);
    CheckStateKeeps(cfg, src, got, AckTimerTick(s), io);
    var u := if t.hold then s else CheckState(cfg, AckTimerTick(s), io);
    MaintenanceKeeps(cfg, src, got, u, io);
    MaintenanceTrue(cfg, src, u, io);
  }

  lemma SetupHolds(cfg: Config, src: Bytes, reliable: bool, keep: bool, cmdTx: bool, closeReq: bool)
    ensures Inv(cfg, src, {}, Setup(cfg, reliable, keep, cmdTx, closeReq, src))
  {
    assert src[..0] == [];
  }

  lemma CancelKeeps(cfg: Config, src: Bytes, got: set<Pdu>, t: Tx)
    requires Inv(cfg, src, got, t)
    ensures Inv(cfg, src, got, Cancel(t))
  {
    hide SourceInv;
    hide RequestsInv;
    hide CrcInv;
  }

  lemma MoreGot(cfg: Config, src: Bytes, got: set<Pdu>, more: set<Pdu>, t: Tx)
    requires Inv(cfg, src, got, t) && got <= more
    ensures Inv(cfg, src, more, t)
  {
    hide SourceInv;
    hide RequestsInv;
    hide CrcInv;
  }

  // ------------------------------------------------------------------ what never changes

  /** The class of the transaction and the order to keep the source. */
  predicate SameTerms(t: Tx, u: Tx) { u.reliable == t.reliable && u.keep == t.keep }

  lemma {:induction false} NakKeepsTerms(cfg: Config, t: Tx, segs: seq<Segment>)
    ensures SameTerms(t, RecvNak(cfg, t, segs))
    decreases |segs|
  {
    hide Add;
    if segs != [] {
      NakKeepsTerms(cfg, RecvSegment(cfg, t, segs[0]), segs[1..]);
    }
  }

  lemma RecvKeepsTerms(cfg: Config, t: Tx, class2: bool, p: Pdu)
    ensures SameTerms(t, Recv(cfg, t, class2, p))
  {
    hide RecvNak;
    if p.Nak? {
      NakKeepsTerms(cfg, t, p.segments);
    }
  }

  lemma SendKeepsTerms(cfg: Config, t: Tx, io: TxIo)
    ensures SameTerms(t, TickNak(cfg, t, io).t) && SameTerms(t, TickNewData(cfg, t, io).t)
  {
    hide SendFileData;
    hide FirstPass;
  }

  lemma CheckStateKeepsTerms(cfg: Config, t: Tx, io: TxIo)
    ensures SameTerms(t, CheckState(cfg, t, io))
  {
    hide Finalize;
    hide RetentionFate;
  }

  lemma TickKeepsTerms(cfg: Config, t: Tx, io: TxIo)
    ensures SameTerms(t, Tick(cfg, t, io).t)
  {
    hide CheckState;
    CheckStateKeepsTerms(cfg, AckTimerTick(InactTimerTick(t)), io);
  }
}
