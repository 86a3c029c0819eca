/** What a receiver keeps while every PDU it is handed comes from a sender of the file src:
    the offsets of its chunk list hold the bytes of src, a file it calls complete is src, and a
    file it reports as retained is in place and equals src. */
module RxSafety {
  import opened Bytes
  import opened Cfdp
  import opened ChunkSpec
  import opened GapSpec
  import opened RxSpec
  import opened Wrappers
  import CfCrc

  /** What a sender of src may have put on the channel. */
  predicate Honest(src: Bytes, p: Pdu) {
    match p
    case Md(size, _) => size == |src|
    case Fd(offset, data) => offset + |data| <= |src| && data == src[offset..offset + |data|]
    case Eof(_, crc, size) => crc == CfCrc.Checksum(src) && size == |src|
    case _ => true
  }

  /** Every offset of the chunk list holds the byte of src. */
  ghost predicate Faithful(src: Bytes, chunks: seq<Chunk>, temp: Bytes) {
    && |temp| <= |src|
    && forall x :: Covers(chunks, x) ==> 0 <= x < |temp| && temp[x] == src[x]
  }

  /** The chunk list is well formed and what it says about the temporary file is true. */
  ghost predicate Holds(max: nat, src: Bytes, chunks: seq<Chunk>, temp: Bytes) {
    Separated(chunks) && |chunks| <= max && Faithful(src, chunks, temp)
  }

  predicate Done(sub: SubState) { sub.FinAck? || sub.Complete? }

  ghost predicate Inv(cfg: Config, src: Bytes, r: Rx) {
    && (r.Ok() && !Done(r.sub) ==> r.file.open)
    && (r.Ok() && r.file.open ==>
          r.file.store.pos == r.file.cachedPos && Holds(cfg.maxChunks, src, r.file.chunks, r.file.store.temp))
    && (r.flags.mdRecv ==> r.file.size == |src|)
    && (r.com.isComplete && r.Ok() && r.file.open ==> r.file.store.temp == src)
    && Reported(src, r)
  }

  ghost predicate Reported(src: Bytes, r: Rx) {
    && r.reports.finFs <= FS_INVALID
    && (r.reports.finFs == RETAINED ==> r.file.store.dst == Some(src))
  }

  /** A slice of src written at its place leaves the bytes of src where they were, and puts its own. */
  lemma WriteFaithful(src: Bytes, temp: Bytes, offset: nat, data: Bytes, x: nat)
    requires Honest(src, Fd(offset, data)) && |temp| <= |src|
    ensures var w := WriteAt(temp, offset, data);
            && |w| <= |src|
            && (offset <= x < offset + |data| ==> x < |w| && w[x] == src[x])
            && (x < |temp| && temp[x] == src[x] ==> x < |w| && w[x] == src[x])
  {
    WriteAtFacts(temp, offset, data);
    hide WriteAt;
    if offset <= x < offset + |data| {
      assert src[x] == data[x - offset];
    }
  }

  /** A true slice written over the source leaves the source. */
  lemma WriteOverSource(src: Bytes, offset: nat, data: Bytes)
    requires Honest(src, Fd(offset, data))
    ensures WriteAt(src, offset, data) == src
  {
    WriteAtFacts(src, offset, data);
    hide WriteAt;
    var w := WriteAt(src, offset, data);
    assert |w| == |src|;
    forall x | 0 <= x < |src|
      ensures w[x] == src[x]
    {
      WriteFaithful(src, src, offset, data, x);
    }
  }

  lemma AddFaithful(max: nat, src: Bytes, chunks: seq<Chunk>, temp: Bytes, offset: nat, data: Bytes)
    requires max > 0 && Holds(max, src, chunks, temp)
    requires Honest(src, Fd(offset, data))
    ensures Holds(max, src, Add(chunks, max, Chunk(offset, |data|)), WriteAt(temp, offset, data))
  {
    hide Add;
    hide WriteAt;
    hide Covers;
    hide Separated;
    var c := Chunk(offset, |data|);
    AddRefines(chunks, max, c);
    WriteFaithful(src, temp, offset, data, 0);
    forall x | Covers(Add(chunks, max, c), x)
      ensures 0 <= x < |WriteAt(temp, offset, data)| && WriteAt(temp, offset, data)[x] == src[x]
    {
      assert c.Has(x) || Covers(chunks, x);
      WriteFaithful(src, temp, offset, data, x);
    }
  }

  /** What a write leaves of the file side. */
  lemma WriteFdEffect(max: nat, f: RxFile, offset: nat, data: Bytes, writable: nat)
    ensures var w := WriteFd(max, f, offset, data, writable);
            && w.file.open == f.open && w.file.size == f.size && w.file.store.dst == f.store.dst
            && (w.ok ==> f.open && w.file.cachedPos == offset + |data| && w.file.store.pos == f.store.pos + |data|
                         && w.file.store.temp == WriteAt(f.store.temp, f.store.pos, data)
                         && w.file.chunks == Add(f.chunks, max, Chunk(offset, |data|)))
  {
    assert data[..|data|] == data;
    hide Add;
    hide WriteAt;
  }

  lemma RecvFdEffect(cfg: Config, r: Rx, offset: nat, data: Bytes, io: RxIo)
    requires r.Ok() && (r.file.open ==> r.file.store.pos == r.file.cachedPos)
    ensures var s := RecvFd(cfg, r, offset, data, io);
            && s.sub == r.sub && s.flags == r.flags && s.com == r.com && s.reports == r.reports
            && s.file.open == r.file.open && s.file.size == r.file.size && s.file.store.dst == r.file.store.dst
            && (s.Ok() ==> r.file.open && s.file.store.pos == s.file.cachedPos
                           && s.file.store.temp == WriteAt(r.file.store.temp, offset, data)
                           && s.file.chunks == Add(r.file.chunks, cfg.maxChunks, Chunk(offset, |data|)))
  {
    hide Add;
    hide WriteAt;
    var s := SeekTo(r.file, offset, io.seekOk);
    WriteFdEffect(cfg.maxChunks, s.file, offset, data, io.writable);
    hide WriteFd;
  }

  lemma RecvFdKeeps(cfg: Config, src: Bytes, r: Rx, offset: nat, data: Bytes, io: RxIo)
    requires cfg.Valid() && Inv(cfg, src, r) && r.Ok() && Honest(src, Fd(offset, data))
    ensures Inv(cfg, src, RecvFd(cfg, r, offset, data, io))
  {
    WriteOverSource(src, offset, data);
    if r.file.open {
      AddFaithful(cfg.maxChunks, src, r.file.chunks, r.file.store.temp, offset, data);
    }
    RecvFdEffect(cfg, r, offset, data, io);
    hide RecvFd;
    hide Holds;
    hide Honest;
    hide Add;
    hide WriteAt;
  }

  lemma RecvEofKeeps(cfg: Config, src: Bytes, r: Rx, cc: nat, crc: nat, size: nat)
    requires Inv(cfg, src, r)
    ensures Inv(cfg, src, RecvEof(cfg, r, cc, crc, size))
  {
    hide Holds;
  }

  lemma RecvMdKeeps(cfg: Config, src: Bytes, r: Rx, size: nat, closeReq: bool, named: bool)
    requires Inv(cfg, src, r) && (named ==> size == |src|)
    ensures Inv(cfg, src, RecvMd(r, size, closeReq, named))
  {
    hide Holds;
  }

  lemma RecvFinAckKeeps(cfg: Config, src: Bytes, r: Rx, directive: nat)
    requires Inv(cfg, src, r)
    ensures Inv(cfg, src, RecvFinAck(r, directive))
  {
    hide Holds;
  }

  lemma DispatchKeeps(cfg: Config, src: Bytes, r: Rx, p: Pdu, io: RxIo)
    requires cfg.Valid() && Inv(cfg, src, r) && Honest(src, p)
    ensures Inv(cfg, src, R2Dispatch(cfg, r, p, io)) && Inv(cfg, src, R1Recv(cfg, r, p, io))
  {
    hide Inv;
    hide RecvFd;
    hide RecvEof;
    hide RecvMd;
    hide RecvFinAck;
    match p {
      case Fd(offset, data) =>
        if r.Ok() {
          RecvFdKeeps(cfg, src, r, offset, data, io);
        }
      case Eof(cc, crc, size) => RecvEofKeeps(cfg, src, r, cc, crc, size);
      case Md(size, closeReq) => RecvMdKeeps(cfg, src, r, size, closeReq, true);
      case Misnamed(size, closeReq) => RecvMdKeeps(cfg, src, r, size, closeReq, false);
      case Ack(directive) => RecvFinAckKeeps(cfg, src, r, directive);
      case _ =>
    }
  }

  lemma ArmKeeps(cfg: Config, src: Bytes, r: Rx)
    requires Inv(cfg, src, r)
    ensures Inv(cfg, src, ArmAck(cfg, r)) && Inv(cfg, src, ArmInact(cfg, r))
  {
    hide Holds;
  }

  lemma R2RecvKeeps(cfg: Config, src: Bytes, r: Rx, p: Pdu, io: RxIo)
    requires cfg.Valid() && Inv(cfg, src, r) && Honest(src, p)
    ensures Inv(cfg, src, R2Recv(cfg, r, p, io))
  {
    hide Inv;
    hide R2Dispatch;
    hide ArmAck;
    DispatchKeeps(cfg, src, r, p, io);
    ArmKeeps(cfg, src, R2Dispatch(cfg, r, p, io));
  }

  /** Whatever arrives from a sender of src, in either class and in any order. */
  lemma RecvKeeps(cfg: Config, src: Bytes, r: Rx, class2: bool, p: Pdu, io: RxIo)
    requires cfg.Valid() && Inv(cfg, src, r) && Honest(src, p)
    ensures Inv(cfg, src, Recv(cfg, r, class2, p, io))
  {
    hide Inv;
    hide R1Recv;
    hide R2Recv;
    hide RecvEof;
    hide ArmInact;
    ArmKeeps(cfg, src, r);
    if r.hold {
      if p.Eof? {
        RecvEofKeeps(cfg, src, r, p.cc, p.crc, p.size);
        ArmKeeps(cfg, src, RecvEof(cfg, r, p.cc, p.crc, p.size));
      }
    } else {
      DispatchKeeps(cfg, src, r, p, io);
      R2RecvKeeps(cfg, src, r, p, io);
      ArmKeeps(cfg, src, if r.reliable then R2Recv(cfg, r, p, io) else R1Recv(cfg, r, p, io));
    }
  }

  lemma RecvStore(cfg: Config, r: Rx, class2: bool, p: Pdu, io: RxIo)
    ensures Recv(cfg, r, class2, p, io).file.store.dst == r.file.store.dst
  {
    hide Add;
    hide WriteAt;
  }

  /** A complete chunk list means that the whole file has arrived. */
  lemma CompleteIsSource(cfg: Config, src: Bytes, r: Rx)
    requires Inv(cfg, src, r) && r.Ok() && r.file.open && CheckComplete(r)
    ensures r.file.store.temp == src
  {
    hide ComputeGaps;
    hide Covers;
    hide Separated;
    NoGapIffCovered(r.file.chunks, 1, |src|);
    assert src != [] ==> Covers(r.file.chunks, |src| - 1);
    assert forall x :: 0 <= x < |src| ==> Covers(r.file.chunks, x);
  }

  lemma CalcCrcStartKeeps(cfg: Config, src: Bytes, r: Rx, io: RxIo)
    requires Inv(cfg, src, r)
    ensures Inv(cfg, src, CalcCrcStart(r, io))
  {
    hide Holds;
  }

  /** Reading for the checksum moves the position and nothing else. */
  lemma {:induction false} CrcLoopEffect(cfg: Config, f: RxFile, count: nat, goodReads: nat)
    ensures var w := CrcLoop(cfg, f, count, goodReads).file;
            && w.open == f.open && w.size == f.size && w.chunks == f.chunks
            && w.store.temp == f.store.temp && w.store.dst == f.store.dst
            && (f.store.pos == f.cachedPos ==> w.store.pos == w.cachedPos)
    decreases f.size - f.cachedPos
  {
    if count < cfg.crcBytesPerWakeup && f.cachedPos < f.size {
      var n := Min(CRC_CHUNK, f.size - f.cachedPos);
      if f.open && goodReads > 0 && f.store.pos + n <= |f.store.temp| {
        CrcLoopEffect(cfg, CrcRead(f, n), count + n, goodReads - 1);
      }
    }
  }

  lemma CalcCrcChunkEffect(cfg: Config, r: Rx, io: RxIo)
    ensures var u := CalcCrcChunk(cfg, r, io);
            && u.sub == r.sub && u.flags == r.flags && u.reports == r.reports && u.com.isComplete == r.com.isComplete
            && (u.Ok() ==> r.Ok()) && u.file.open == r.file.open && u.file.size == r.file.size
            && u.file.chunks == r.file.chunks
            && u.file.store.temp == r.file.store.temp && u.file.store.dst == r.file.store.dst
            && (r.file.store.pos == r.file.cachedPos ==> u.file.store.pos == u.file.cachedPos)
  {
    hide CrcLoop;
    CrcLoopEffect(cfg, r.file, 0, io.goodReads);
  }

  /** What the checksum and the disposition of the file leave alone. */
  predicate Steered(r: Rx, u: Rx) {
    && u.sub == r.sub && u.hold == r.hold && u.reliable == r.reliable && u.flags == r.flags
    && u.inactTimer == r.inactTimer && u.com.inactFired == r.com.inactFired && u.com.isComplete == r.com.isComplete
    && u.file.size == r.file.size && (u.Ok() ==> r.Ok())
  }

  lemma CalcCrcChunkSteers(cfg: Config, r: Rx, io: RxIo)
    ensures Steered(r, CalcCrcChunk(cfg, r, io))
  {
    hide CrcLoop;
    CrcLoopEffect(cfg, r.file, 0, io.goodReads);
  }

  lemma RetentionSteers(r: Rx, io: RxIo)
    ensures Steered(r, HandleFileRetention(r, io))
  {}

  lemma CalcCrcChunkKeeps(cfg: Config, src: Bytes, r: Rx, io: RxIo)
    requires Inv(cfg, src, r)
    ensures Inv(cfg, src, CalcCrcChunk(cfg, r, io)) && CalcCrcChunk(cfg, r, io).sub == r.sub
  {
    hide Holds;
    hide CalcCrcChunk;
    CalcCrcChunkEffect(cfg, r, io);
  }

  /** The file is only ever retained when it is the source. */
  lemma RetentionKeeps(cfg: Config, src: Bytes, r: Rx, io: RxIo)
    requires Inv(cfg, src, r) && r.sub.Filestore?
    ensures Inv(cfg, src, HandleFileRetention(r, io).(sub := FinAck))
    ensures Inv(cfg, src, HandleFileRetention(r, io).(sub := Complete))
    ensures HandleFileRetention(r, io).file.store.dst in {r.file.store.dst, Some(src)}
  {
    hide Holds;
  }

  lemma CheckDataEofKeeps(cfg: Config, src: Bytes, r: Rx)
    requires Inv(cfg, src, r) && !Done(r.sub)
    ensures Inv(cfg, src, CheckDataEof(cfg, r).r)
  {
    hide Holds;
    if r.Ok() && CheckComplete(r) {
      CompleteIsSource(cfg, src, r);
    }
  }

  lemma EnterKeeps(cfg: Config, src: Bytes, r: Rx, next: SubState, io: RxIo)
    requires Inv(cfg, src, r.(sub := next))
    ensures Inv(cfg, src, Enter(cfg, r, next, io))
    ensures Enter(cfg, r, next, io).file.store.dst == r.file.store.dst
  {
    CalcCrcStartKeeps(cfg, src, r.(sub := next, com := r.com.(ackArmed := false)), io);
    hide Holds;
  }

  lemma NextStateKeeps(cfg: Config, src: Bytes, r: Rx, io: RxIo)
    requires Inv(cfg, src, r)
    ensures var c := NextState(cfg, r, io);
            && Inv(cfg, src, c.r.(sub := c.next))
            && c.r.file.store.dst in {r.file.store.dst, Some(src)}
  {
    match r.sub {
      case DataEof => CheckDataEofKeeps(cfg, src, r);
      case Validate => CalcCrcChunkKeeps(cfg, src, r, io); ValidateStore(cfg, r, io);
      case Filestore => RetentionKeeps(cfg, src, r, io);
      case _ =>
    }
    hide Holds;
    hide CheckComplete;
    hide CalcCrcChunk;
    hide HandleFileRetention;
  }

  lemma ValidateStore(cfg: Config, r: Rx, io: RxIo)
    ensures CalcCrcChunk(cfg, r, io).file.store.dst == r.file.store.dst
  {
    hide CalcCrcChunk;
    CalcCrcChunkEffect(cfg, r, io);
  }

  lemma CheckStateKeeps(cfg: Config, src: Bytes, r: Rx, io: RxIo)
    requires Inv(cfg, src, r)
    ensures Inv(cfg, src, CheckState(cfg, r, io))
    ensures CheckState(cfg, r, io).file.store.dst in {r.file.store.dst, Some(src)}
  {
    var c := NextState(cfg, r, io);
    NextStateKeeps(cfg, src, r, io);
    EnterKeeps(cfg, src, c.r, c.next, io);
    hide NextState;
    hide Enter;
    assert c.next == r.sub ==> c.r.(sub := c.next) == c.r by { SameSub(cfg, r, io); }
    hide Inv;
  }

  lemma SameSub(cfg: Config, r: Rx, io: RxIo)
    ensures NextState(cfg, r, io).r.sub == r.sub
  {
    CalcCrcChunkSteers(cfg, r, io);
    RetentionSteers(r, io);
    hide CalcCrcChunk;
    hide HandleFileRetention;
    hide CheckComplete;
  }

  lemma TimersKeep(cfg: Config, src: Bytes, r: Rx)
    requires Inv(cfg, src, r)
    ensures Inv(cfg, src, InactTimerTick(r)) && InactTimerTick(r).file == r.file
    ensures Inv(cfg, src, AckTimerTick(r)) && AckTimerTick(r).file == r.file
  {
    hide Holds;
  }

  lemma AdvanceKeeps(cfg: Config, src: Bytes, r: Rx, io: RxIo)
    requires Inv(cfg, src, r)
    ensures Inv(cfg, src, Advance(cfg, r, io))
    ensures Advance(cfg, r, io).file.store.dst in {r.file.store.dst, Some(src)}
  {
    var s := InactTimerTick(r);
    TimersKeep(cfg, src, r);
    TimersKeep(cfg, src, s);
    CheckStateKeeps(cfg, src, AckTimerTick(s), io);
    hide Inv;
    hide InactTimerTick;
    hide AckTimerTick;
    hide CheckState;
  }

  lemma MaintenanceEffect(cfg: Config, r: Rx, io: RxIo)
    requires cfg.Valid()
    ensures var u := Maintenance(cfg, r, io).r;
            && u.file == r.file && u.sub == r.sub && u.stat == r.stat && u.reports == r.reports
            && u.flags.mdRecv == r.flags.mdRecv && u.com.isComplete == r.com.isComplete
  {
    hide NakPdus;
    hide FinPdu;
  }

  lemma MaintenanceKeeps(cfg: Config, src: Bytes, r: Rx, io: RxIo)
    requires cfg.Valid() && Inv(cfg, src, r)
    ensures Inv(cfg, src, Maintenance(cfg, r, io).r) && Maintenance(cfg, r, io).r.file == r.file
  {
    hide Holds;
    hide Maintenance;
    MaintenanceEffect(cfg, r, io);
  }

  /** A FIN that reports a retained file is only sent once the source is in place. */
  lemma FinIsTrue(cfg: Config, src: Bytes, r: Rx, io: RxIo, p: Pdu)
    requires cfg.Valid() && Reported(src, r)
    requires p in Maintenance(cfg, r, io).sent && p.Fin? && p.fs == RETAINED
    ensures r.file.store.dst == Some(src)
  {
    NakPdusAreNaks(cfg, r);
    hide NakPdus;
    hide ArmAck;
  }

  lemma NakPdusAreNaks(cfg: Config, r: Rx)
    requires cfg.Valid()
    ensures forall p :: p in NakPdus(cfg, r) ==> p.Nak?
  {}

  lemma TickKeeps(cfg: Config, src: Bytes, r: Rx, io: RxIo)
    requires cfg.Valid() && Inv(cfg, src, r)
    ensures var x := Tick(cfg, r, io);
            && Inv(cfg, src, x.r)
            && x.r.file.store.dst in {r.file.store.dst, Some(src)}
            && forall p :: p in x.sent && p.Fin? && p.fs == RETAINED ==> x.r.file.store.dst == Some(src)
  {
    AdvanceKeeps(cfg, src, r, io);
    var s := Advance(cfg, r, io);
    MaintenanceKeeps(cfg, src, s, io);
    forall p | p in Maintenance(cfg, s, io).sent && p.Fin? && p.fs == RETAINED
      ensures s.file.store.dst == Some(src)
    {
      FinIsTrue(cfg, src, s, io, p);
    }
    hide Inv;
    hide Advance;
    hide Maintenance;
  }

  lemma SetupHolds(cfg: Config, src: Bytes, reliable: bool, stat: int, openOk: bool, dst: Option<Bytes>)
    ensures Inv(cfg, src, Setup(cfg, reliable, stat, openOk, dst))
    ensures Setup(cfg, reliable, stat, openOk, dst).file.store.dst == dst
  {}

  lemma CancelKeeps(cfg: Config, src: Bytes, r: Rx)
    requires Inv(cfg, src, r)
    ensures Inv(cfg, src, Cancel(r)) && Cancel(r).file == r.file
  {
    hide Holds;
  }
}
