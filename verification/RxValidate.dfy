/** The integrity check of the receiver.  The sum it decides by is that of the bytes the check read,
    each as it stood when it was read; file data may be written all the while, and moves the place
    the check goes on reading from.  Without such writes the file is retained exactly when the
    checksum of its bytes is the one the EOF gave. */
module RxValidate {
  import opened Bytes
  import opened Cfdp
  import opened ChunkSpec
  import opened GapSpec
  import opened RxSpec
  import opened RxHistory
  import opened CfCrc
  import opened Wrappers
  import RxSafety

  // ------------------------------------------------------------------ what the sum is made of

  /** What the sum rests on: the check resumed at from with the sum so far being c; or it stands at
      the end of the file, or beyond it, where a write has put it; or it is over. */
  datatype Basis = Resumed(c: CrcState, from: nat) | Halted(c: CrcState) | Beyond(c: CrcState) | Settled(sum: nat)

  /** The sum at a position; it is finalized when the check reads up to the end of the file. */
  function SoFar(b: Basis, temp: Bytes, pos: nat, size: nat): CrcState {
    match b
    case Resumed(c, from) =>
      if from <= pos <= |temp| then
        if pos == size then Finalize(Digest(c, temp[from..pos])) else Digest(c, temp[from..pos])
      else c
    case Halted(c) => c
    case Beyond(c) => c
    case Settled(_) => START
  }

  /** What a write during the check makes of it. */
  function Moved(b: Basis, f: RxFile, end: nat): Basis {
    var c := SoFar(b, f.store.temp, f.cachedPos, f.size);
    if end < f.size then Resumed(c, end) else if end == f.size then Halted(c) else Beyond(c)
  }

  /** What a change of the sub-state makes of it. */
  function Passed(b: Basis, r: Rx, sub: SubState): Basis {
    if sub == r.sub then b
    else if sub.Validate? then Resumed(START, 0)
    else if r.sub.Validate? then Settled(SoFar(b, r.file.store.temp, r.file.size, r.file.size).result)
    else b
  }

  function NextBasis(cfg: Config, r: Rx, e: Event, b: Basis): Basis
    requires cfg.Valid()
  {
    if Wrote(cfg, r, e) then
      if r.sub.Validate? then Moved(b, r.file, e.p.offset + |e.p.data|) else b
    else Passed(b, r, After(cfg, r, e).sub)
  }

  ghost predicate Standing(b: Basis, f: RxFile) {
    match b
    case Resumed(_, from) => from <= f.cachedPos <= f.size
    case Halted(_) => f.cachedPos == f.size
    case Beyond(_) => f.cachedPos > f.size
    case Settled(_) => false
  }

  ghost predicate Underway(b: Basis, f: RxFile) {
    && f.open && f.store.pos == f.cachedPos && f.size <= |f.store.temp|
    && Standing(b, f) && f.crc == SoFar(b, f.store.temp, f.cachedPos, f.size)
  }

  ghost predicate Summed(b: Basis, f: RxFile) {
    f.open && f.size <= |f.store.temp| && b.Settled? && f.crc.result == b.sum
  }

  ghost predicate Checks(b: Basis, r: Rx) {
    && (r.file.open ==> r.flags.tempCreated)
    && (r.Ok() && r.sub.Validate? ==> Underway(b, r.file) && r.com.isComplete)
    && (r.Ok() && r.sub.Filestore? ==> Summed(b, r.file) && r.com.isComplete)
    && (r.Ok() && (r.sub.Validate? || r.sub.Filestore?) ==> r.flags.eofCount != 0 && r.file.size == r.reports.eofSize)
  }

  // ------------------------------------------------------------------ the check itself

  lemma CrcReadKeeps(c: CrcState, from: nat, f: RxFile, n: nat)
    requires from <= f.store.pos == f.cachedPos && f.cachedPos + n <= |f.store.temp|
    requires f.crc == Digest(c, f.store.temp[from..f.cachedPos])
    ensures var g := CrcRead(f, n); g.crc == Digest(c, g.store.temp[from..g.cachedPos])
  {
    hide Digest;
    var t, p := f.store.temp, f.cachedPos;
    DigestConcat(c, t[from..p], t[p..p + n]);
    assert t[from..p] + t[p..p + n] == t[from..p + n];
  }

  lemma {:induction false} CrcLoopKeeps(cfg: Config, c: CrcState, from: nat, f: RxFile, count: nat, goodReads: nat)
    requires f.open && from <= f.store.pos == f.cachedPos <= f.size <= |f.store.temp|
    requires f.crc == Digest(c, f.store.temp[from..f.cachedPos])
    ensures var w := CrcLoop(cfg, f, count, goodReads);
            w.ok ==>
              var g := w.file;
              && g.open && g.store.temp == f.store.temp && g.size == f.size
              && f.cachedPos <= g.cachedPos == g.store.pos <= g.size
              && g.crc == Digest(c, g.store.temp[from..g.cachedPos])
    decreases f.size - f.cachedPos
  {
    hide Digest;
    if count < cfg.crcBytesPerWakeup && f.cachedPos < f.size {
      var n := Min(CRC_CHUNK, f.size - f.cachedPos);
      CrcReadKeeps(c, from, f, n);
      if f.open && goodReads > 0 {
        CrcLoopKeeps(cfg, c, from, CrcRead(f, n), count + n, goodReads - 1);
      }
    }
  }

  /** Where there is nothing left to read, nothing is read. */
  lemma CrcLoopStands(cfg: Config, f: RxFile, goodReads: nat)
    requires f.cachedPos >= f.size
    ensures CrcLoop(cfg, f, 0, goodReads) == Outcome(f, true)
  {}

  lemma ChunkKeeps(cfg: Config, b: Basis, r: Rx, io: RxIo)
    requires Checks(b, r) && r.sub.Validate? && r.Ok() && r.file.cachedPos != r.file.size
    ensures Checks(b, CalcCrcChunk(cfg, r, io))
  {
    hide Digest;
    hide Finalize;
    hide CrcLoop;
    var f := r.file;
    match b {
      case Resumed(c, from) => CrcLoopKeeps(cfg, c, from, f, 0, io.goodReads);
      case _ => CrcLoopStands(cfg, f, io.goodReads);
    }
  }

  lemma ValidateKeeps(cfg: Config, b: Basis, r: Rx, io: RxIo)
    requires Checks(b, r) && r.sub.Validate?
    ensures var c := CheckValidate(cfg, r, io); Checks(Passed(b, r, c.next), c.r.(sub := c.next))
  {
    if r.Ok() && r.file.cachedPos != r.file.size {
      ChunkKeeps(cfg, b, r, io);
      RxSafety.CalcCrcChunkEffect(cfg, r, io);
    }
    hide CalcCrcChunk;
    hide SoFar;
  }

  /** A complete chunk list means the file is at least as long as the metadata said. */
  lemma CompleteIsLongEnough(cfg: Config, s: Play)
    requires Inv(cfg, s) && s.r.Ok() && s.r.sub.DataEof? && CheckComplete(s.r)
    ensures s.r.file.open && s.r.file.size <= |s.r.file.store.temp|
  {
    hide ComputeGaps;
    hide Separated;
    hide Covers;
    hide Replay;
    hide LastByte;
    hide Written;
    var size := s.r.file.size;
    NoGapIffCovered(s.r.file.chunks, 1, size);
    if size > 0 {
      assert Covers(s.r.file.chunks, size - 1);
      WrittenIffLast(s.log, size - 1);
      ReplayLast(s.log, size - 1);
    }
  }

  lemma DataEofKeeps(cfg: Config, b: Basis, r: Rx, io: RxIo)
    requires Checks(b, r) && r.sub.DataEof?
    requires r.Ok() && CheckComplete(r) ==> r.file.open && r.file.size <= |r.file.store.temp|
    ensures var u := CheckState(cfg, r, io); Checks(Passed(b, r, u.sub), u)
  {
    hide Digest;
    hide CheckComplete;
    if r.Ok() && CheckComplete(r) {
      assert SoFar(Resumed(START, 0), r.file.store.temp, 0, r.file.size) == START by {
        DigestNothing(r.file.store.temp);
      }
      CompleteFlags(r);
    }
  }

  lemma DigestNothing(b: Bytes)
    ensures Digest(START, b[..0]) == START && Finalize(START) == START
  {}

  lemma CompleteFlags(r: Rx)
    requires CheckComplete(r)
    ensures r.flags.eofCount != 0
  {}

  lemma CheckStateKeeps(cfg: Config, b: Basis, r: Rx, io: RxIo)
    requires Checks(b, r)
    requires r.sub.DataEof? && r.Ok() && CheckComplete(r) ==> r.file.open && r.file.size <= |r.file.store.temp|
    ensures var u := CheckState(cfg, r, io); Checks(Passed(b, r, u.sub), u)
  {
    match r.sub
    case DataEof => DataEofKeeps(cfg, b, r, io);
    case Validate =>
      ValidateKeeps(cfg, b, r, io);
      RxSafety.SameSub(cfg, r, io);
      hide CheckValidate;
      hide Underway;
      hide Summed;
    case _ => OthersKeep(cfg, b, r, io);
  }

  lemma OthersKeep(cfg: Config, b: Basis, r: Rx, io: RxIo)
    requires Checks(b, r) && !r.sub.DataEof? && !r.sub.Validate?
    ensures var u := CheckState(cfg, r, io); Checks(Passed(b, r, u.sub), u)
  {
    hide Underway;
    hide Summed;
    hide HandleFileRetention;
    hide SoFar;
    RetentionCloses(r, io);
  }

  lemma RetentionCloses(r: Rx, io: RxIo)
    ensures !HandleFileRetention(r, io).file.open
  {}

  lemma TimersKeep(b: Basis, r: Rx)
    requires Checks(b, r)
    ensures Checks(b, InactTimerTick(r)) && Checks(b, AckTimerTick(r))
    ensures InactTimerTick(r).file == r.file && AckTimerTick(r).file == r.file
    ensures InactTimerTick(r).sub == r.sub && AckTimerTick(r).sub == r.sub
  {
    hide Underway;
    hide Summed;
  }

  lemma MaintenanceKeeps(cfg: Config, b: Basis, r: Rx, io: RxIo)
    requires cfg.Valid() && Checks(b, r)
    ensures Checks(b, Maintenance(cfg, r, io).r) && Maintenance(cfg, r, io).r.sub == r.sub
  {
    hide Underway;
    hide Summed;
    hide NakPdus;
    hide FinPdu;
  }

  lemma TickKeeps(cfg: Config, b: Basis, s: Play, io: RxIo)
    requires cfg.Valid() && Inv(cfg, s) && Checks(b, s.r)
    ensures var u := Tick(cfg, s.r, io).r; Checks(Passed(b, s.r, u.sub), u)
  {
    hide Inv;
    hide Checks;
    hide Maintenance;
    hide CheckState;
    hide InactTimerTick;
    hide AckTimerTick;
    hide Quiet;
    var s1 := InactTimerTick(s.r);
    var s2 := AckTimerTick(s1);
    TimersKeep(b, s.r);
    TimersKeep(b, s1);
    QuietTimers(s.r);
    QuietTimers(s1);
    QuietTransitive(s.r, s1, s2);
    QuietKeeps(cfg, s, s2);
    if s2.sub.DataEof? && s2.Ok() && CheckComplete(s2) {
      CompleteIsLongEnough(cfg, s.(r := s2));
    }
    hide CheckComplete;
    CheckStateKeeps(cfg, b, s2, io);
    var a := Advance(cfg, s.r, io);
    MaintenanceKeeps(cfg, if s.r.hold then b else Passed(b, s2, a.sub), a, io);
  }

  // ------------------------------------------------------------------ what arrives

  /** File data that is not written changes nothing a usable transaction relies on. */
  lemma RejectedFd(cfg: Config, r: Rx, e: Event)
    requires cfg.Valid() && e.Arrive? && e.p.Fd? && !Wrote(cfg, r, e)
    ensures var u := After(cfg, r, e);
            && u.sub == r.sub && u.flags == r.flags && u.com.isComplete == r.com.isComplete && u.reports == r.reports
            && u.file.open == r.file.open && (u.Ok() ==> r.Ok() && u.file == r.file)
  {
    hide Add;
    hide WriteAt;
  }

  lemma RejectedFdKeeps(cfg: Config, b: Basis, r: Rx, e: Event)
    requires cfg.Valid() && Checks(b, r) && e.Arrive? && e.p.Fd? && !Wrote(cfg, r, e)
    ensures Checks(b, After(cfg, r, e)) && After(cfg, r, e).sub == r.sub
  {
    hide After;
    hide Underway;
    hide Summed;
    RejectedFd(cfg, r, e);
  }

  /** File data that is written moves the position to its end and leaves the sum alone. */
  lemma WrittenFd(cfg: Config, r: Rx, e: Event)
    requires cfg.Valid() && Wrote(cfg, r, e) && r.file.store.pos == r.file.cachedPos
    ensures var u := After(cfg, r, e);
            && u.sub == r.sub && u.flags == r.flags && u.com.isComplete == r.com.isComplete && u.reports == r.reports
            && u.stat == r.stat && r.Ok() && r.file.open && u.file.open && u.file.size == r.file.size
            && u.file.crc == r.file.crc && u.file.store.dst == r.file.store.dst
            && u.file.store.temp == WriteAt(r.file.store.temp, e.p.offset, e.p.data)
            && u.file.store.pos == u.file.cachedPos == e.p.offset + |e.p.data|
            && |r.file.store.temp| <= |u.file.store.temp|
  {
    WriteAtFacts(r.file.store.temp, e.p.offset, e.p.data);
    assert e.p.data[..|e.p.data|] == e.p.data;
    hide Add;
    hide WriteAt;
  }

  lemma WrittenFdKeeps(cfg: Config, b: Basis, r: Rx, e: Event)
    requires cfg.Valid() && Checks(b, r) && Wrote(cfg, r, e) && r.file.store.pos == r.file.cachedPos
    ensures Checks(NextBasis(cfg, r, e, b), After(cfg, r, e))
  {
    WrittenFd(cfg, r, e);
    hide After;
    hide Wrote;
    hide Digest;
    hide Finalize;
    var end := e.p.offset + |e.p.data|;
    if r.sub.Validate? && end < r.file.size {
      MovedStands(b, r.file, After(cfg, r, e).file, end);
    }
    hide SoFar;
  }

  /** At the place it resumes from, the sum is what it was. */
  lemma MovedStands(b: Basis, f: RxFile, g: RxFile, end: nat)
    requires end < f.size == g.size <= |g.store.temp|
    ensures SoFar(Moved(b, f, end), g.store.temp, end, g.size) == SoFar(b, f.store.temp, f.cachedPos, f.size)
  {
    var c := SoFar(b, f.store.temp, f.cachedPos, f.size);
    DigestEmpty(c, g.store.temp, end);
  }

  lemma DigestEmpty(c: CrcState, temp: Bytes, at: nat)
    requires at <= |temp|
    ensures Digest(c, temp[at..at]) == c
  {}

  /** Directives leave the file side alone; only metadata may set the size, and only early on. */
  predicate Directed(r: Rx, u: Rx) {
    && u.sub == r.sub && (u.Ok() ==> r.Ok()) && u.com.isComplete == r.com.isComplete
    && u.flags.tempCreated == r.flags.tempCreated && u.file.open == r.file.open
    && (!Receiving(r.sub) ==> u.file == r.file)
    && (r.flags.eofCount != 0 ==> u.flags.eofCount != 0 && u.reports == r.reports)
  }

  lemma DirectiveEffect(cfg: Config, r: Rx, p: Pdu)
    ensures p.Eof? ==> Directed(r, RecvEof(cfg, r, p.cc, p.crc, p.size))
    ensures (p.Md? || p.Misnamed?) && Receiving(r.sub) ==> Directed(r, RecvMd(r, p.size, p.closeReq, p.Md?))
    ensures p.Ack? ==> Directed(r, RecvFinAck(r, p.directive))
  {}

  lemma ControlEffect(cfg: Config, r: Rx, e: Event)
    requires cfg.Valid() && e.Arrive? && !e.p.Fd?
    ensures Directed(r, After(cfg, r, e))
  {
    hide RecvFd;
    hide RecvEof;
    hide RecvMd;
    hide RecvFinAck;
    DirectiveEffect(cfg, r, e.p);
  }

  lemma ControlKeeps(cfg: Config, b: Basis, r: Rx, e: Event)
    requires cfg.Valid() && Checks(b, r) && e.Arrive? && !e.p.Fd?
    ensures Checks(b, After(cfg, r, e)) && After(cfg, r, e).sub == r.sub
  {
    hide After;
    hide Underway;
    hide Summed;
    ControlEffect(cfg, r, e);
  }

  /** Every event, writes included, leaves the sum resting on what NextBasis says. */
  lemma StepKeeps(cfg: Config, b: Basis, s: Play, e: Event)
    requires cfg.Valid() && Inv(cfg, s) && Checks(b, s.r)
    ensures Checks(NextBasis(cfg, s.r, e, b), After(cfg, s.r, e))
  {
    assert Wrote(cfg, s.r, e) ==> s.r.file.open;
    assert s.r.Ok() && s.r.file.open ==> s.r.file.store.pos == s.r.file.cachedPos;
    hide Inv;
    hide Recv;
    hide Tick;
    hide Wrote;
    hide Checks;
    match e {
      case Arrive(class2, p, io) =>
        if !p.Fd? {
          ControlKeeps(cfg, b, s.r, e);
          NotWritten(cfg, s.r, e);
        } else if Wrote(cfg, s.r, e) {
          WrittenOk(cfg, s.r, e);
          WrittenFdKeeps(cfg, b, s.r, e);
        } else {
          RejectedFdKeeps(cfg, b, s.r, e);
        }
      case Ticked(io) =>
        TickKeeps(cfg, b, s, io);
        NotWritten(cfg, s.r, e);
      case Cancelled =>
        CancelKeeps(b, s.r);
        NotWritten(cfg, s.r, e);
    }
  }

  lemma NotWritten(cfg: Config, r: Rx, e: Event)
    ensures !e.Arrive? || !e.p.Fd? ==> !Wrote(cfg, r, e)
  {}

  lemma WrittenOk(cfg: Config, r: Rx, e: Event)
    ensures Wrote(cfg, r, e) ==> r.Ok()
  {}

  lemma CancelKeeps(b: Basis, r: Rx)
    requires Checks(b, r)
    ensures Checks(b, Cancel(r)) && Cancel(r).sub == r.sub
  {
    hide Underway;
    hide Summed;
  }

  // ------------------------------------------------------------------ every run

  function BasisAfter(cfg: Config, s: Play, b: Basis, es: seq<Event>): Basis
    requires cfg.Valid()
    decreases |es|
  {
    if es == [] then b else BasisAfter(cfg, Step(cfg, s, es[0]), NextBasis(cfg, s.r, es[0], b), es[1..])
  }

  lemma {:induction false} RunKeeps(cfg: Config, b: Basis, s: Play, es: seq<Event>)
    requires cfg.Valid() && Inv(cfg, s) && Checks(b, s.r)
    ensures Inv(cfg, Run(cfg, s, es)) && Checks(BasisAfter(cfg, s, b, es), Run(cfg, s, es).r)
    decreases |es|
  {
    hide Inv;
    hide Checks;
    hide After;
    hide Wrote;
    hide NextBasis;
    if es != [] {
      StepKeeps(cfg, b, s, es[0]);
      RxHistory.StepKeeps(cfg, s, es[0]);
      RunKeeps(cfg, NextBasis(cfg, s.r, es[0], b), Step(cfg, s, es[0]), es[1..]);
    }
  }

  const UNREAD := Resumed(START, 0)

  lemma StartChecks(cfg: Config, reliable: bool, stat: int, openOk: bool)
    ensures Checks(UNREAD, Start(cfg, reliable, stat, openOk).r)
  {}

  lemma RetentionDecision(cfg: Config, b: Basis, r: Rx, io: RxIo)
    requires Checks(b, r) && r.sub.Filestore?
    ensures var u := CheckState(cfg, r, io);
            && (r.Ok() ==> b.Settled? && r.file.size == r.reports.eofSize && r.file.size <= |r.file.store.temp|)
            && (u.reports.finFs == RETAINED <==> r.Ok() && b == Settled(r.reports.eofCrc) && io.mvOk)
            && u.file.store.dst == if u.reports.finFs == RETAINED then Some(r.file.store.temp) else r.file.store.dst
  {
    hide Underway;
  }

  /** In every run: the file is retained exactly when the transaction is in order, the sum of the
      bytes the check read is the one the first EOF gave, and the move succeeds; then the whole
      temporary file, as it now stands, is what is in place. */
  lemma RetainedIffSum(cfg: Config, reliable: bool, stat: int, openOk: bool, es: seq<Event>, io: RxIo)
    requires cfg.Valid()
    ensures var r := Reached(cfg, reliable, stat, openOk, es).r;
            var b := BasisAfter(cfg, Start(cfg, reliable, stat, openOk), UNREAD, es);
            var u := CheckState(cfg, r, io);
            r.sub.Filestore? ==>
              && (r.Ok() ==> b.Settled? && r.file.size == r.reports.eofSize && r.file.size <= |r.file.store.temp|)
              && (u.reports.finFs == RETAINED <==> r.Ok() && b == Settled(r.reports.eofCrc) && io.mvOk)
              && u.file.store.dst == if u.reports.finFs == RETAINED then Some(r.file.store.temp) else r.file.store.dst
  {
    var s := Start(cfg, reliable, stat, openOk);
    StartHolds(cfg, reliable, stat, openOk);
    StartChecks(cfg, reliable, stat, openOk);
    RunKeeps(cfg, UNREAD, s, es);
    hide Start;
    hide Run;
    hide Inv;
    hide Checks;
    hide BasisAfter;
    if Run(cfg, s, es).r.sub.Filestore? {
      RetentionDecision(cfg, BasisAfter(cfg, s, UNREAD, es), Run(cfg, s, es).r, io);
    }
  }

  // ------------------------------------------------------------------ without late data

  /** No file data is written between the last gap check and the disposition of the file. */
  predicate NoLateData(cfg: Config, r: Rx, e: Event) {
    r.sub.Validate? || r.sub.Filestore? ==> !Wrote(cfg, r, e)
  }

  /** The sum rests on the file as it is. */
  function Untouched(r: Rx): Basis {
    if r.sub.Filestore? && r.file.size <= |r.file.store.temp|
    then Settled(Checksum(r.file.store.temp[..r.file.size])) else UNREAD
  }

  ghost predicate Checking(r: Rx) { Checks(Untouched(r), r) }

  /** A step that leaves the file alone. */
  predicate SameBytes(r: Rx, u: Rx) {
    u.Ok() && (u.sub.Validate? || u.sub.Filestore?) ==>
      && r.Ok() && u.file.store.temp == r.file.store.temp
      && (r.sub.Validate? || r.sub.Filestore? ==> u.file.size == r.file.size)
  }

  lemma StaysUntouched(r: Rx, u: Rx)
    requires Checking(r) && SameBytes(r, u) && Checks(Passed(Untouched(r), r, u.sub), u)
    ensures Checking(u)
  {
    hide Digest;
    hide Finalize;
    hide Checksum;
    if u.Ok() && u.sub.Filestore? && r.sub.Validate? {
      var t, n := r.file.store.temp, r.file.size;
      FinalizeIsChecksum(START, t[..n]);
      assert t[0..n] == t[..n];
    }
  }

  lemma CheckStateChecking(cfg: Config, r: Rx, io: RxIo)
    requires Checking(r)
    requires r.sub.DataEof? && r.Ok() && CheckComplete(r) ==> r.file.open && r.file.size <= |r.file.store.temp|
    ensures Checking(CheckState(cfg, r, io))
  {
    CheckStateKeeps(cfg, Untouched(r), r, io);
    CheckStateBytes(cfg, r, io);
    hide CheckState;
    hide Checking;
    hide Untouched;
    StaysUntouched(r, CheckState(cfg, r, io));
  }

  lemma CheckStateBytes(cfg: Config, r: Rx, io: RxIo)
    ensures SameBytes(r, CheckState(cfg, r, io))
    ensures CheckState(cfg, r, io).file.size == r.file.size
  {
    NextBytes(cfg, r, io);
    hide NextState;
    hide CalcCrcStart;
    var c := NextState(cfg, r, io);
    StartBytes(c.r.(sub := c.next, com := c.r.com.(ackArmed := false)), io);
  }

  /** Only the disposition of the file changes its bytes, and after that it is not checked again. */
  lemma NextBytes(cfg: Config, r: Rx, io: RxIo)
    ensures var c := NextState(cfg, r, io);
            && c.r.file.size == r.file.size && c.r.sub == r.sub && (c.r.Ok() ==> r.Ok())
            && (r.sub.Filestore? ==> c.next.FinAck? || c.next.Complete?)
            && (!r.sub.Filestore? ==> c.r.file.store.temp == r.file.store.temp)
  {
    RxSafety.CalcCrcChunkEffect(cfg, r, io);
    RxSafety.RetentionSteers(r, io);
    hide CalcCrcChunk;
    hide HandleFileRetention;
    hide CheckComplete;
  }

  lemma StartBytes(r: Rx, io: RxIo)
    ensures var u := CalcCrcStart(r, io);
            && u.file.store.temp == r.file.store.temp && u.file.size == r.file.size
            && u.sub == r.sub && (u.Ok() ==> r.Ok())
  {}

  lemma TickBytes(cfg: Config, r: Rx, io: RxIo)
    requires cfg.Valid()
    ensures SameBytes(r, Tick(cfg, r, io).r)
  {
    var s := AckTimerTick(InactTimerTick(r));
    TimersBytes(r);
    CheckStateBytes(cfg, s, io);
    MaintenanceBytes(cfg, Advance(cfg, r, io), io);
    hide Maintenance;
    hide CheckState;
    hide InactTimerTick;
    hide AckTimerTick;
  }

  /** What the timers leave alone, and what sending leaves alone. */
  predicate SameFile(r: Rx, u: Rx) {
    u.file == r.file && u.sub == r.sub && u.hold == r.hold && u.reports == r.reports && (u.Ok() ==> r.Ok())
  }

  lemma TimersBytes(r: Rx)
    ensures SameFile(r, InactTimerTick(r)) && SameFile(r, AckTimerTick(InactTimerTick(r)))
  {}

  lemma MaintenanceBytes(cfg: Config, r: Rx, io: RxIo)
    requires cfg.Valid()
    ensures SameFile(r, Maintenance(cfg, r, io).r)
  {
    hide NakPdus;
    hide FinPdu;
  }

  lemma RecvBytes(cfg: Config, r: Rx, e: Event)
    requires cfg.Valid() && e.Arrive? && !Wrote(cfg, r, e)
    ensures SameBytes(r, After(cfg, r, e))
  {
    hide After;
    hide Wrote;
    if e.p.Fd? {
      RejectedFd(cfg, r, e);
    } else {
      ControlEffect(cfg, r, e);
    }
  }

  lemma StepChecking(cfg: Config, s: Play, e: Event)
    requires cfg.Valid() && Inv(cfg, s) && Checking(s.r) && NoLateData(cfg, s.r, e)
    ensures Checking(After(cfg, s.r, e))
  {
    StepKeeps(cfg, Untouched(s.r), s, e);
    var u := After(cfg, s.r, e);
    if Wrote(cfg, s.r, e) {
      WrittenSub(cfg, s, e);
      hide After;
      hide Wrote;
      hide Underway;
      hide Summed;
    } else {
      match e {
        case Arrive(_, _, _) => RecvBytes(cfg, s.r, e);
        case Ticked(io) => TickBytes(cfg, s.r, io);
        case Cancelled =>
      }
      hide After;
      hide Wrote;
      hide Checking;
      hide Untouched;
      StaysUntouched(s.r, u);
    }
  }

  lemma WrittenSub(cfg: Config, s: Play, e: Event)
    requires cfg.Valid() && Inv(cfg, s) && Wrote(cfg, s.r, e)
    ensures After(cfg, s.r, e).sub == s.r.sub
  {
    assert s.r.Ok() && s.r.file.open ==> s.r.file.store.pos == s.r.file.cachedPos;
    assert s.r.file.open;
    hide Inv;
    WrittenFd(cfg, s.r, e);
  }

  /** No event of the run writes file data while the file is being checked. */
  predicate Undisturbed(cfg: Config, s: Play, es: seq<Event>)
    requires cfg.Valid()
    decreases |es|
  {
    es == [] || (NoLateData(cfg, s.r, es[0]) && Undisturbed(cfg, Step(cfg, s, es[0]), es[1..]))
  }

  lemma {:induction false} RunChecking(cfg: Config, s: Play, es: seq<Event>)
    requires cfg.Valid() && Inv(cfg, s) && Checking(s.r) && Undisturbed(cfg, s, es)
    ensures Inv(cfg, Run(cfg, s, es)) && Checking(Run(cfg, s, es).r)
    decreases |es|
  {
    hide Inv;
    hide Checking;
    hide After;
    hide Wrote;
    hide NoLateData;
    if es != [] {
      StepChecking(cfg, s, es[0]);
      RxHistory.StepKeeps(cfg, s, es[0]);
      RunChecking(cfg, Step(cfg, s, es[0]), es[1..]);
    }
  }

  /** In every run without late data that sum is the checksum of the file. */
  lemma RetainedIffChecksum(cfg: Config, reliable: bool, stat: int, openOk: bool, es: seq<Event>, io: RxIo)
    requires cfg.Valid() && Undisturbed(cfg, Start(cfg, reliable, stat, openOk), es)
    ensures var r := Reached(cfg, reliable, stat, openOk, es).r;
            var u := CheckState(cfg, r, io);
            r.sub.Filestore? ==>
              && (r.Ok() ==> r.file.size == r.reports.eofSize && r.file.size <= |r.file.store.temp|)
              && (u.reports.finFs == RETAINED <==>
                    r.Ok() && Checksum(r.file.store.temp[..r.file.size]) == r.reports.eofCrc && io.mvOk)
              && u.file.store.dst == if u.reports.finFs == RETAINED then Some(r.file.store.temp) else r.file.store.dst
  {
    var s := Start(cfg, reliable, stat, openOk);
    StartHolds(cfg, reliable, stat, openOk);
    StartChecks(cfg, reliable, stat, openOk);
    assert Checking(s.r);
    RunChecking(cfg, s, es);
    hide Start;
    hide Run;
    hide Inv;
    hide Checksum;
    hide Checks;
    var r := Run(cfg, s, es).r;
    if r.sub.Filestore? {
      RetentionDecision(cfg, Untouched(r), r, io);
    }
  }
}
