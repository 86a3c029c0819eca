/** The good case: once everything has arrived, a quiet channel and a file system that cooperates
    bring the receiver to its decision in a bounded number of ticks, and the decision is right. */
module RxDelivery {
  import opened Bytes
  import opened Cfdp
  import opened ChunkSpec
  import opened GapSpec
  import opened RxSpec
  import opened RxHistory
  import opened RxProgress
  import opened RxValidate
  import opened Wrappers
  import CfCrc
  import RxSafety

  /** The file system and the channel do what they are asked to. */
  predicate Good(io: RxIo, size: nat) {
    io.canSend && io.seekOk && io.mvOk && io.goodReads >= size
  }

  /** Metadata, EOF and all of the file are here, and the two sizes agree. */
  predicate AllHere(r: Rx) {
    && !r.hold && r.Ok() && !RxSafety.Done(r.sub) && !r.com.inactFired
    && r.flags.eofCount != 0 && r.flags.mdRecv && r.file.size == r.reports.eofSize
    && ComputeGaps(r.file.chunks, 1, r.file.size, 0) == []
  }

  /** The same, with the file and the sum as they must then be. */
  ghost predicate Arrived(r: Rx) {
    AllHere(r) && r.file.open && r.file.size <= |r.file.store.temp| && Checking(r)
  }

  /** Ticks still needed. */
  function Due(r: Rx): nat {
    match r.sub
    case DataNormal => r.file.size + 6
    case DataEof => r.file.size + 3 + (if r.flags.sendNak then 1 else 0)
                    + (if r.reliable && r.flags.eofAckCount != r.flags.eofCount then 1 else 0)
    case Validate => (if r.file.cachedPos < r.file.size then r.file.size - r.file.cachedPos else 0) + 2
    case Filestore => 1
    case _ => 0
  }

  /** The same file, the same announced checksum. */
  predicate SameFile(r: Rx, u: Rx) {
    && u.file.store.temp == r.file.store.temp && u.file.size == r.file.size && u.file.chunks == r.file.chunks
    && u.reports.eofCrc == r.reports.eofCrc && u.reports.eofSize == r.reports.eofSize
  }

  /** The right decision about the file of r. */
  ghost predicate Decided(r: Rx, u: Rx)
    requires r.file.size <= |r.file.store.temp|
  {
    if CfCrc.Checksum(r.file.store.temp[..r.file.size]) == r.reports.eofCrc
    then u.file.store.dst == Some(r.file.store.temp) && u.reports.finDc == COMPLETE && u.reports.finFs == RETAINED
    else u.file.store.dst == r.file.store.dst && u.reports.finDc == COMPLETE && u.reports.finFs == DISCARDED
  }

  /** Reading never fails, so each wakeup digests at least one byte. */
  lemma {:induction false} CrcLoopAdvances(cfg: Config, f: RxFile, count: nat, goodReads: nat)
    requires f.open && f.store.pos == f.cachedPos <= f.size <= |f.store.temp| && goodReads >= f.size - f.cachedPos
    ensures var w := CrcLoop(cfg, f, count, goodReads);
            w.ok && w.file.cachedPos >= f.cachedPos &&
            (count < cfg.crcBytesPerWakeup && f.cachedPos < f.size ==> w.file.cachedPos > f.cachedPos)
    decreases f.size - f.cachedPos
  {
    hide CfCrc.Digest;
    if count < cfg.crcBytesPerWakeup && f.cachedPos < f.size {
      var n := Min(CRC_CHUNK, f.size - f.cachedPos);
      CrcLoopAdvances(cfg, CrcRead(f, n), count + n, goodReads - 1);
    }
  }

  lemma ValidateAdvances(cfg: Config, r: Rx, io: RxIo)
    requires cfg.crcBytesPerWakeup > 0 && Good(io, r.file.size)
    requires Arrived(r) && r.sub.Validate?
    ensures var u := CheckState(cfg, r, io);
            && u.Ok() && SameFile(r, u) && u.file.open && Due(u) < Due(r) && (u.sub.Validate? || u.sub.Filestore?)
            && u.file.store.dst == r.file.store.dst
  {
    hide CrcLoop;
    hide CfCrc.Digest;
    hide CfCrc.Finalize;
    hide CfCrc.Checksum;
    hide ComputeGaps;
    CrcLoopAdvances(cfg, r.file, 0, io.goodReads);
    RxSafety.CrcLoopEffect(cfg, r.file, 0, io.goodReads);
  }

  /** Before the decision a check keeps everything that has arrived. */
  lemma CheckStateArrived(cfg: Config, r: Rx, io: RxIo)
    requires cfg.crcBytesPerWakeup > 0 && Good(io, r.file.size) && Arrived(r) && !r.sub.Filestore?
    ensures var u := CheckState(cfg, r, io);
            && Arrived(u) && SameFile(r, u) && u.file.store.dst == r.file.store.dst
            && (Due(u) < Due(r) || (u == r && r.sub.DataEof? && r.flags.sendNak))
  {
    CheckStateChecking(cfg, r, io);
    CheckStateForward(cfg, r, io);
    CheckStateFlags(cfg, r, io);
    hide ComputeGaps;
    hide Underway;
    hide Summed;
    if r.sub.Validate? {
      ValidateAdvances(cfg, r, io);
      hide CheckState;
    } else {
      hide Checking;
    }
  }

  /** The flags and reports that say what has arrived. */
  predicate SameNews(r: Rx, u: Rx) {
    u.flags.eofCount == r.flags.eofCount && u.flags.mdRecv == r.flags.mdRecv && u.reports == r.reports
  }

  lemma NextStateFlags(cfg: Config, r: Rx, io: RxIo)
    requires !r.sub.Filestore?
    ensures SameNews(r, NextState(cfg, r, io).r)
  {
    hide CrcLoop;
    hide CheckComplete;
  }

  lemma CheckStateFlags(cfg: Config, r: Rx, io: RxIo)
    requires !r.sub.Filestore?
    ensures SameNews(r, CheckState(cfg, r, io))
  {
    hide NextState;
    NextStateFlags(cfg, r, io);
  }

  lemma FilestoreDecides(cfg: Config, r: Rx, io: RxIo)
    requires Arrived(r) && r.sub.Filestore? && io.mvOk
    ensures var u := CheckState(cfg, r, io); RxSafety.Done(u.sub) && Decided(r, u)
  {
    hide CfCrc.Checksum;
    hide ComputeGaps;
    hide Underway;
  }

  lemma TimersArrived(r: Rx)
    requires Arrived(r) && r.inactTimer > 0
    ensures var s := AckTimerTick(InactTimerTick(r));
            && Arrived(s) && SameFile(r, s) && s.file == r.file && s.sub == r.sub && s.flags == r.flags
            && Due(s) == Due(r)
            && s.inactTimer == r.inactTimer - 1
  {
    hide ComputeGaps;
    hide Underway;
    hide Summed;
  }

  lemma MaintenanceArrived(cfg: Config, r: Rx, io: RxIo)
    requires cfg.Valid()
    ensures var u := Maintenance(cfg, r, io).r;
            && u.file == r.file && u.reports == r.reports && u.sub == r.sub && u.inactTimer == r.inactTimer
            && (Arrived(r) ==> Arrived(u) && Due(u) <= Due(r)
                               && (io.canSend && r.sub.DataEof? && r.flags.sendNak ==> Due(u) < Due(r)))
  {
    hide ComputeGaps;
    hide NakPdus;
    hide FinPdu;
    hide Underway;
    hide Summed;
  }

  /** One tick decides, or comes closer to the decision. */
  lemma TickDelivers(cfg: Config, r: Rx, io: RxIo)
    requires cfg.Valid() && cfg.crcBytesPerWakeup > 0 && Good(io, r.file.size)
    requires Arrived(r) && r.inactTimer > 0
    ensures var u := Tick(cfg, r, io).r;
            if r.sub.Filestore? then RxSafety.Done(u.sub) && Decided(r, u)
            else && Arrived(u) && SameFile(r, u) && u.file.store.dst == r.file.store.dst
                 && Due(u) < Due(r) && u.inactTimer == r.inactTimer - 1
  {
    hide Arrived;
    hide CheckState;
    hide Maintenance;
    hide InactTimerTick;
    hide AckTimerTick;
    hide Due;
    TimersArrived(r);
    var s := AckTimerTick(InactTimerTick(r));
    ArrivedHold(r);
    ArrivedHold(s);
    var u := CheckState(cfg, s, io);
    MaintenanceArrived(cfg, u, io);
    if r.sub.Filestore? {
      FilestoreDecides(cfg, s, io);
    } else {
      CheckStateArrived(cfg, s, io);
      CheckStateInact(cfg, s, io);
      ArrivedHold(u);
    }
  }

  lemma ArrivedHold(r: Rx)
    requires Arrived(r)
    ensures !r.hold && !RxSafety.Done(r.sub) && r.file.size <= |r.file.store.temp|
  {}

  /** A decision stands. */
  predicate Standing(r: Rx, u: Rx) {
    RxSafety.Done(u.sub) && u.reports == r.reports && u.file.store.dst == r.file.store.dst
  }

  lemma CheckStateKeepsDecision(cfg: Config, r: Rx, io: RxIo)
    requires RxSafety.Done(r.sub)
    ensures Standing(r, CheckState(cfg, r, io))
  {}

  lemma TickKeepsDecision(cfg: Config, r: Rx, io: RxIo)
    requires cfg.Valid() && RxSafety.Done(r.sub)
    ensures Standing(r, Tick(cfg, r, io).r)
  {
    hide CheckState;
    hide Maintenance;
    var s := AckTimerTick(InactTimerTick(r));
    CheckStateKeepsDecision(cfg, s, io);
    hide Arrived;
    MaintenanceArrived(cfg, Advance(cfg, r, io), io);
  }

  predicate GoodTicks(es: seq<Event>, size: nat) {
    forall e :: e in es ==> e.Ticked? && Good(e.io, size)
  }

  lemma {:induction false} DecisionStands(cfg: Config, s: Play, es: seq<Event>)
    requires cfg.Valid() && RxSafety.Done(s.r.sub) && Ticks(es)
    ensures Standing(s.r, Run(cfg, s, es).r)
    decreases |es|
  {
    hide Tick;
    hide Wrote;
    if es != [] {
      TickKeepsDecision(cfg, s.r, es[0].io);
      DecisionStands(cfg, Step(cfg, s, es[0]), es[1..]);
    }
  }

  /** Once everything has arrived, file size plus six quiet ticks, with as much left on the
      inactivity timer, put the file in place and report it COMPLETE and RETAINED if its checksum
      is the announced one, and discard it otherwise. */
  lemma {:induction false} Delivers(cfg: Config, s: Play, es: seq<Event>)
    requires cfg.Valid() && cfg.crcBytesPerWakeup > 0 && Arrived(s.r) && GoodTicks(es, s.r.file.size)
    requires |es| >= Due(s.r) && s.r.inactTimer >= Due(s.r)
    ensures var u := Run(cfg, s, es).r;
            s.r.file.size <= |s.r.file.store.temp| && RxSafety.Done(u.sub) && Decided(s.r, u)
    decreases |es|
  {
    hide Arrived;
    hide Tick;
    hide Wrote;
    ArrivedHold(s.r);
    DuePositive(s.r);
    var io := es[0].io;
    TickDelivers(cfg, s.r, io);
    var s' := Step(cfg, s, es[0]);
    if s.r.sub.Filestore? {
      DecisionStands(cfg, s', es[1..]);
    } else {
      Delivers(cfg, s', es[1..]);
    }
  }

  lemma DuePositive(r: Rx)
    requires Arrived(r)
    ensures Due(r) > 0
  {}

  lemma NoGapIsLongEnough(cfg: Config, s: Play)
    requires Inv(cfg, s) && AllHere(s.r)
    ensures s.r.file.open && s.r.file.size <= |s.r.file.store.temp|
  {
    hide ComputeGaps;
    hide Separated;
    hide Covers;
    hide Replay;
    hide LastByte;
    hide Written;
    var size := s.r.file.size;
    NoGapIffCovered(s.r.file.chunks, 1, size);
    if size > 0 {
      assert Covers(s.r.file.chunks, size - 1);
      WrittenIffLast(s.log, size - 1);
      ReplayLast(s.log, size - 1);
    }
  }

  /** After any run of a new receive transaction in which no file data was written during the check:
      if everything is here, such ticks bring the right decision. */
  lemma ReachedDelivers(cfg: Config, reliable: bool, stat: int, openOk: bool, es: seq<Event>, ts: seq<Event>)
    requires cfg.Valid() && cfg.crcBytesPerWakeup > 0
    requires Undisturbed(cfg, Start(cfg, reliable, stat, openOk), es)
    requires var r := Reached(cfg, reliable, stat, openOk, es).r;
             && AllHere(r) && GoodTicks(ts, r.file.size) && |ts| >= Due(r) && r.inactTimer >= Due(r)
    ensures var s := Reached(cfg, reliable, stat, openOk, es);
            var u := Run(cfg, s, ts).r;
            s.r.file.size <= |s.r.file.store.temp| && RxSafety.Done(u.sub) && Decided(s.r, u)
  {
    var s0 := Start(cfg, reliable, stat, openOk);
    StartHolds(cfg, reliable, stat, openOk);
    StartChecks(cfg, reliable, stat, openOk);
    assert Checking(s0.r);
    RunChecking(cfg, s0, es);
    var s := Run(cfg, s0, es);
    NoGapIsLongEnough(cfg, s);
    hide Start;
    hide Inv;
    hide Run;
    hide Undisturbed;
    hide Checking;
    hide ComputeGaps;
    hide Due;
    hide Decided;
    Delivers(cfg, s, ts);
  }
}
