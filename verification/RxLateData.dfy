/** File data written while the receiver checks the file: by what sum it then decides, for every
    place a write can end at. */
module RxLateData {
  import opened Bytes
  import opened Cfdp
  import opened ChunkSpec
  import opened GapSpec
  import opened RxSpec
  import opened RxHistory
  import opened RxProgress
  import opened RxValidate
  import opened CfCrc
  import opened Wrappers

  /** The sum the check ends with if nothing more is written. */
  function Final(b: Basis, temp: Bytes, size: nat): nat {
    if b.Settled? then b.sum else SoFar(b, temp, size, size).result
  }

  /** From now on the file is temp, and the check rests on b. */
  ghost predicate Rests(b: Basis, temp: Bytes, size: nat, eofCrc: nat, r: Rx) {
    && Rank(r.sub) >= 2
    && (r.Ok() && (r.sub.Validate? || r.sub.Filestore?) ==>
          r.file.store.temp == temp && r.file.size == size && r.reports.eofCrc == eofCrc)
    && (r.Ok() && r.sub.Validate? ==> Checks(b, r))
    && (r.Ok() && r.sub.Filestore? ==> Checks(Settled(Final(b, temp, size)), r))
    && (r.Ok() && b.Beyond? ==> r.sub.Validate?)
  }

  /** The reports of the first EOF stay, and where the check is over it ended at the end of the file. */
  lemma CheckStateRests(cfg: Config, r: Rx, io: RxIo)
    ensures var u := CheckState(cfg, r, io);
            && (r.sub.Validate? ==> u.reports == r.reports)
            && (r.sub.Validate? && !u.sub.Validate? && u.Ok() ==> r.file.cachedPos == r.file.size)
            && (r.sub.Filestore? ==> !u.sub.Filestore? && !u.sub.Validate?)
  {
    hide CrcLoop;
  }

  lemma TickRests(cfg: Config, r: Rx, io: RxIo)
    requires cfg.Valid()
    ensures var u := Tick(cfg, r, io).r;
            && (r.sub.Validate? && (u.sub.Validate? || u.sub.Filestore?) ==> u.reports == r.reports)
            && (r.sub.Validate? && !u.sub.Validate? && u.Ok() ==> r.file.cachedPos == r.file.size)
            && (r.sub.Filestore? && (u.sub.Filestore? || u.sub.Validate?) ==> u.sub == r.sub && u.reports == r.reports)
  {
    TimersBytes(r);
    CheckStateRests(cfg, AckTimerTick(InactTimerTick(r)), io);
    MaintenanceBytes(cfg, Advance(cfg, r, io), io);
    hide CheckState;
    hide Maintenance;
    hide InactTimerTick;
    hide AckTimerTick;
  }

  lemma ArriveRests(cfg: Config, r: Rx, e: Event)
    requires cfg.Valid() && e.Arrive? && !Wrote(cfg, r, e)
    ensures var u := After(cfg, r, e);
            && u.sub == r.sub && (u.Ok() ==> r.Ok())
            && (u.Ok() && (r.sub.Validate? || r.sub.Filestore?) && r.flags.eofCount != 0 ==>
                  u.file == r.file && u.reports == r.reports)
  {
    hide After;
    hide Wrote;
    if e.p.Fd? {
      RejectedFd(cfg, r, e);
    } else {
      ControlEffect(cfg, r, e);
    }
  }

  /** The basis the check is on by the end of a step. */
  function Kept(b: Basis, temp: Bytes, size: nat, r: Rx): Basis {
    if r.sub.Validate? then b else Settled(Final(b, temp, size))
  }

  lemma ArrivedRests(cfg: Config, b: Basis, temp: Bytes, size: nat, eofCrc: nat, r: Rx, e: Event)
    requires cfg.Valid() && Rests(b, temp, size, eofCrc, r) && Rank(r.sub) < 4
    requires e.Arrive? && !Wrote(cfg, r, e)
    requires r.Ok() ==> Checks(NextBasis(cfg, r, e, Kept(b, temp, size, r)), After(cfg, r, e))
    ensures Rests(b, temp, size, eofCrc, After(cfg, r, e))
  {
    ArriveRests(cfg, r, e);
    hide After;
    hide Wrote;
    hide Underway;
    hide Summed;
    hide SoFar;
  }

  lemma TickedRests(cfg: Config, b: Basis, temp: Bytes, size: nat, eofCrc: nat, r: Rx, e: Event)
    requires cfg.Valid() && Rests(b, temp, size, eofCrc, r) && Rank(r.sub) < 4 && e.Ticked?
    requires r.Ok() ==> Checks(NextBasis(cfg, r, e, Kept(b, temp, size, r)), After(cfg, r, e))
    ensures Rests(b, temp, size, eofCrc, After(cfg, r, e))
  {
    var u := Tick(cfg, r, e.io).r;
    TickRests(cfg, r, e.io);
    TickBytes(cfg, r, e.io);
    TickForwardRank(cfg, r, e.io);
    hide Tick;
    hide SoFar;
    if u.Ok() && r.sub.Validate? && !u.sub.Validate? {
      assert Standing(b, r.file) && r.file.cachedPos == size;
    }
    hide Checks;
  }

  lemma TickForwardRank(cfg: Config, r: Rx, io: RxIo)
    requires cfg.Valid()
    ensures var u := Tick(cfg, r, io).r; Rank(u.sub) >= Rank(r.sub) && (u.Ok() ==> r.Ok())
  {
    TimersBytes(r);
    CheckStateForward(cfg, AckTimerTick(InactTimerTick(r)), io);
    MaintenanceBytes(cfg, Advance(cfg, r, io), io);
    hide CheckState;
    hide Maintenance;
    hide InactTimerTick;
    hide AckTimerTick;
  }

  lemma StepRests(cfg: Config, b: Basis, temp: Bytes, size: nat, eofCrc: nat, s: Play, e: Event)
    requires cfg.Valid() && Inv(cfg, s) && Rests(b, temp, size, eofCrc, s.r)
    requires s.r.sub.Validate? || s.r.sub.Filestore? ==> !Wrote(cfg, s.r, e)
    ensures Rests(b, temp, size, eofCrc, After(cfg, s.r, e))
  {
    var r := s.r;
    if Rank(r.sub) >= 4 {
      LateRank(cfg, r, e);
      hide After;
      hide Checks;
    } else {
      if r.Ok() {
        assert Checks(Kept(b, temp, size, r), r);
        RxValidate.StepKeeps(cfg, Kept(b, temp, size, r), s, e);
      }
      hide Inv;
      hide Rests;
      hide After;
      hide Wrote;
      hide NextBasis;
      hide Checks;
      match e {
        case Arrive(_, _, _) => ArrivedRests(cfg, b, temp, size, eofCrc, r, e);
        case Ticked(io) => TickedRests(cfg, b, temp, size, eofCrc, r, e);
        case Cancelled => CancelledRests(cfg, b, temp, size, eofCrc, r);
      }
    }
  }

  lemma CancelledRests(cfg: Config, b: Basis, temp: Bytes, size: nat, eofCrc: nat, r: Rx)
    requires cfg.Valid() && Rests(b, temp, size, eofCrc, r)
    ensures Rests(b, temp, size, eofCrc, After(cfg, r, Cancelled))
  {
    hide Underway;
    hide Summed;
    hide SoFar;
  }

  lemma LateRank(cfg: Config, r: Rx, e: Event)
    requires cfg.Valid() && Rank(r.sub) >= 4
    ensures Rank(After(cfg, r, e).sub) >= 4 && (After(cfg, r, e).Ok() ==> r.Ok())
  {
    hide Recv;
    hide Tick;
    match e
    case Arrive(class2, p, io) => RecvForward(cfg, r, class2, p, io);
    case Ticked(io) => TickForwardRank(cfg, r, io);
    case Cancelled =>
  }

  lemma {:induction false} RunRests(cfg: Config, b: Basis, temp: Bytes, size: nat, eofCrc: nat, s: Play, es: seq<Event>)
    requires cfg.Valid() && Inv(cfg, s) && Rests(b, temp, size, eofCrc, s.r) && Undisturbed(cfg, s, es)
    ensures Inv(cfg, Run(cfg, s, es)) && Rests(b, temp, size, eofCrc, Run(cfg, s, es).r)
    decreases |es|
  {
    hide Inv;
    hide Rests;
    hide After;
    hide Wrote;
    if es != [] {
      StepRests(cfg, b, temp, size, eofCrc, s, es[0]);
      RxHistory.StepKeeps(cfg, s, es[0]);
      RunRests(cfg, b, temp, size, eofCrc, Step(cfg, s, es[0]), es[1..]);
    }
  }

  // ------------------------------------------------------------------ one late write

  /** The sum of what has been completed by the first p bytes: their whole words, or all of the file
      once the check has reached its end. */
  function SumSoFar(temp: Bytes, p: nat, size: nat): nat
    requires p <= size <= |temp|
  {
    if p < size then WordSum(temp[..p][..Whole(temp[..p])]) % TWO_32 else Checksum(temp[..size])
  }

  /** The sum the check ends with when it stood at p of temp and a write that ends at end has made
      the file after. */
  function LateSum(temp: Bytes, after: Bytes, p: nat, end: nat, size: nat): nat
    requires p <= size <= |temp| && size <= |after| && end <= size
  {
    if end == size then SumSoFar(temp, p, size)
    else if p < size then Checksum(temp[..p] + after[end..size])
    else (Checksum(temp[..size]) + Checksum(after[end..size])) % TWO_32
  }

  lemma FinalIsLateSum(f: RxFile, after: Bytes, end: nat)
    requires f.cachedPos <= f.size <= |f.store.temp| && f.size <= |after| && end <= f.size
    ensures Final(Moved(UNREAD, f, end), after, f.size) == LateSum(f.store.temp, after, f.cachedPos, end, f.size)
  {
    var t, p, size := f.store.temp, f.cachedPos, f.size;
    SumAtPosition(t, p, size);
    if end < size {
      SumGoesOn(t, after, p, end, size);
    }
    hide Digest;
    hide Finalize;
    hide Checksum;
    hide WordSum;
  }

  /** The sum at a position reached from the beginning. */
  lemma SumAtPosition(t: Bytes, p: nat, size: nat)
    requires p <= size <= |t|
    ensures SoFar(UNREAD, t, p, size).result == SumSoFar(t, p, size)
    ensures SoFar(UNREAD, t, p, size) == if p == size then Finalize(Digest(START, t[..p])) else Digest(START, t[..p])
  {
    hide Digest;
    hide Finalize;
    hide Checksum;
    assert t[0..p] == t[..p];
    if p < size {
      DigestMeaning(START, t[..p]);
    } else {
      FinalizeIsChecksum(START, t[..p]);
      ChecksumBelow(t[..p]);
    }
  }

  /** The sum when the check goes on from there at end of another file. */
  lemma SumGoesOn(t: Bytes, after: Bytes, p: nat, end: nat, size: nat)
    requires p <= size <= |t| && end < size <= |after|
    ensures Finalize(Digest(SoFar(UNREAD, t, p, size), after[end..size])).result == LateSum(t, after, p, end, size)
  {
    hide Digest;
    hide Finalize;
    hide Checksum;
    hide SoFar;
    SumAtPosition(t, p, size);
    var rest := after[end..size];
    if p < size {
      DigestConcat(START, t[..p], rest);
      FinalizeIsChecksum(START, t[..p] + rest);
      ChecksumBelow(t[..p] + rest);
    } else {
      FinalizeIsChecksum(START, t[..size]);
      FinalizeIsChecksum(Finalize(Digest(START, t[..size])), rest);
      ChecksumBelow(t[..size]);
    }
  }

  lemma ChecksumBelow(b: Bytes)
    ensures Checksum(b) % TWO_32 == Checksum(b)
  {}

  /** File data ending at end was written into the file of s.r while it was being checked. */
  ghost predicate LateWrite(cfg: Config, s: Play, e: Event) {
    && cfg.Valid() && Inv(cfg, s) && Checking(s.r) && s.r.sub.Validate? && Wrote(cfg, s.r, e)
  }

  function End(e: Event): nat
    requires e.Arrive? && e.p.Fd?
  {
    e.p.offset + |e.p.data|
  }

  lemma LateWriteFacts(cfg: Config, s: Play, e: Event)
    requires LateWrite(cfg, s, e)
    ensures var f, g := s.r.file, Step(cfg, s, e).r.file;
            && s.r.Ok() && f.open && f.store.pos == f.cachedPos <= f.size <= |f.store.temp|
            && g.store.temp == WriteAt(f.store.temp, e.p.offset, e.p.data) && |f.store.temp| <= |g.store.temp|
            && g.store.dst == f.store.dst && g.size == f.size && g.cachedPos == g.store.pos == End(e)
            && Step(cfg, s, e).r.reports == s.r.reports
    ensures Inv(cfg, Step(cfg, s, e))
    ensures var f := s.r.file;
            var r := Step(cfg, s, e).r;
            Rests(Moved(UNREAD, f, End(e)), r.file.store.temp, f.size, s.r.reports.eofCrc, r)
  {
    LateWriteEffect(cfg, s, e);
    hide Inv;
    hide After;
    hide Wrote;
    hide SoFar;
    hide Summed;
    RxValidate.StepKeeps(cfg, UNREAD, s, e);
    RxHistory.StepKeeps(cfg, s, e);
    hide Underway;
  }

  lemma LateWriteEffect(cfg: Config, s: Play, e: Event)
    requires LateWrite(cfg, s, e)
    ensures var f, u := s.r.file, After(cfg, s.r, e);
            && s.r.Ok() && u.Ok() && u.sub.Validate? && f.open && f.store.pos == f.cachedPos
            && u.file.store.temp == WriteAt(f.store.temp, e.p.offset, e.p.data)
            && |f.store.temp| <= |u.file.store.temp|
            && u.file.store.dst == f.store.dst && u.file.size == f.size && u.reports == s.r.reports
            && u.file.cachedPos == u.file.store.pos == End(e)
  {
    WrittenFd(cfg, s.r, e);
    hide After;
    hide WriteAt;
    hide SoFar;
  }

  lemma NotOkDiscards(cfg: Config, r: Rx, io: RxIo)
    requires r.sub.Filestore? && !r.Ok()
    ensures var u := CheckState(cfg, r, io); u.reports.finFs != RETAINED && u.file.store.dst == r.file.store.dst
  {}

  /** A write that ends inside the file or at its end: whatever follows but further writes, the file
      is retained exactly when the late sum is the announced one, and then as the write left it. */
  lemma LateWriteDecides(cfg: Config, s: Play, e: Event, es: seq<Event>, io: RxIo)
    requires LateWrite(cfg, s, e) && End(e) <= s.r.file.size && Undisturbed(cfg, Step(cfg, s, e), es)
    ensures var f, r := s.r.file, Run(cfg, Step(cfg, s, e), es).r;
            var after := WriteAt(f.store.temp, e.p.offset, e.p.data);
            var u := CheckState(cfg, r, io);
            && f.cachedPos <= f.size <= |f.store.temp| <= |after|
            && (r.sub.Filestore? ==>
                  && (u.reports.finFs == RETAINED <==>
                        r.Ok() && io.mvOk
                        && LateSum(f.store.temp, after, f.cachedPos, End(e), f.size) == s.r.reports.eofCrc)
                  && u.file.store.dst == if u.reports.finFs == RETAINED then Some(after) else r.file.store.dst)
  {
    LateWriteFacts(cfg, s, e);
    var f, s1 := s.r.file, Step(cfg, s, e);
    var after := s1.r.file.store.temp;
    var b := Moved(UNREAD, f, End(e));
    RunRests(cfg, b, after, f.size, s.r.reports.eofCrc, s1, es);
    FinalIsLateSum(f, after, End(e));
    hide Inv;
    hide LateWrite;
    hide LateSum;
    hide Final;
    hide Step;
    hide Run;
    hide Undisturbed;
    hide Checks;
    hide WriteAt;
    var r := Run(cfg, s1, es).r;
    if r.sub.Filestore? {
      if r.Ok() {
        RetentionDecision(cfg, Settled(Final(b, after, f.size)), r, io);
      } else {
        NotOkDiscards(cfg, r, io);
      }
    }
  }

  /** A write that ends beyond the file: the check never ends, unless by an error such as that of
      the inactivity timer, and then nothing is retained. */
  lemma LateWriteBeyond(cfg: Config, s: Play, e: Event, es: seq<Event>, io: RxIo)
    requires LateWrite(cfg, s, e) && End(e) > s.r.file.size && Undisturbed(cfg, Step(cfg, s, e), es)
    ensures var r := Run(cfg, Step(cfg, s, e), es).r;
            && (r.Ok() ==> r.sub.Validate?)
            && (r.sub.Filestore? ==> CheckState(cfg, r, io).reports.finFs != RETAINED)
  {
    LateWriteFacts(cfg, s, e);
    var f, s1 := s.r.file, Step(cfg, s, e);
    var b := Moved(UNREAD, f, End(e));
    RunRests(cfg, b, s1.r.file.store.temp, f.size, s.r.reports.eofCrc, s1, es);
    hide Inv;
    hide LateWrite;
    hide Step;
    hide Run;
    hide Undisturbed;
    hide Checks;
    hide CheckState;
    var r := Run(cfg, s1, es).r;
    if r.sub.Filestore? && !r.Ok() {
      NotOkDiscards(cfg, r, io);
    }
  }

  /** A write after the check is over: the old sum decides about the new file. */
  lemma WriteAfterTheCheck(cfg: Config, s: Play, e: Event, es: seq<Event>, io: RxIo)
    requires cfg.Valid() && Inv(cfg, s) && Checking(s.r) && s.r.sub.Filestore? && Wrote(cfg, s.r, e)
    requires Undisturbed(cfg, Step(cfg, s, e), es)
    ensures var f, r := s.r.file, Run(cfg, Step(cfg, s, e), es).r;
            var after := WriteAt(f.store.temp, e.p.offset, e.p.data);
            var u := CheckState(cfg, r, io);
            && f.size <= |f.store.temp|
            && (r.sub.Filestore? ==>
                  && (u.reports.finFs == RETAINED <==>
                        r.Ok() && io.mvOk && Checksum(f.store.temp[..f.size]) == s.r.reports.eofCrc)
                  && u.file.store.dst == if u.reports.finFs == RETAINED then Some(after) else r.file.store.dst)
  {
    var f, s1 := s.r.file, Step(cfg, s, e);
    AfterTheCheckFacts(cfg, s, e);
    var b := Untouched(s.r);
    RunRests(cfg, b, s1.r.file.store.temp, f.size, s.r.reports.eofCrc, s1, es);
    hide Inv;
    hide Step;
    hide Run;
    hide Undisturbed;
    hide Checks;
    hide Checksum;
    hide WriteAt;
    var r := Run(cfg, s1, es).r;
    if r.sub.Filestore? {
      if r.Ok() {
        RetentionDecision(cfg, b, r, io);
      } else {
        NotOkDiscards(cfg, r, io);
      }
    }
  }

  lemma AfterTheCheckFacts(cfg: Config, s: Play, e: Event)
    requires cfg.Valid() && Inv(cfg, s) && Checking(s.r) && s.r.sub.Filestore? && Wrote(cfg, s.r, e)
    ensures var f := s.r.file;
            && f.size <= |f.store.temp| && Untouched(s.r) == Settled(Checksum(f.store.temp[..f.size]))
            && Step(cfg, s, e).r.file.store.temp == WriteAt(f.store.temp, e.p.offset, e.p.data)
            && Inv(cfg, Step(cfg, s, e))
            && Rests(Untouched(s.r), Step(cfg, s, e).r.file.store.temp, f.size, s.r.reports.eofCrc, Step(cfg, s, e).r)
  {
    WrittenAfter(cfg, s, e);
    CheckedSum(s.r);
    hide Inv;
    hide After;
    hide Wrote;
    hide Checksum;
    hide Checks;
    hide SoFar;
    hide Untouched;
    RxValidate.StepKeeps(cfg, Untouched(s.r), s, e);
    RxHistory.StepKeeps(cfg, s, e);
  }

  lemma CheckedSum(r: Rx)
    requires Checking(r) && r.sub.Filestore? && r.Ok()
    ensures var f := r.file;
            f.size <= |f.store.temp| && Untouched(r) == Settled(Checksum(f.store.temp[..f.size]))
  {
    hide Checksum;
    hide Underway;
  }

  lemma WrittenAfter(cfg: Config, s: Play, e: Event)
    requires cfg.Valid() && Inv(cfg, s) && s.r.sub.Filestore? && Wrote(cfg, s.r, e)
    ensures var f, u := s.r.file, After(cfg, s.r, e);
            && s.r.Ok() && u.Ok() && u.sub.Filestore?
            && u.file.store.temp == WriteAt(f.store.temp, e.p.offset, e.p.data)
            && u.file.size == f.size && u.reports == s.r.reports
  {
    WrittenFd(cfg, s.r, e);
    hide After;
    hide WriteAt;
  }
}
