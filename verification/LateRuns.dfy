/** Two runs of a receiver in which file data written during the check makes the decision wrong: a
    duplicate makes it discard a good file, and bytes that were never checked are retained. */
module LateRuns {
  import opened Bytes
  import opened Cfdp
  import opened ChunkSpec
  import opened GapSpec
  import opened RxSpec
  import opened RxHistory
  import opened CfCrc
  import opened Wrappers
  import RxSafety

  const CFG := Config(3, 10, 100, 4, 100, 8, false, false)
  const FINE := RxIo(true, true, 100, 100, true)

  const SRC: Bytes := [1, 2]
  const BAD: Bytes := [9, 2]
  const SUM: nat := 0x0102_0000

  // ------------------------------------------------------------------ the sums

  lemma OneByte(b: Byte)
    ensures Digest(START, [b]) == State(b, 0, 1)
    ensures Finalize(State(b, 0, 1)) == State(0, b * 0x100_0000, 0)
  {
    var one: Bytes := [b];
    assert one[..0] == [];
    DigestLast(START, one);
    NoByte();
    hide Digest;
  }

  lemma NoByte()
    ensures Digest(START, []) == START
  {}

  lemma TwoBytes(a: Byte, b: Byte)
    ensures Digest(START, [a, b]) == State(a * 0x100 + b, 0, 2)
    ensures Finalize(State(a * 0x100 + b, 0, 2)) == State(0, (a * 0x100 + b) * 0x1_0000, 0)
  {
    var one: Bytes, two: Bytes := [a], [a, b];
    assert two[..1] == one;
    OneByte(a);
    DigestLast(START, two);
    hide Digest;
  }

  lemma Sums()
    ensures Checksum(SRC) == SUM && Checksum(BAD) == 0x0902_0000
  {
    hide Digest;
    hide Finalize;
    hide Checksum;
    TwoBytes(1, 2);
    TwoBytes(9, 2);
    assert START.result == 0 && SRC == [1, 2] && BAD == [9, 2];
    FinalizeIsChecksum(START, SRC);
    FinalizeIsChecksum(START, BAD);
    Below(SRC);
    Below(BAD);
  }

  lemma Below(b: Bytes)
    ensures Checksum(b) % TWO_32 == Checksum(b)
  {}

  // ------------------------------------------------------------------ the states

  function File(pos: nat, crc: CrcState, chunks: seq<Chunk>, temp: Bytes): RxFile {
    RxFile(true, pos, 2, crc, chunks, Store(temp, pos, None))
  }

  function Held(pos: nat): RxFile { File(pos, START, [Chunk(0, 2)], SRC) }

  function Filling(eofs: nat, file: RxFile): Rx {
    Rx(false, true, DataNormal, 0, RxFlags(true, true, eofs, 0, false, false, false),
       Common(false, false, false, false, false), 0,
       Reports(0, if eofs == 0 then 0 else SUM, if eofs == 0 then 0 else 2, DC_INVALID, FS_INVALID), 0, 100, file)
  }

  function Waiting(sendNak: bool, inactTimer: nat): Rx {
    Rx(false, true, DataEof, 0, RxFlags(true, true, 1, 1, false, sendNak, false),
       Common(false, false, false, false, false), 0, Reports(0, SUM, 2, DC_INVALID, FS_INVALID), 0, inactTimer, Held(2))
  }

  function Testing(sub: SubState, done: bool, inactTimer: nat, pos: nat, crc: CrcState, temp: Bytes): Rx {
    Rx(false, true, sub, 0, RxFlags(true, true, 1, 1, false, false, false),
       Common(false, false, true, done, false), 0, Reports(0, SUM, 2, DC_INVALID, FS_INVALID), 0, inactTimer,
       File(pos, crc, [Chunk(0, 2)], temp))
  }

  function Gets(p: Pdu): Event { Arrive(true, p, FINE) }

  // ------------------------------------------------------------------ up to the check

  lemma TakesMd()
    ensures After(CFG, Setup(CFG, true, 0, true, None), Gets(Md(2, false))) == Filling(0, File(0, START, [], []))
  {}

  /** File data that reaches the file. */
  function Put(f: RxFile, offset: nat, data: Bytes): RxFile {
    f.(cachedPos := offset + |data|, chunks := Add(f.chunks, 4, Chunk(offset, |data|)),
       store := f.store.(temp := WriteAt(f.store.temp, offset, data), pos := offset + |data|))
  }

  lemma TakesFd(r: Rx, offset: nat, data: Bytes)
    requires r.Ok() && r.reliable && !r.hold && !r.com.ackArmed && |data| <= 100
    requires r.file.open && r.file.store.pos == r.file.cachedPos
    ensures After(CFG, r, Gets(Fd(offset, data))) ==
            r.(inactTimer := 100, acknak := 0, file := Put(r.file, offset, data))
  {
    assert data[..|data|] == data;
    hide WriteAt;
    hide Add;
  }

  lemma TakesData()
    ensures After(CFG, Filling(0, File(0, START, [], [])), Gets(Fd(0, SRC))) == Filling(0, Held(2))
  {
    hide After;
    TakesFd(Filling(0, File(0, START, [], [])), 0, SRC);
    assert WriteAt([], 0, SRC) == SRC;
    assert Add([], 4, Chunk(0, 2)) == [Chunk(0, 2)];
    hide WriteAt;
    hide Add;
  }

  lemma TakesEof()
    ensures After(CFG, Filling(0, Held(2)), Gets(Eof(0, SUM, 2))) == Filling(1, Held(2))
  {}

  lemma LooksForGaps()
    ensures After(CFG, Filling(1, Held(2)), Ticked(FINE)) == Waiting(true, 99)
    ensures After(CFG, Waiting(true, 99), Ticked(FINE)) == Waiting(false, 98)
  {
    assert ComputeGaps([Chunk(0, 2)], 4, 2, 0) == [];
    hide ComputeGaps;
  }

  lemma BeginsCheck()
    ensures After(CFG, Waiting(false, 98), Ticked(FINE)) == Testing(Validate, false, 97, 0, START, SRC)
  {
    assert ComputeGaps([Chunk(0, 2)], 1, 2, 0) == [];
    hide ComputeGaps;
  }

  // ------------------------------------------------------------------ the duplicate

  lemma InTheList(size: nat)
    requires 0 < size <= 2
    ensures Add([Chunk(0, 2)], 4, Chunk(0, size)) == [Chunk(0, 2)]
  {
    var cs := [Chunk(0, 2)];
    InsertPosUnique(cs, 0, 0);
    MergeEndUnique(cs, 0, size, 1);
  }

  /** One byte written over the file while it is checked. */
  lemma TakesByte(sub: SubState, done: bool, inactTimer: nat, pos: nat, crc: CrcState, b: Byte)
    requires sub.Validate? || sub.Filestore?
    ensures After(CFG, Testing(sub, done, inactTimer, pos, crc, SRC), Gets(Fd(0, [b]))) ==
            Testing(sub, done, 100, 1, crc, [b, 2])
  {
    hide After;
    TakesFd(Testing(sub, done, inactTimer, pos, crc, SRC), 0, [b]);
    OneByteOver(b);
    InTheList(1);
    hide WriteAt;
    hide Add;
  }

  lemma OneByteOver(b: Byte)
    ensures WriteAt(SRC, 0, [b]) == [b, 2]
  {}

  lemma TakesDuplicate()
    ensures After(CFG, Testing(Validate, false, 97, 0, START, SRC), Gets(Fd(0, [1]))) ==
            Testing(Validate, false, 100, 1, START, SRC)
  {
    hide After;
    TakesByte(Validate, false, 97, 0, START, 1);
    hide Testing;
  }

  lemma ReadsTheRest()
    ensures After(CFG, Testing(Validate, false, 100, 1, START, SRC), Ticked(FINE)) ==
            Testing(Validate, true, 99, 2, State(0, 0x0200_0000, 0), SRC)
  {
    var f := File(1, START, [Chunk(0, 2)], SRC);
    OneByte(2);
    assert SRC[1..2] == [2];
    hide Digest;
    var g := CrcRead(f, 1);
    assert CrcLoop(CFG, f, 0, 100) == CrcLoop(CFG, g, 1, 99) == Outcome(g, true);
    hide CrcLoop;
    hide Finalize;
  }

  lemma Discards()
    ensures After(CFG, Testing(Validate, true, 99, 2, State(0, 0x0200_0000, 0), SRC), Ticked(FINE)) ==
            Testing(Filestore, true, 98, 2, State(0, 0x0200_0000, 0), SRC)
    ensures var u := After(CFG, Testing(Filestore, true, 98, 2, State(0, 0x0200_0000, 0), SRC), Ticked(FINE));
            && u.sub == FinAck && u.reports.finDc == COMPLETE && u.reports.finFs == DISCARDED
            && u.reports.eofCrc == SUM && u.file.store.dst == None
  {}

  // ------------------------------------------------------------------ the unchecked bytes

  lemma ReadsAll()
    ensures After(CFG, Testing(Validate, false, 97, 0, START, SRC), Ticked(FINE)) ==
            Testing(Validate, true, 96, 2, State(0, SUM, 0), SRC)
  {
    var f := File(0, START, [Chunk(0, 2)], SRC);
    TwoBytes(1, 2);
    assert SRC[0..2] == [1, 2];
    hide Digest;
    var g := CrcRead(f, 2);
    assert CrcLoop(CFG, f, 0, 100) == CrcLoop(CFG, g, 2, 99) == Outcome(g, true);
    hide CrcLoop;
    hide Finalize;
  }

  lemma Approves()
    ensures After(CFG, Testing(Validate, true, 96, 2, State(0, SUM, 0), SRC), Ticked(FINE)) ==
            Testing(Filestore, true, 95, 2, State(0, SUM, 0), SRC)
  {}

  lemma TakesOther()
    ensures After(CFG, Testing(Filestore, true, 95, 2, State(0, SUM, 0), SRC), Gets(Fd(0, [9]))) ==
            Testing(Filestore, true, 100, 1, State(0, SUM, 0), BAD)
  {
    hide After;
    TakesByte(Filestore, true, 95, 2, State(0, SUM, 0), 9);
    hide Testing;
  }

  lemma Keeps()
    ensures var u := After(CFG, Testing(Filestore, true, 100, 1, State(0, SUM, 0), BAD), Ticked(FINE));
            && u.sub == FinAck && u.reports.finDc == COMPLETE && u.reports.finFs == RETAINED
            && u.reports.eofCrc == SUM && u.file.store.dst == Some(BAD)
  {}

  // ------------------------------------------------------------------ the runs

  const FRESH := Start(CFG, true, 0, true)

  predicate AllHonest(es: seq<Event>) { forall e :: e in es && e.Arrive? ==> RxSafety.Honest(SRC, e.p) }

  /** One more event at the end of a run. */
  lemma {:induction false} RunOn(s: Play, es: seq<Event>, e: Event)
    ensures Run(CFG, s, es + [e]) == Step(CFG, Run(CFG, s, es), e)
    decreases |es|
  {
    hide Step;
    if es == [] {
      assert [] + [e] == [e] && [e][1..] == [];
      assert Run(CFG, s, [e]) == Run(CFG, Step(CFG, s, e), []);
    } else {
      assert (es + [e])[0] == es[0] && (es + [e])[1..] == es[1..] + [e];
      RunOn(Step(CFG, s, es[0]), es[1..], e);
    }
  }

  /** A run that leads from a fresh receiver to r. */
  ghost predicate Leads(es: seq<Event>, r: Rx) { Run(CFG, FRESH, es).r == r }

  lemma Then(es: seq<Event>, r: Rx, e: Event) returns (es': seq<Event>)
    requires Leads(es, r)
    ensures Leads(es', After(CFG, r, e))
    ensures AllHonest(es) && (e.Arrive? ==> RxSafety.Honest(SRC, e.p)) ==> AllHonest(es')
  {
    hide After;
    hide Wrote;
    RunOn(FRESH, es, e);
    es' := es + [e];
    hide RxSafety.Honest;
  }

  lemma HonestPdus()
    ensures RxSafety.Honest(SRC, Md(2, false)) && RxSafety.Honest(SRC, Fd(0, SRC)) && RxSafety.Honest(SRC, Fd(0, [1]))
    ensures RxSafety.Honest(SRC, Eof(0, SUM, 2))
  {
    Sums();
    assert SRC[0..2] == SRC && SRC[0..1] == [1];
    hide Checksum;
  }

  lemma RunToCheck() returns (es: seq<Event>)
    ensures Leads(es, Testing(Validate, false, 97, 0, START, SRC)) && AllHonest(es)
  {
    TakesMd();
    TakesData();
    TakesEof();
    LooksForGaps();
    BeginsCheck();
    HonestPdus();
    assert Leads([], Setup(CFG, true, 0, true, None));
    hide *;
    es := [];
    es := Then(es, Setup(CFG, true, 0, true, None), Gets(Md(2, false)));
    es := Then(es, Filling(0, File(0, START, [], [])), Gets(Fd(0, SRC)));
    es := Then(es, Filling(0, Held(2)), Gets(Eof(0, SUM, 2)));
    es := Then(es, Filling(1, Held(2)), Ticked(FINE));
    es := Then(es, Waiting(true, 99), Ticked(FINE));
    es := Then(es, Waiting(false, 98), Ticked(FINE));
  }

  /** Every PDU of the run is true of a file of two bytes, and the temporary file is that file when
      the receiver discards it for its checksum. */
  lemma GoodFileIsDiscarded() returns (es: seq<Event>)
    ensures AllHonest(es)
    ensures var r := Run(CFG, FRESH, es).r;
            && r.sub == Filestore && r.Ok() && r.file.store.temp == SRC && Checksum(SRC) == r.reports.eofCrc
            && var u := After(CFG, r, Ticked(FINE));
               u.reports.finDc == COMPLETE && u.reports.finFs == DISCARDED && u.file.store.dst == None
  {
    es := RunToCheck();
    TakesDuplicate();
    ReadsTheRest();
    Discards();
    Sums();
    HonestPdus();
    hide After;
    hide Checksum;
    hide Run;
    hide RxSafety.Honest;
    es := Then(es, Testing(Validate, false, 97, 0, START, SRC), Gets(Fd(0, [1])));
    es := Then(es, Testing(Validate, false, 100, 1, START, SRC), Ticked(FINE));
    es := Then(es, Testing(Validate, true, 99, 2, State(0, 0x0200_0000, 0), SRC), Ticked(FINE));
  }

  /** The bytes put in place do not have the announced checksum. */
  lemma BadFileIsRetained() returns (es: seq<Event>)
    ensures var u := Run(CFG, FRESH, es).r;
            && u.reports.finDc == COMPLETE && u.reports.finFs == RETAINED
            && u.file.store.dst == Some(BAD) && Checksum(BAD) != u.reports.eofCrc
  {
    es := RunToCheck();
    ReadsAll();
    Approves();
    TakesOther();
    Keeps();
    Sums();
    hide After;
    hide Checksum;
    hide Run;
    hide RxSafety.Honest;
    es := Then(es, Testing(Validate, false, 97, 0, START, SRC), Ticked(FINE));
    es := Then(es, Testing(Validate, true, 96, 2, State(0, SUM, 0), SRC), Ticked(FINE));
    es := Then(es, Testing(Filestore, true, 95, 2, State(0, SUM, 0), SRC), Gets(Fd(0, [9])));
    es := Then(es, Testing(Filestore, true, 100, 1, State(0, SUM, 0), BAD), Ticked(FINE));
  }
}
