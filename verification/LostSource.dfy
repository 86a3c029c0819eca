/** A run of the two parties in which the source is lost: the only misplaced retransmission of the
    run sends the second word of the file under the offset of the first, and the sum of the words
    does not notice. */
module LostSource {
  import opened Bytes
  import opened Cfdp
  import opened ChunkSpec
  import opened GapSpec
  import opened Protocol
  import opened Wrappers
  import CfCrc
  import R = RxSpec
  import T = TxSpec

  const CFG := Config(3, 10, 100, 4, 100, 8, false, false)
  const SRC: Bytes := [0, 0, 0, 1, 0, 0, 0, 2, 0, 0, 0, 1]
  const FIRST: Bytes := [0, 0, 0, 1, 0, 0, 0, 2]
  const LAST: Bytes := [0, 0, 0, 1]
  const WRONG: Bytes := [0, 0, 0, 2, 0, 0, 0, 1]
  const LOST: Bytes := [0, 0, 0, 2, 0, 0, 0, 1, 0, 0, 0, 1]

  const GOOD := T.TxIo(true, true, 100, 100, true)
  const SHORT := T.TxIo(true, true, 4, 100, true)
  const FINE := R.RxIo(true, true, 100, 100, true)

  // ------------------------------------------------------------------ the sums

  lemma ZeroByte(s: CfCrc.State)
    requires s.Valid() && s.index < 3 && s.working < 0x100_0000
    ensures CfCrc.DigestByte(s, 0) == CfCrc.State(s.working * 0x100, s.result, s.index + 1)
  {}

  lemma FinalByte(s: CfCrc.State, w: nat, v: Byte)
    requires s.index == 3 && w < 0x100 && s.working == w * 0x100_0000 && s.result < 0x100
    ensures CfCrc.DigestByte(s, v) == CfCrc.State(v, s.result + v, 0)
  {}

  lemma DigestWord(s: CfCrc.State, v: Byte)
    requires s.index == 0 && s.working < 0x100 && s.result < 0x100
    ensures CfCrc.Digest(s, [0, 0, 0, v]) == CfCrc.State(v, s.result + v, 0)
  {
    var b1: Bytes, b2: Bytes, b3: Bytes, b4: Bytes := [0], [0, 0], [0, 0, 0], [0, 0, 0, v];
    assert b1[..0] == [] && b2[..1] == b1 && b3[..2] == b2 && b4[..3] == b3;
    hide CfCrc.Digest;
    hide CfCrc.DigestByte;
    DigestOfNothing(s);
    CfCrc.DigestLast(s, b1);
    CfCrc.DigestLast(s, b2);
    CfCrc.DigestLast(s, b3);
    CfCrc.DigestLast(s, b4);
    ZeroByte(s);
    ZeroByte(CfCrc.Digest(s, b1));
    ZeroByte(CfCrc.Digest(s, b2));
    FinalByte(CfCrc.Digest(s, b3), s.working, v);
  }

  lemma DigestOfNothing(s: CfCrc.State)
    requires s.Valid()
    ensures CfCrc.Digest(s, []) == s
  {}

  lemma Sums()
    ensures CfCrc.Digest(CfCrc.START, FIRST) == CfCrc.State(2, 3, 0)
    ensures CfCrc.Digest(CfCrc.State(2, 3, 0), LAST) == CfCrc.State(1, 4, 0)
    ensures CfCrc.Digest(CfCrc.START, LOST) == CfCrc.State(1, 4, 0)
  {
    hide CfCrc.Digest;
    var one: Bytes, two: Bytes := [0, 0, 0, 1], [0, 0, 0, 2];
    DigestWord(CfCrc.START, 1);
    DigestWord(CfCrc.State(1, 1, 0), 2);
    DigestWord(CfCrc.State(2, 3, 0), 1);
    CfCrc.DigestConcat(CfCrc.START, one, two);
    assert one + two == FIRST;
    DigestWord(CfCrc.START, 2);
    DigestWord(CfCrc.State(2, 2, 0), 1);
    DigestWord(CfCrc.State(1, 3, 0), 1);
    CfCrc.DigestConcat(CfCrc.START, two, one);
    CfCrc.DigestConcat(CfCrc.START, two + one, one);
    assert two + one + one == LOST;
  }

  // ------------------------------------------------------------------ the sender

  function File(open: bool, fate: T.Fate, pos: nat, cachedPos: nat, foffs: nat, crc: CfCrc.CrcState): T.TxFile {
    T.TxFile(SRC, open, fate, pos, cachedPos, foffs, crc)
  }

  /** In the first pass. */
  function Passing(md: bool, foffs: nat, crc: CfCrc.CrcState): T.Tx {
    T.Tx(false, true, false, T.DataNormal, 0, T.TxFlags(false, false, false, 0, 0, md, false),
         T.Common(false, false, false, false, false), 0, T.Report(0, 0, 0), 0, 100, 12, [],
         File(true, T.InPlace, foffs, foffs, foffs, crc))
  }

  /** After the EOF. */
  function Ended(asked: bool, chunks: seq<Chunk>, pos: nat, cachedPos: nat): T.Tx {
    T.Tx(false, true, false, T.DataEof, 0, T.TxFlags(false, asked, false, 0, 0, false, false),
         T.Common(false, true, false, true, false), 0, T.Report(0, 0, 0), 10, 100, 12, chunks,
         File(true, T.InPlace, pos, cachedPos, 12, CfCrc.State(1, 4, 0)))
  }

  /** After the acknowledgement of the EOF. */
  function Closing(sub: T.SubState, armed: bool, fins: nat, finAcks: nat, ackTimer: nat, inactTimer: nat): T.Tx {
    T.Tx(false, true, false, sub, 0, T.TxFlags(false, true, true, fins, finAcks, false, false),
         T.Common(false, armed, !armed, true, false), 0, T.Report(0, 0, if fins == 0 then 0 else RETAINED),
         ackTimer, inactTimer, 12, [], File(true, T.InPlace, 12, 8, 12, CfCrc.State(1, 4, 0)))
  }

  lemma SendsMd()
    ensures T.Setup(CFG, true, false, false, false, SRC) == Passing(true, 0, CfCrc.START)
    ensures T.Tick(CFG, Passing(true, 0, CfCrc.START), GOOD) ==
            T.Sending(Passing(false, 0, CfCrc.START), [Md(12, false)])
  {}

  lemma SendsFirst()
    ensures T.TickNewData(CFG, Passing(false, 0, CfCrc.START), GOOD) ==
            T.Sending(Passing(false, 8, CfCrc.State(2, 3, 0)), [Fd(0, FIRST)])
  {
    hide CfCrc.Digest;
    Sums();
    assert SRC[0..8] == FIRST;
  }

  lemma SendsLast()
    ensures T.TickNewData(CFG, Passing(false, 8, CfCrc.State(2, 3, 0)), GOOD) ==
            T.Sending(Passing(false, 12, CfCrc.State(1, 4, 0)), [Fd(8, LAST)])
  {
    hide CfCrc.Digest;
    Sums();
    assert SRC[8..12] == LAST;
  }

  lemma SendsEof()
    ensures T.Tick(CFG, Passing(false, 12, CfCrc.State(1, 4, 0)), GOOD) ==
            T.Sending(Ended(false, [], 12, 12), [Eof(0, 4, 12)])
  {}

  lemma TakesNak()
    ensures T.Recv(CFG, Ended(false, [], 12, 12), true, Nak([Segment(0, 8)])) == Ended(true, [Chunk(0, 8)], 12, 12)
  {
    var t := Ended(false, [], 12, 12);
    var u := T.RecvSegment(CFG, t, Segment(0, 8));
    assert u.chunks == [Chunk(0, 8)];
    assert T.RecvNak(CFG, t, [Segment(0, 8)]) == T.RecvNak(CFG, u, []) == u;
  }

  /** The read that delivers four bytes of eight. */
  lemma ReadsShort()
    ensures T.TickNak(CFG, Ended(true, [Chunk(0, 8)], 12, 12), SHORT) ==
            T.Sending(Ended(true, [Chunk(0, 8)], 4, 0), [])
  {}

  /** The retry sends the eight bytes after those. */
  lemma SendsWrong()
    ensures T.TickNak(CFG, Ended(true, [Chunk(0, 8)], 4, 0), GOOD) ==
            T.Sending(Ended(true, [], 12, 8), [Fd(0, WRONG)])
  {
    assert SRC[4..12] == WRONG;
    assert RemoveFromFirst([Chunk(0, 8)], 8) == [];
  }

  lemma TakesAckAndFin()
    ensures T.Recv(CFG, Ended(true, [], 12, 8), true, Ack(DIR_EOF)) == Closing(T.DataEof, true, 0, 0, 10, 100)
    ensures T.Recv(CFG, Closing(T.DataEof, true, 0, 0, 10, 100), true, Fin(0, COMPLETE, RETAINED)) ==
            Closing(T.DataEof, true, 1, 0, 10, 100)
  {}

  lemma SendsFinAck()
    ensures T.Tick(CFG, Closing(T.DataEof, true, 1, 0, 10, 100), GOOD) ==
            T.Sending(Closing(T.DataEof, true, 1, 1, 9, 99), [Ack(DIR_FIN)])
  {}

  lemma Closes()
    ensures T.Tick(CFG, Closing(T.DataEof, true, 1, 1, 9, 99), GOOD) ==
            T.Sending(Closing(T.Filestore, false, 1, 1, 8, 98), [])
    ensures T.Tick(CFG, Closing(T.Filestore, false, 1, 1, 8, 98), GOOD).t.file.fate == T.Removed
    ensures !T.Recycles(Closing(T.Filestore, false, 1, 1, 8, 98))
  {}

  // ------------------------------------------------------------------ the receiver

  function Received(cachedPos: nat, chunks: seq<Chunk>, temp: Bytes): R.RxFile {
    R.RxFile(true, cachedPos, 12, CfCrc.START, chunks, Store(temp, cachedPos, None))
  }

  /** Before the first gap check. */
  function Gathering(eofs: nat, file: R.RxFile): R.Rx {
    R.Rx(false, true, R.DataNormal, 0, R.RxFlags(true, true, eofs, 0, false, false, false),
         R.Common(false, false, false, false, false), 0,
         R.Reports(0, if eofs == 0 then 0 else 4, if eofs == 0 then 0 else 12, DC_INVALID, FS_INVALID), 0, 100, file)
  }

  /** While data is missing. */
  function Asking(sendNak: bool, armed: bool, ackTimer: nat, inactTimer: nat, file: R.RxFile): R.Rx {
    R.Rx(false, true, R.DataEof, 0, R.RxFlags(true, true, 1, 1, false, sendNak, false),
         R.Common(false, armed, false, false, false), 0, R.Reports(0, 4, 12, DC_INVALID, FS_INVALID), ackTimer,
         inactTimer, file)
  }

  /** While the sum is computed and afterwards. */
  function Summing(sub: R.SubState, done: bool, inactTimer: nat, pos: nat, crc: CfCrc.CrcState): R.Rx {
    R.Rx(false, true, sub, 0, R.RxFlags(true, true, 1, 1, false, false, false),
         R.Common(false, false, true, done, false), 0, R.Reports(0, 4, 12, DC_INVALID, FS_INVALID), 9, inactTimer,
         R.RxFile(true, pos, 12, crc, [Chunk(0, 12)], Store(LOST, pos, None)))
  }

  const TAIL: Bytes := [0, 0, 0, 0, 0, 0, 0, 0, 0, 0, 0, 1]

  lemma TakesMdAndLast()
    ensures R.Recv(CFG, R.Setup(CFG, true, 0, true, None), true, Md(12, false), FINE) ==
            Gathering(0, Received(0, [], []))
    ensures R.Recv(CFG, Gathering(0, Received(0, [], [])), true, Fd(8, LAST), FINE) ==
            Gathering(0, Received(12, [Chunk(8, 4)], TAIL))
  {
    assert WriteAt([], 8, LAST) == TAIL;
    assert LAST[..4] == LAST;
    assert Add([], 4, Chunk(8, 4)) == [Chunk(8, 4)];
    hide WriteAt;
    hide Add;
  }

  lemma TakesEof()
    ensures R.Recv(CFG, Gathering(0, Received(12, [Chunk(8, 4)], TAIL)), true, Eof(0, 4, 12), FINE) ==
            Gathering(1, Received(12, [Chunk(8, 4)], TAIL))
  {}

  lemma AcksEof()
    ensures R.Tick(CFG, Gathering(1, Received(12, [Chunk(8, 4)], TAIL)), FINE) ==
            R.Sending(Asking(true, false, 0, 99, Received(12, [Chunk(8, 4)], TAIL)), [Ack(DIR_EOF)])
  {}

  lemma SendsNak()
    ensures R.Tick(CFG, Asking(true, false, 0, 99, Received(12, [Chunk(8, 4)], TAIL)), FINE) ==
            R.Sending(Asking(false, true, 10, 98, Received(12, [Chunk(8, 4)], TAIL)), [Nak([Segment(0, 8)])])
  {
    var cs := [Chunk(8, 4)];
    assert ComputeGaps(cs, 4, 12, 0) == [Chunk(0, 8)];
    var gaps := [Chunk(0, 8)];
    assert gaps[..1] == gaps && R.Segments(gaps) == [Segment(0, 8)];
    hide ComputeGaps;
    hide R.Segments;
  }

  lemma TakesWrong()
    ensures R.Recv(CFG, Asking(false, true, 10, 98, Received(12, [Chunk(8, 4)], TAIL)), true, Fd(0, WRONG), FINE) ==
            Asking(false, true, 10, 100, Received(8, [Chunk(0, 12)], LOST))
  {
    assert WriteAt(TAIL, 0, WRONG) == LOST;
    assert WRONG[..8] == WRONG;
    JoinsTheTail();
    hide WriteAt;
    hide Add;
  }

  lemma JoinsTheTail()
    ensures Add([Chunk(8, 4)], 4, Chunk(0, 8)) == [Chunk(0, 12)]
  {
    var cs := [Chunk(8, 4)];
    InsertPosUnique(cs, 0, 0);
    MergeEndUnique(cs, 0, 8, 1);
  }

  lemma FindsComplete()
    ensures R.Tick(CFG, Asking(false, true, 10, 100, Received(8, [Chunk(0, 12)], LOST)), FINE) ==
            R.Sending(Summing(R.Validate, false, 99, 0, CfCrc.START), [])
  {
    assert ComputeGaps([Chunk(0, 12)], 1, 12, 0) == [];
    hide ComputeGaps;
  }

  lemma ComputesSum()
    ensures R.Tick(CFG, Summing(R.Validate, false, 99, 0, CfCrc.START), FINE) ==
            R.Sending(Summing(R.Validate, true, 98, 12, CfCrc.State(1, 4, 0)), [])
  {
    var f := Summing(R.Validate, false, 99, 0, CfCrc.START).file;
    Sums();
    assert LOST[0..12] == LOST;
    hide CfCrc.Digest;
    var g := R.CrcRead(f, 12);
    assert R.CrcLoop(CFG, f, 0, 100) == R.CrcLoop(CFG, g, 12, 99) == R.Outcome(g, true);
    hide R.CrcLoop;
  }

  lemma Decides()
    ensures R.Tick(CFG, Summing(R.Validate, true, 98, 12, CfCrc.State(1, 4, 0)), FINE) ==
            R.Sending(Summing(R.Filestore, true, 97, 12, CfCrc.State(1, 4, 0)), [])
  {}

  lemma Retains()
    ensures var x := R.Tick(CFG, Summing(R.Filestore, true, 97, 12, CfCrc.State(1, 4, 0)), FINE);
            && x.sent == [Fin(0, COMPLETE, RETAINED)] && x.r.file.store.dst == Some(LOST) && !R.Recycles(x.r)
  {}

  // ------------------------------------------------------------------ the run

  ghost predicate Leads(s: System, es: seq<Event>, u: System) { Run(CFG, s, es) == Some(u) }

  lemma {:induction false} LeadsOn(s: System, es: seq<Event>, u: System, e: Event)
    requires Leads(s, es, u) && Possible(u, e)
    ensures Leads(s, es + [e], Step(CFG, u, e))
    decreases |es|
  {
    hide Step;
    hide Possible;
    if es == [] {
      assert [] + [e] == [e] && [e][1..] == [];
      assert Run(CFG, s, [e]) == Run(CFG, Step(CFG, s, e), []);
    } else {
      assert (es + [e])[0] == es[0] && (es + [e])[1..] == es[1..] + [e];
      LeadsOn(Step(CFG, s, es[0]), es[1..], u, e);
    }
  }

  const START := Init(CFG, SRC, false, false, false)

  /** The first pass and the EOF. */
  lemma RunFirstPass() returns (es: seq<Event>, u: System)
    ensures Leads(START, es, u) && u.t == Ended(false, [], 12, 12) && !u.recycled && u.r == None && u.dst == None
    ensures {Md(12, false), Fd(0, FIRST), Fd(8, LAST), Eof(0, 4, 12)} <= u.toRx
  {
    SendsMd();
    SendsFirst();
    SendsLast();
    SendsEof();
    hide T.Tick;
    hide T.TickNewData;
    hide T.Setup;
    hide CfCrc.Digest;
    var s0 := START;
    assert Leads(s0, [], s0);
    LeadsOn(s0, [], s0, TxTick(GOOD));
    var s1 := Step(CFG, s0, TxTick(GOOD));
    LeadsOn(s0, [] + [TxTick(GOOD)], s1, TxData(GOOD));
    var s2 := Step(CFG, s1, TxData(GOOD));
    LeadsOn(s0, [] + [TxTick(GOOD)] + [TxData(GOOD)], s2, TxData(GOOD));
    var s3 := Step(CFG, s2, TxData(GOOD));
    LeadsOn(s0, [] + [TxTick(GOOD)] + [TxData(GOOD)] + [TxData(GOOD)], s3, TxTick(GOOD));
    es := [] + [TxTick(GOOD)] + [TxData(GOOD)] + [TxData(GOOD)] + [TxTick(GOOD)];
    hide Run;
    u := Step(CFG, s3, TxTick(GOOD));
  }

  function RxGets(p: Pdu): Event { RxRecv(p, true, FINE, 0, true) }

  /** The first piece is lost; the rest arrives, and the receiver asks for what is missing. */
  lemma RunAsks(es0: seq<Event>, s: System) returns (es: seq<Event>, u: System)
    requires Leads(START, es0, s) && s.t == Ended(false, [], 12, 12) && !s.recycled && s.r == None && s.dst == None
    requires {Md(12, false), Fd(8, LAST), Eof(0, 4, 12)} <= s.toRx
    ensures Leads(START, es, u) && u.t == s.t && !u.recycled && u.dst == None
    ensures u.r == Some(Asking(false, true, 10, 98, Received(12, [Chunk(8, 4)], TAIL)))
    ensures {Ack(DIR_EOF), Nak([Segment(0, 8)])} <= u.toTx
  {
    TakesMdAndLast();
    TakesEof();
    AcksEof();
    SendsNak();
    hide R.Tick;
    hide R.Recv;
    hide R.Setup;
    hide Run;
    LeadsOn(START, es0, s, RxGets(Md(12, false)));
    var es1, s1 := es0 + [RxGets(Md(12, false))], Step(CFG, s, RxGets(Md(12, false)));
    LeadsOn(START, es1, s1, RxGets(Fd(8, LAST)));
    var es2, s2 := es1 + [RxGets(Fd(8, LAST))], Step(CFG, s1, RxGets(Fd(8, LAST)));
    LeadsOn(START, es2, s2, RxGets(Eof(0, 4, 12)));
    var es3, s3 := es2 + [RxGets(Eof(0, 4, 12))], Step(CFG, s2, RxGets(Eof(0, 4, 12)));
    LeadsOn(START, es3, s3, RxTick(FINE));
    var es4, s4 := es3 + [RxTick(FINE)], Step(CFG, s3, RxTick(FINE));
    LeadsOn(START, es4, s4, RxTick(FINE));
    es, u := es4 + [RxTick(FINE)], Step(CFG, s4, RxTick(FINE));
  }

  /** The retransmission that reads short, and its retry. */
  lemma RunRetries(es0: seq<Event>, s: System) returns (es: seq<Event>, u: System)
    requires Leads(START, es0, s) && s.t == Ended(false, [], 12, 12) && !s.recycled && Nak([Segment(0, 8)]) in s.toTx
    ensures Leads(START, es, u) && u.t == Ended(true, [], 12, 8) && !u.recycled && u.dst == s.dst && u.r == s.r
    ensures u.toTx == s.toTx && Fd(0, WRONG) in u.toRx
  {
    TakesNak();
    ReadsShort();
    SendsWrong();
    hide T.TickNak;
    hide T.Recv;
    hide Run;
    var nak := TxRecv(Nak([Segment(0, 8)]), true);
    LeadsOn(START, es0, s, nak);
    var es1, s1 := es0 + [nak], Step(CFG, s, nak);
    LeadsOn(START, es1, s1, TxNak(SHORT));
    var es2, s2 := es1 + [TxNak(SHORT)], Step(CFG, s1, TxNak(SHORT));
    LeadsOn(START, es2, s2, TxNak(GOOD));
    es, u := es2 + [TxNak(GOOD)], Step(CFG, s2, TxNak(GOOD));
  }

  /** The receiver finds the file complete and its sum right. */
  lemma RunRetains(es0: seq<Event>, s: System) returns (es: seq<Event>, u: System)
    requires Leads(START, es0, s) && Fd(0, WRONG) in s.toRx
    requires s.r == Some(Asking(false, true, 10, 98, Received(12, [Chunk(8, 4)], TAIL)))
    ensures Leads(START, es, u) && u.t == s.t && u.recycled == s.recycled && u.dst == Some(LOST)
    ensures s.toTx <= u.toTx && Fin(0, COMPLETE, RETAINED) in u.toTx
  {
    TakesWrong();
    FindsComplete();
    ComputesSum();
    Decides();
    Retains();
    hide R.Tick;
    hide R.Recv;
    hide R.Recycles;
    hide Run;
    NotRecycled();
    LeadsOn(START, es0, s, RxGets(Fd(0, WRONG)));
    var es1, s1 := es0 + [RxGets(Fd(0, WRONG))], Step(CFG, s, RxGets(Fd(0, WRONG)));
    LeadsOn(START, es1, s1, RxTick(FINE));
    var es2, s2 := es1 + [RxTick(FINE)], Step(CFG, s1, RxTick(FINE));
    LeadsOn(START, es2, s2, RxTick(FINE));
    var es3, s3 := es2 + [RxTick(FINE)], Step(CFG, s2, RxTick(FINE));
    LeadsOn(START, es3, s3, RxTick(FINE));
    var es4, s4 := es3 + [RxTick(FINE)], Step(CFG, s3, RxTick(FINE));
    LeadsOn(START, es4, s4, RxTick(FINE));
    es, u := es4 + [RxTick(FINE)], Step(CFG, s4, RxTick(FINE));
  }

  lemma NotRecycled()
    ensures forall sub, done, n, pos, crc :: !R.Recycles(Summing(sub, done, n, pos, crc))
  {}

  /** The sender is told and gives the source up. */
  lemma RunRemoves(es0: seq<Event>, s: System) returns (es: seq<Event>, u: System)
    requires Leads(START, es0, s) && s.t == Ended(true, [], 12, 8) && !s.recycled
    requires {Ack(DIR_EOF), Fin(0, COMPLETE, RETAINED)} <= s.toTx
    ensures Leads(START, es, u) && u.dst == s.dst && u.t.file.fate == T.Removed
  {
    TakesAckAndFin();
    SendsFinAck();
    Closes();
    hide T.Tick;
    hide T.Recv;
    hide T.Recycles;
    hide Run;
    NotYetRecycled();
    LeadsOn(START, es0, s, TxRecv(Ack(DIR_EOF), true));
    var es1, s1 := es0 + [TxRecv(Ack(DIR_EOF), true)], Step(CFG, s, TxRecv(Ack(DIR_EOF), true));
    var fin := TxRecv(Fin(0, COMPLETE, RETAINED), true);
    LeadsOn(START, es1, s1, fin);
    var es2, s2 := es1 + [fin], Step(CFG, s1, fin);
    LeadsOn(START, es2, s2, TxTick(GOOD));
    var es3, s3 := es2 + [TxTick(GOOD)], Step(CFG, s2, TxTick(GOOD));
    LeadsOn(START, es3, s3, TxTick(GOOD));
    var es4, s4 := es3 + [TxTick(GOOD)], Step(CFG, s3, TxTick(GOOD));
    LeadsOn(START, es4, s4, TxTick(GOOD));
    es, u := es4 + [TxTick(GOOD)], Step(CFG, s4, TxTick(GOOD));
  }

  lemma NotYetRecycled()
    ensures forall sub, armed, fins, acks, n, m :: !T.Recycles(Closing(sub, armed, fins, acks, n, m))
  {}

  /** Without the condition on retransmissions the source can be lost: this run ends with the source
      removed and another file in its place. */
  lemma SourceIsLost() returns (es: seq<Event>)
    ensures Run(CFG, START, es).Some?
    ensures var s := Run(CFG, START, es).value;
            SourceGivenUp(s) && s.dst == Some(LOST) && LOST != SRC
    ensures !AllPlaced(CFG, START, es)
  {
    hide Run;
    hide Step;
    var es1, s1 := RunFirstPass();
    var es2, s2 := RunAsks(es1, s1);
    var es3, s3 := RunRetries(es2, s2);
    var es4, s4 := RunRetains(es3, s3);
    var es5, s5 := RunRemoves(es4, s4);
    es := es5;
    assert LOST[3] != SRC[3];
    if AllPlaced(CFG, START, es) {
      NoDataLoss(CFG, SRC, false, false, false, es);
      assert false;
    }
  }
}
