/** A run of the two parties after which the sender can never answer: two reads of the last bytes of
    the file come up short, the file stands at its end, and no seek is made any more. */
module WedgedSender {
  import opened Bytes
  import opened Cfdp
  import opened ChunkSpec
  import opened GapSpec
  import opened Protocol
  import opened LostSource
  import opened Wrappers
  import CfCrc
  import R = RxSpec
  import T = TxSpec
  import TR = TxRetransmit
  import TxSafety

  /** A read that delivers two bytes of four. */
  const HALF := T.TxIo(true, true, 2, 100, true)

  const NAK_TAIL := Nak([Segment(8, 12)])

  // ------------------------------------------------------------------ the receiver

  function HasFirst(): R.RxFile { Received(8, [Chunk(0, 8)], FIRST) }

  lemma TakesMdAndFirst()
    ensures R.Recv(CFG, R.Setup(CFG, true, 0, true, None), true, Md(12, false), FINE) ==
            Gathering(0, Received(0, [], []))
    ensures R.Recv(CFG, Gathering(0, Received(0, [], [])), true, Fd(0, FIRST), FINE) == Gathering(0, HasFirst())
  {
    assert WriteAt([], 0, FIRST) == FIRST && FIRST[..8] == FIRST;
    assert Add([], 4, Chunk(0, 8)) == [Chunk(0, 8)];
    hide WriteAt;
    hide Add;
  }

  lemma TakesEofToo()
    ensures R.Recv(CFG, Gathering(0, HasFirst()), true, Eof(0, 4, 12), FINE) == Gathering(1, HasFirst())
  {}

  lemma AcksEofToo()
    ensures R.Tick(CFG, Gathering(1, HasFirst()), FINE) ==
            R.Sending(Asking(true, false, 0, 99, HasFirst()), [Ack(DIR_EOF)])
  {}

  lemma AsksForTail()
    ensures R.Tick(CFG, Asking(true, false, 0, 99, HasFirst()), FINE) ==
            R.Sending(Asking(false, true, 10, 98, HasFirst()), [NAK_TAIL])
  {
    var cs, gaps := [Chunk(0, 8)], [Chunk(8, 4)];
    assert ComputeGaps(cs, 4, 12, 0) == gaps;
    assert gaps[..1] == gaps && R.Segments(gaps) == [Segment(8, 12)];
    hide ComputeGaps;
    hide R.Segments;
  }

  // ------------------------------------------------------------------ the sender

  lemma TakesTailNak()
    ensures T.Recv(CFG, Ended(false, [], 12, 12), true, NAK_TAIL) == Ended(true, [Chunk(8, 4)], 12, 12)
  {
    var t := Ended(false, [], 12, 12);
    var u := T.RecvSegment(CFG, t, Segment(8, 12));
    assert u.chunks == [Chunk(8, 4)];
    assert T.RecvNak(CFG, t, [Segment(8, 12)]) == T.RecvNak(CFG, u, []) == u;
  }

  lemma ReadsHalfTwice()
    ensures T.TickNak(CFG, Ended(true, [Chunk(8, 4)], 12, 12), HALF) ==
            T.Sending(Ended(true, [Chunk(8, 4)], 10, 8), [])
    ensures T.TickNak(CFG, Ended(true, [Chunk(8, 4)], 10, 8), HALF) ==
            T.Sending(Ended(true, [Chunk(8, 4)], 12, 8), [])
  {}

  function Wedged(): T.Tx { Ended(true, [Chunk(8, 4)], 12, 8) }

  // ------------------------------------------------------------------ the run

  function Gets(p: Pdu): Event { RxRecv(p, true, FINE, 0, true) }

  /** The last piece is lost and asked for. */
  lemma RunAsksForTail() returns (es: seq<Event>, u: System)
    ensures Leads(START, es, u) && u.t == Ended(false, [], 12, 12) && !u.recycled && NAK_TAIL in u.toTx
    ensures u.r == Some(Asking(false, true, 10, 98, HasFirst()))
  {
    TakesMdAndFirst();
    TakesEofToo();
    AcksEofToo();
    AsksForTail();
    hide R.Tick;
    hide R.Recv;
    hide R.Setup;
    hide Run;
    var es0, s := RunFirstPass();
    LeadsOn(START, es0, s, Gets(Md(12, false)));
    var es1, s1 := es0 + [Gets(Md(12, false))], Step(CFG, s, Gets(Md(12, false)));
    LeadsOn(START, es1, s1, Gets(Fd(0, FIRST)));
    var es2, s2 := es1 + [Gets(Fd(0, FIRST))], Step(CFG, s1, Gets(Fd(0, FIRST)));
    LeadsOn(START, es2, s2, Gets(Eof(0, 4, 12)));
    var es3, s3 := es2 + [Gets(Eof(0, 4, 12))], Step(CFG, s2, Gets(Eof(0, 4, 12)));
    LeadsOn(START, es3, s3, RxTick(FINE));
    var es4, s4 := es3 + [RxTick(FINE)], Step(CFG, s3, RxTick(FINE));
    LeadsOn(START, es4, s4, RxTick(FINE));
    es, u := es4 + [RxTick(FINE)], Step(CFG, s4, RxTick(FINE));
  }

  /** The run: two of the file's last four bytes are read, then the other two, and nothing is sent. */
  lemma RunWedges() returns (es: seq<Event>)
    ensures Run(CFG, START, es).Some?
    ensures var s := Run(CFG, START, es).value;
            && s.t == Wedged() && !s.recycled && s.t.Ok() && s.t.file.open
            && s.r == Some(Asking(false, true, 10, 98, HasFirst()))
  {
    TakesTailNak();
    ReadsHalfTwice();
    hide T.TickNak;
    hide T.Recv;
    hide Run;
    var es0, s := RunAsksForTail();
    LeadsOn(START, es0, s, TxRecv(NAK_TAIL, true));
    var es1, s1 := es0 + [TxRecv(NAK_TAIL, true)], Step(CFG, s, TxRecv(NAK_TAIL, true));
    LeadsOn(START, es1, s1, TxNak(HALF));
    var es2, s2 := es1 + [TxNak(HALF)], Step(CFG, s1, TxNak(HALF));
    LeadsOn(START, es2, s2, TxNak(HALF));
    es := es2 + [TxNak(HALF)];
  }

  /** However good all later calls are, nothing of what is missing is sent again; asking once more
      changes nothing. */
  lemma NeverAnswers(ios: seq<T.TxIo>, more: seq<T.TxIo>)
    ensures var d := TR.Drain(CFG, Wedged(), ios);
            var e := TR.Drain(CFG, T.Recv(CFG, d.t, true, NAK_TAIL), more);
            && TR.NoBytes(d.sent) && d.t.flags.fdNakPending && d.t.chunks == [Chunk(8, 4)]
            && TR.NoBytes(e.sent) && e.t.flags.fdNakPending && e.t.chunks == [Chunk(8, 4)]
  {
    assert TR.Ready(CFG, SRC, Wedged());
    TR.OverrunSilent(CFG, SRC, Wedged(), ios);
    var d := TR.Drain(CFG, Wedged(), ios).t;
    DrainKeepsRest(CFG, Wedged(), ios);
    AskedAgain(d);
    hide TR.Drain;
    hide T.Recv;
    TR.OverrunSilent(CFG, SRC, T.Recv(CFG, d, true, NAK_TAIL), more);
  }

  lemma AskedAgain(t: T.Tx)
    requires t.reliable && !t.hold && t.sub.DataEof? && t.flags.fdNakPending
    requires t.chunks == [Chunk(8, 4)] && t.file == Wedged().file
    ensures var u := T.Recv(CFG, t, true, NAK_TAIL);
            u.chunks == t.chunks && u.file == t.file && u.flags.fdNakPending && TR.Ready(CFG, SRC, u) && TR.Overrun(u)
  {
    var segs := [Segment(8, 12)];
    assert forall x :: 8 <= x < 12 ==> t.chunks[0].Has(x);
    assert TR.Known(t.chunks, segs);
    TR.RepeatedNak(CFG, t, segs);
    hide T.RecvNak;
    hide TR.Known;
  }

  /** The calls touch only the requests, the file and the flag. */
  lemma {:induction false} DrainKeepsRest(cfg: Config, t: T.Tx, ios: seq<T.TxIo>)
    ensures var u := TR.Drain(cfg, t, ios).t; u.reliable == t.reliable && u.hold == t.hold && u.sub == t.sub
    decreases |ios|
  {
    if ios != [] {
      hide T.TickNak;
      TxSafety.TickNakIs(cfg, t, ios[0]);
      DrainKeepsRest(cfg, T.TickNak(cfg, t, ios[0]).t, ios[1..]);
    }
  }
}
