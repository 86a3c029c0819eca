/** A receive transaction driven by any PDUs whatever, next to a record of its successful file
    data writes: what the chunk list says has arrived was indeed written, and the temporary file
    holds the last byte written at every such offset. */
module RxHistory {
  import opened Bytes
  import opened Cfdp
  import opened ChunkSpec
  import opened GapSpec
  import opened RxSpec
  import opened Wrappers
  import RxSafety

  datatype Event = Arrive(class2: bool, p: Pdu, io: RxIo) | Ticked(io: RxIo) | Cancelled

  datatype Write = Write(offset: nat, data: Bytes) {
    predicate Has(x: int) { offset <= x < offset + |data| }
  }

  /** A transaction and the writes that succeeded so far. */
  datatype Play = Play(r: Rx, log: seq<Write>)

  /** File data reaches the file: the transaction accepts it, and neither seek nor write fails. */
  predicate Wrote(cfg: Config, r: Rx, e: Event) {
    && e.Arrive? && e.p.Fd? && e.class2 == r.reliable && !r.hold && r.Ok()
    && var s := SeekTo(r.file, e.p.offset, e.io.seekOk);
       s.ok && WriteFd(cfg.maxChunks, s.file, e.p.offset, e.p.data, e.io.writable).ok
  }

  function After(cfg: Config, r: Rx, e: Event): Rx
    requires cfg.Valid()
  {
    match e
    case Arrive(class2, p, io) => Recv(cfg, r, class2, p, io)
    case Ticked(io) => Tick(cfg, r, io).r
    case Cancelled => Cancel(r)
  }

  function Step(cfg: Config, s: Play, e: Event): Play
    requires cfg.Valid()
  {
    Play(After(cfg, s.r, e), if Wrote(cfg, s.r, e) then s.log + [Write(e.p.offset, e.p.data)] else s.log)
  }

  function Run(cfg: Config, s: Play, es: seq<Event>): Play
    requires cfg.Valid()
    decreases |es|
  {
    if es == [] then s else Run(cfg, Step(cfg, s, es[0]), es[1..])
  }

  function Start(cfg: Config, reliable: bool, stat: int, openOk: bool): Play {
    Play(Setup(cfg, reliable, stat, openOk, None), [])
  }

  // ------------------------------------------------------------------ what the log says

  /** The file that a sequence of writes leaves. */
  function Replay(log: seq<Write>): Bytes {
    if log == [] then []
    else
      var w := log[|log| - 1];
      WriteAt(Replay(log[..|log| - 1]), w.offset, w.data)
  }

  ghost predicate Written(log: seq<Write>, x: int) {
    exists i :: 0 <= i < |log| && log[i].Has(x)
  }

  /** The byte most recently written at x. */
  function LastByte(log: seq<Write>, x: int): Option<Byte> {
    if log == [] then None
    else
      var w := log[|log| - 1];
      if w.Has(x) then Some(w.data[x - w.offset]) else LastByte(log[..|log| - 1], x)
  }

  lemma {:induction false} WrittenIffLast(log: seq<Write>, x: int)
    ensures Written(log, x) <==> LastByte(log, x).Some?
  {
    if log != [] {
      var n := |log| - 1;
      WrittenIffLast(log[..n], x);
      assert forall i :: 0 <= i < n ==> log[..n][i] == log[i];
    }
  }

  /** The file holds, wherever something was written, what was written there last. */
  lemma {:induction false} ReplayLast(log: seq<Write>, x: nat)
    ensures LastByte(log, x).Some? ==> x < |Replay(log)| && Replay(log)[x] == LastByte(log, x).value
  {
    if log != [] {
      var n := |log| - 1;
      var w := log[n];
      ReplayLast(log[..n], x);
      WriteAtFacts(Replay(log[..n]), w.offset, w.data);
      hide WriteAt;
    }
  }

  // ------------------------------------------------------------------ the invariant

  ghost predicate Recorded(max: nat, log: seq<Write>, chunks: seq<Chunk>) {
    && Separated(chunks) && |chunks| <= max
    && forall x :: Covers(chunks, x) ==> Written(log, x)
  }

  ghost predicate Inv(cfg: Config, s: Play) {
    && Recorded(cfg.maxChunks, s.log, s.r.file.chunks)
    && (s.r.Ok() && !RxSafety.Done(s.r.sub) ==> s.r.file.open)
    && (s.r.Ok() && s.r.file.open ==>
          s.r.file.store.pos == s.r.file.cachedPos && s.r.file.store.temp == Replay(s.log))
  }

  /** From r to u nothing was written: the chunk list is the same, and if the file is still open
      and usable its bytes are too. */
  predicate Quiet(r: Rx, u: Rx) {
    && u.file.chunks == r.file.chunks
    && (u.Ok() ==> r.Ok())
    && (RxSafety.Done(r.sub) ==> RxSafety.Done(u.sub))
    && (u.Ok() && !RxSafety.Done(u.sub) && r.file.open ==> u.file.open)
    && (u.Ok() && u.file.open ==>
          && r.file.open && u.file.store.temp == r.file.store.temp
          && (r.file.store.pos == r.file.cachedPos ==> u.file.store.pos == u.file.cachedPos))
  }

  lemma QuietKeeps(cfg: Config, s: Play, u: Rx)
    requires Inv(cfg, s) && Quiet(s.r, u)
    ensures Inv(cfg, s.(r := u))
  {
    hide Recorded;
  }

  lemma QuietRecv(cfg: Config, r: Rx, class2: bool, p: Pdu, io: RxIo)
    requires !p.Fd?
    ensures Quiet(r, Recv(cfg, r, class2, p, io))
  {
    hide R1Recv;
    hide R2Dispatch;
    QuietR1(cfg, r, p, io);
    QuietR2(cfg, r, p, io);
  }

  lemma QuietR1(cfg: Config, r: Rx, p: Pdu, io: RxIo)
    requires !p.Fd?
    ensures Quiet(r, R1Recv(cfg, r, p, io))
  {
    hide RecvFd;
  }

  lemma QuietR2(cfg: Config, r: Rx, p: Pdu, io: RxIo)
    requires !p.Fd?
    ensures Quiet(r, R2Dispatch(cfg, r, p, io))
  {
    hide RecvFd;
  }

  lemma QuietCrc(cfg: Config, r: Rx, io: RxIo)
    ensures Quiet(r, CalcCrcStart(r, io))
    ensures Quiet(r, CalcCrcChunk(cfg, r, io)) && CalcCrcChunk(cfg, r, io).sub == r.sub
  {
    hide CalcCrcChunk;
    RxSafety.CalcCrcChunkEffect(cfg, r, io);
  }

  lemma QuietNext(cfg: Config, r: Rx, io: RxIo)
    ensures var c := NextState(cfg, r, io); Quiet(r, c.r.(sub := c.next))
  {
    hide CheckDataEof;
    hide CheckFinAck;
    hide CheckValidate;
    hide HandleFileRetention;
    match r.sub
    case DataEof => QuietDataEof(cfg, r);
    case Validate => QuietValidate(cfg, r, io);
    case Filestore => QuietRetention(r, io);
    case FinAck => QuietFinAck(cfg, r);
    case _ =>
  }

  lemma QuietDataEof(cfg: Config, r: Rx)
    requires r.sub.DataEof?
    ensures var c := CheckDataEof(cfg, r); Quiet(r, c.r.(sub := c.next))
  {
    hide CheckComplete;
  }

  lemma QuietValidate(cfg: Config, r: Rx, io: RxIo)
    requires r.sub.Validate?
    ensures var c := CheckValidate(cfg, r, io); Quiet(r, c.r.(sub := c.next))
  {
    hide CalcCrcChunk;
    QuietCrc(cfg, r, io);
  }

  lemma QuietFinAck(cfg: Config, r: Rx)
    requires r.sub.FinAck?
    ensures var c := CheckFinAck(cfg, r); Quiet(r, c.r.(sub := c.next))
  {}

  lemma QuietRetention(r: Rx, io: RxIo)
    ensures Quiet(r, HandleFileRetention(r, io).(sub := FinAck))
    ensures Quiet(r, HandleFileRetention(r, io).(sub := Complete))
  {}

  lemma QuietEnter(cfg: Config, r: Rx, next: SubState, io: RxIo)
    requires r.sub == next
    ensures Quiet(r, Enter(cfg, r, next, io))
  {
    hide CalcCrcStart;
    QuietCrc(cfg, r.(sub := next, com := r.com.(ackArmed := false)), io);
  }

  lemma QuietTransitive(r: Rx, s: Rx, u: Rx)
    requires Quiet(r, s) && Quiet(s, u)
    ensures Quiet(r, u)
  {}

  lemma QuietCheckState(cfg: Config, r: Rx, io: RxIo)
    ensures Quiet(r, CheckState(cfg, r, io))
  {
    hide NextState;
    hide Enter;
    var c := NextState(cfg, r, io);
    QuietNext(cfg, r, io);
    var s := c.r.(sub := c.next);
    assert Enter(cfg, c.r, c.next, io) == Enter(cfg, s, c.next, io) by { EnterIgnoresSub(cfg, c.r, c.next, io); }
    QuietEnter(cfg, s, c.next, io);
    RxSafety.SameSub(cfg, r, io);
    assert c.next == r.sub ==> s == c.r;
    hide Quiet;
    QuietTransitive(r, s, Enter(cfg, s, c.next, io));
  }

  lemma EnterIgnoresSub(cfg: Config, r: Rx, next: SubState, io: RxIo)
    ensures Enter(cfg, r, next, io) == Enter(cfg, r.(sub := next), next, io)
  {
    hide CalcCrcStart;
    hide Finish;
  }

  lemma QuietTimers(r: Rx)
    ensures Quiet(r, InactTimerTick(r)) && Quiet(r, AckTimerTick(r))
  {}

  lemma QuietMaintenance(cfg: Config, r: Rx, io: RxIo)
    requires cfg.Valid()
    ensures Quiet(r, Maintenance(cfg, r, io).r)
  {
    hide NakPdus;
    hide FinPdu;
  }

  lemma QuietTick(cfg: Config, r: Rx, io: RxIo)
    requires cfg.Valid()
    ensures Quiet(r, Tick(cfg, r, io).r)
  {
    hide Quiet;
    hide InactTimerTick;
    hide AckTimerTick;
    hide CheckState;
    hide Maintenance;
    var s := InactTimerTick(r);
    QuietTimers(r);
    QuietTimers(s);
    QuietCheckState(cfg, AckTimerTick(s), io);
    QuietTransitive(r, s, AckTimerTick(s));
    QuietTransitive(r, AckTimerTick(s), CheckState(cfg, AckTimerTick(s), io));
    var u := Advance(cfg, r, io);
    QuietMaintenance(cfg, u, io);
    QuietTransitive(r, u, Maintenance(cfg, u, io).r);
  }

  // ------------------------------------------------------------------ writes

  lemma RecordMore(max: nat, log: seq<Write>, chunks: seq<Chunk>, w: Write)
    requires max > 0 && Recorded(max, log, chunks)
    ensures Recorded(max, log + [w], Add(chunks, max, Chunk(w.offset, |w.data|)))
  {
    var c := Chunk(w.offset, |w.data|);
    var log' := log + [w];
    AddRefines(chunks, max, c);
    hide Add;
    hide Separated;
    hide Covers;
    forall x | Covers(Add(chunks, max, c), x)
      ensures Written(log', x)
    {
      if c.Has(x) {
        assert log'[|log|].Has(x);
      } else {
        var i :| 0 <= i < |log| && log[i].Has(x);
        assert log'[i].Has(x);
      }
    }
  }

  /** File data that is not written leaves the transaction quiet. */
  lemma QuietFd(cfg: Config, r: Rx, e: Event)
    requires cfg.Valid() && e.Arrive? && e.p.Fd? && !Wrote(cfg, r, e)
    ensures Quiet(r, After(cfg, r, e))
  {
    hide Add;
    hide WriteAt;
  }

  lemma WriteKeeps(cfg: Config, s: Play, e: Event)
    requires cfg.Valid() && Inv(cfg, s) && Wrote(cfg, s.r, e)
    ensures Inv(cfg, Step(cfg, s, e))
  {
    var w := Write(e.p.offset, e.p.data);
    RecordMore(cfg.maxChunks, s.log, s.r.file.chunks, w);
    RxSafety.RecvFdEffect(cfg, s.r, w.offset, w.data, e.io);
    hide Recorded;
    hide Add;
    hide WriteAt;
    assert (s.log + [w])[..|s.log|] == s.log;
  }

  lemma StepKeeps(cfg: Config, s: Play, e: Event)
    requires cfg.Valid() && Inv(cfg, s)
    ensures Inv(cfg, Step(cfg, s, e))
  {
    hide Inv;
    hide Quiet;
    hide Recv;
    hide Tick;
    hide Wrote;
    if Wrote(cfg, s.r, e) {
      WriteKeeps(cfg, s, e);
    } else {
      match e {
        case Arrive(class2, p, io) =>
          if p.Fd? {
            QuietFd(cfg, s.r, e);
          } else {
            QuietRecv(cfg, s.r, class2, p, io);
          }
        case Ticked(io) => QuietTick(cfg, s.r, io);
        case Cancelled => QuietCancel(s.r);
      }
      QuietKeeps(cfg, s, After(cfg, s.r, e));
    }
  }

  lemma QuietCancel(r: Rx)
    ensures Quiet(r, Cancel(r))
  {}

  lemma {:induction false} RunKeeps(cfg: Config, s: Play, es: seq<Event>)
    requires cfg.Valid() && Inv(cfg, s)
    ensures Inv(cfg, Run(cfg, s, es))
    decreases |es|
  {
    hide Inv;
    hide Step;
    if es != [] {
      StepKeeps(cfg, s, es[0]);
      RunKeeps(cfg, Step(cfg, s, es[0]), es[1..]);
    }
  }

  lemma StartHolds(cfg: Config, reliable: bool, stat: int, openOk: bool)
    ensures Inv(cfg, Start(cfg, reliable, stat, openOk))
  {}

  // ------------------------------------------------------------------ the theorem

  /** The transaction after any events, and its record. */
  function Reached(cfg: Config, reliable: bool, stat: int, openOk: bool, es: seq<Event>): Play
    requires cfg.Valid()
  {
    Run(cfg, Start(cfg, reliable, stat, openOk), es)
  }

  /** In every reachable state, an offset the chunk list covers was written by a successful file
      data write, and CF_CFDP_R_CheckComplete answers yes exactly when metadata and EOF have been
      seen, no NAK is pending and every offset of the file is covered. */
  lemma CoveredMeansWritten(cfg: Config, reliable: bool, stat: int, openOk: bool, es: seq<Event>)
    requires cfg.Valid()
    ensures var s := Reached(cfg, reliable, stat, openOk, es);
            && (forall x :: Covers(s.r.file.chunks, x) ==> Written(s.log, x))
            && (CheckComplete(s.r) <==>
                  && !s.r.flags.sendNak && s.r.flags.eofCount != 0 && s.r.flags.mdRecv
                  && forall x :: 0 <= x < s.r.file.size ==> Covers(s.r.file.chunks, x))
  {
    var s := Reached(cfg, reliable, stat, openOk, es);
    StartHolds(cfg, reliable, stat, openOk);
    RunKeeps(cfg, Start(cfg, reliable, stat, openOk), es);
    hide Run;
    hide Start;
    hide ComputeGaps;
    hide Covers;
    hide Written;
    NoGapIffCovered(s.r.file.chunks, 1, s.r.file.size);
  }

  /** A file the receiver finds complete has every offset written, and as long as the transaction
      is in order each one holds the byte written there last. */
  lemma CompleteFileIsWhole(cfg: Config, reliable: bool, stat: int, openOk: bool, es: seq<Event>, x: nat)
    requires cfg.Valid()
    ensures var s := Reached(cfg, reliable, stat, openOk, es);
            CheckComplete(s.r) && x < s.r.file.size ==>
              && Written(s.log, x)
              && (s.r.Ok() && !RxSafety.Done(s.r.sub) ==>
                    s.r.file.open && x < |s.r.file.store.temp| && Some(s.r.file.store.temp[x]) == LastByte(s.log, x))
  {
    var s := Reached(cfg, reliable, stat, openOk, es);
    CoveredMeansWritten(cfg, reliable, stat, openOk, es);
    StartHolds(cfg, reliable, stat, openOk);
    RunKeeps(cfg, Start(cfg, reliable, stat, openOk), es);
    WrittenIffLast(s.log, x);
    ReplayLast(s.log, x);
    hide Reached;
    hide CheckComplete;
    hide Written;
    hide Recorded;
    hide LastByte;
  }
}
