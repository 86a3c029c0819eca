/** What a receiver reports when something goes wrong: over any run, the first thing that went wrong is the status of
    the transaction, and the FIN carries it, next to what became of the file. */
module RxFaults {
  import opened Cfdp
  import opened ChunkSpec
  import opened GapSpec
  import opened RxHistory
  import opened RxSpec
  import opened Wrappers
  import CfCrc
  import RxSafety
  import T = TxSpec

  // ------------------------------------------------------------------ what can go wrong

  /** File data does not reach the file: the seek or the write fails. */
  function FileFault(f: RxFile, offset: nat, size: nat, io: RxIo): nat {
    if f.cachedPos != offset && !(f.open && io.seekOk) then FILE_SIZE_ERROR
    else if !f.open || io.writable < size then FILESTORE_REJECTION
    else NO_ERROR
  }

  /** An EOF is looked at: class 1 only does so while it receives. */
  predicate TakesEof(r: Rx) { r.hold || r.reliable || r.sub.DataNormal? || r.sub.DataEof? }

  /** A PDU brings trouble: bad file data, an EOF with an error, one EOF too many. */
  function ArrivalFault(cfg: Config, r: Rx, class2: bool, p: Pdu, io: RxIo): nat {
    if class2 != r.reliable then NO_ERROR
    else
      match p
      case Fd(offset, data) => if r.hold then NO_ERROR else FileFault(r.file, offset, |data|, io)
      case Eof(cc, _, _) =>
        if !TakesEof(r) then NO_ERROR
        else if r.flags.eofCount == 0 && cc != NO_ERROR then cc
        else if r.flags.eofCount >= cfg.ackLimit then POS_ACK_LIMIT_REACHED
        else NO_ERROR
      case _ => NO_ERROR
  }

  /** The timer of the last NAK has run out, or there is none. */
  predicate NakDue(r: Rx) { r.reliable && !r.flags.sendNak && (!r.com.ackArmed || r.ackTimer == 0) }

  /** A check of the state finds trouble: the sizes disagree or the file cannot be rewound, one NAK too many, a read
      that fails, and at the end no file, an incomplete one, a bad sum, or a failed move. */
  function StateFault(cfg: Config, r: Rx, io: RxIo): nat {
    match r.sub
    case DataEof =>
      if CheckComplete(r) then
        if r.file.size != r.reports.eofSize || !r.file.open || !io.seekOk then FILE_SIZE_ERROR else NO_ERROR
      else if NakDue(r) && r.acknak >= cfg.ackLimit then NAK_LIMIT_REACHED
      else NO_ERROR
    case Validate => if CrcLoop(cfg, r.file, 0, io.goodReads).ok then NO_ERROR else FILE_SIZE_ERROR
    case Filestore =>
      if !r.flags.tempCreated then FILESTORE_REJECTION
      else if !r.com.isComplete then INVALID_FILE_STRUCTURE
      else if r.file.crc.result != r.reports.eofCrc then FILE_CHECKSUM_FAILURE
      else if !io.mvOk then FILESTORE_REJECTION
      else NO_ERROR
    case _ => NO_ERROR
  }

  /** What goes wrong in a transaction that was in order so far. */
  function FaultOf(cfg: Config, r: Rx, e: Event): nat {
    match e
    case Arrive(class2, p, io) => ArrivalFault(cfg, r, class2, p, io)
    case Ticked(io) =>
      if r.hold then NO_ERROR
      else if !r.com.inactFired && r.inactTimer == 0 then INACTIVITY_DETECTED
      else StateFault(cfg, r, io)
    case Cancelled => CANCEL_REQUEST_RECEIVED
  }

  /** The status as an error or none. */
  function ErrorOf(stat: int): nat { if IsError(stat) then stat else NO_ERROR }

  // ------------------------------------------------------------------ one event

  lemma FdFault(cfg: Config, r: Rx, offset: nat, data: Bytes.Bytes, io: RxIo)
    requires r.Ok()
    ensures ErrorOf(RecvFd(cfg, r, offset, data, io).stat) == FileFault(r.file, offset, |data|, io)
  {
    hide Add;
    hide WriteAt;
  }

  lemma EofFault(cfg: Config, r: Rx, cc: nat, crc: nat, size: nat)
    requires r.Ok()
    ensures ErrorOf(RecvEof(cfg, r, cc, crc, size).stat) ==
            if r.flags.eofCount == 0 && cc != NO_ERROR then cc
            else if r.flags.eofCount >= cfg.ackLimit then POS_ACK_LIMIT_REACHED else NO_ERROR
  {}

  lemma ArrivalShows(cfg: Config, r: Rx, class2: bool, p: Pdu, io: RxIo)
    requires r.Ok()
    ensures ErrorOf(Recv(cfg, r, class2, p, io).stat) == ArrivalFault(cfg, r, class2, p, io)
  {
    if p.Fd? {
      FdFault(cfg, r, p.offset, p.data, io);
    }
    if p.Eof? {
      EofFault(cfg, r, p.cc, p.crc, p.size);
    }
    hide RecvFd;
    hide RecvEof;
  }

  lemma LoopAtEnd(cfg: Config, f: RxFile, goodReads: nat)
    requires f.cachedPos == f.size
    ensures CrcLoop(cfg, f, 0, goodReads).ok
  {}

  lemma DataEofShows(cfg: Config, r: Rx, io: RxIo)
    requires r.Ok() && r.sub.DataEof?
    ensures ErrorOf(CheckState(cfg, AckTimerTick(r), io).stat) == StateFault(cfg, r, io)
  {
    hide ComputeGaps;
    hide CrcLoop;
  }

  lemma ValidateShows(cfg: Config, r: Rx, io: RxIo)
    requires r.Ok() && r.sub.Validate?
    ensures ErrorOf(CheckState(cfg, AckTimerTick(r), io).stat) == StateFault(cfg, r, io)
  {
    if r.file.cachedPos == r.file.size {
      LoopAtEnd(cfg, r.file, io.goodReads);
    }
    hide CrcLoop;
    hide ComputeGaps;
    hide CfCrc.Finalize;
  }

  lemma FilestoreShows(cfg: Config, r: Rx, io: RxIo)
    requires r.Ok() && r.sub.Filestore?
    ensures ErrorOf(CheckState(cfg, AckTimerTick(r), io).stat) == StateFault(cfg, r, io)
  {
    RetentionShows(cfg, AckTimerTick(r), io);
    hide HandleFileRetention;
    hide ComputeGaps;
    hide CrcLoop;
  }

  lemma RetentionShows(cfg: Config, r: Rx, io: RxIo)
    requires r.Ok() && r.sub.Filestore?
    ensures ErrorOf(HandleFileRetention(r, io).stat) == StateFault(cfg, r, io)
  {
    hide ComputeGaps;
    hide CrcLoop;
  }

  lemma StateShows(cfg: Config, r: Rx, io: RxIo)
    requires r.Ok()
    ensures ErrorOf(CheckState(cfg, AckTimerTick(r), io).stat) == StateFault(cfg, r, io)
  {
    match r.sub
    case DataEof => DataEofShows(cfg, r, io);
    case Validate => ValidateShows(cfg, r, io);
    case Filestore => FilestoreShows(cfg, r, io);
    case _ =>
  }

  lemma MaintenanceStatus(cfg: Config, r: Rx, io: RxIo)
    requires cfg.Valid()
    ensures Maintenance(cfg, r, io).r.stat == r.stat
  {
    hide NakPdus;
    hide FinPdu;
  }

  lemma TickShows(cfg: Config, r: Rx, io: RxIo)
    requires cfg.Valid() && r.Ok()
    ensures ErrorOf(Tick(cfg, r, io).r.stat) == FaultOf(cfg, r, Ticked(io))
  {
    MaintenanceStatus(cfg, Advance(cfg, r, io), io);
    hide Maintenance;
    var s := InactTimerTick(r);
    if !r.hold {
      if s.Ok() {
        assert StateFault(cfg, s, io) == StateFault(cfg, r, io) by { SameState(cfg, r, s, io); }
        StateShows(cfg, s, io);
      } else {
        FirstSticks(cfg, AckTimerTick(s), io);
      }
    }
    hide CheckState;
    hide StateFault;
  }

  lemma SameState(cfg: Config, r: Rx, s: Rx, io: RxIo)
    requires s == InactTimerTick(r) && s.Ok()
    ensures StateFault(cfg, s, io) == StateFault(cfg, r, io)
  {
    hide CrcLoop;
    hide ComputeGaps;
  }

  /** An error stays. */
  lemma FirstSticks(cfg: Config, r: Rx, io: RxIo)
    requires !r.Ok()
    ensures CheckState(cfg, r, io).stat == r.stat
  {
    hide CrcLoop;
    hide ComputeGaps;
    hide CfCrc.Finalize;
  }

  lemma FirstSticksRecv(cfg: Config, r: Rx, class2: bool, p: Pdu, io: RxIo)
    requires !r.Ok()
    ensures Recv(cfg, r, class2, p, io).stat == r.stat
  {
    hide RecvFd;
  }

  /** One event: an error stays what it is, and without one what goes wrong now is the status. */
  lemma EventShows(cfg: Config, r: Rx, e: Event)
    requires cfg.Valid()
    ensures ErrorOf(After(cfg, r, e).stat) == if r.Ok() then FaultOf(cfg, r, e) else r.stat
  {
    match e
    case Arrive(class2, p, io) =>
      if r.Ok() {
        ArrivalShows(cfg, r, class2, p, io);
      } else {
        FirstSticksRecv(cfg, r, class2, p, io);
      }
      hide Recv;
    case Ticked(io) =>
      if r.Ok() {
        TickShows(cfg, r, io);
      } else {
        FirstSticksTick(cfg, r, io);
      }
      hide Tick;
      hide StateFault;
    case Cancelled =>
  }

  lemma FirstSticksTick(cfg: Config, r: Rx, io: RxIo)
    requires cfg.Valid() && !r.Ok()
    ensures Tick(cfg, r, io).r.stat == r.stat
  {
    MaintenanceStatus(cfg, Advance(cfg, r, io), io);
    FirstSticks(cfg, AckTimerTick(InactTimerTick(r)), io);
    hide Maintenance;
    hide CheckState;
  }

  // ------------------------------------------------------------------ a whole run

  /** The first thing that goes wrong in a run. */
  function FirstFault(cfg: Config, s: Play, es: seq<Event>): nat
    requires cfg.Valid()
    decreases |es|
  {
    if es == [] then NO_ERROR
    else
      var f := FaultOf(cfg, s.r, es[0]);
      if f != NO_ERROR then f else FirstFault(cfg, Step(cfg, s, es[0]), es[1..])
  }

  /** In every run: the status is the first thing that went wrong, and no error if nothing did. */
  lemma {:induction false} FirstFaultIsStatus(cfg: Config, s: Play, es: seq<Event>)
    requires cfg.Valid()
    ensures ErrorOf(Run(cfg, s, es).r.stat) == if s.r.Ok() then FirstFault(cfg, s, es) else s.r.stat
    decreases |es|
  {
    hide FaultOf;
    hide After;
    hide Wrote;
    if es != [] {
      EventShows(cfg, s.r, es[0]);
      FirstFaultIsStatus(cfg, Step(cfg, s, es[0]), es[1..]);
    }
  }

  // ------------------------------------------------------------------ what the FIN says

  /** The codes of the standard that CF's receivers use are the statuses themselves; of the others, the two that say
      an answer is missing stand for inactivity, the rest for a cancellation. */
  lemma CodesAreStatuses(stat: int)
    ensures !IsError(stat) ==> ConditionCode(stat) == 0
    ensures 1 <= stat <= 11 || stat in {14, 15} ==> ConditionCode(stat) == stat
    ensures stat in {12, 13, 16} || 19 <= stat ==> ConditionCode(stat) == 15
    ensures stat in {17, 18} ==> ConditionCode(stat) == 8
  {}

  /** What a run reports at its end, if it sends a FIN: the code of the first thing that went wrong. */
  lemma FinCarriesFirstFault(cfg: Config, s: Play, es: seq<Event>, io: RxIo, p: Pdu)
    requires cfg.Valid() && s.r.Ok() && p in Tick(cfg, Run(cfg, s, es).r, io).sent && p.Fin?
    ensures p.cc == ConditionCode(FirstFault(cfg, s, es + [Ticked(io)]))
  {
    var r := Run(cfg, s, es).r;
    FinCarriesStatus(cfg, r, io, p);
    FirstFaultIsStatus(cfg, s, es + [Ticked(io)]);
    RunOneMore(cfg, s, es, Ticked(io));
    hide Tick;
    hide FirstFault;
    hide Run;
    OnlyErrors(Tick(cfg, r, io).r.stat);
  }

  lemma OnlyErrors(stat: int)
    ensures ConditionCode(ErrorOf(stat)) == ConditionCode(stat)
  {}

  lemma FinCarriesStatus(cfg: Config, r: Rx, io: RxIo, p: Pdu)
    requires cfg.Valid() && p in Tick(cfg, r, io).sent && p.Fin?
    ensures var u := Tick(cfg, r, io).r; p == Fin(ConditionCode(u.stat), u.reports.finDc % 2, u.reports.finFs % 4)
  {
    hide Advance;
    hide NakPdus;
    NakIsNoFin(cfg, Advance(cfg, r, io));
  }

  lemma NakIsNoFin(cfg: Config, r: Rx)
    requires cfg.Valid()
    ensures forall p :: p in NakPdus(cfg, r) ==> p.Nak?
  {
    hide ComputeGaps;
  }

  lemma {:induction false} RunOneMore(cfg: Config, s: Play, es: seq<Event>, e: Event)
    requires cfg.Valid()
    ensures Run(cfg, s, es + [e]) == Step(cfg, Run(cfg, s, es), e)
    decreases |es|
  {
    hide Step;
    if es == [] {
      assert [e][1..] == [] && es + [e] == [e];
    } else {
      assert (es + [e])[1..] == es[1..] + [e];
      RunOneMore(cfg, Step(cfg, s, es[0]), es[1..], e);
    }
  }

  /** The peer of a class 2 transaction puts that code on record, and takes it for its own status. */
  lemma PeerTakesCode(tcfg: Config, t: T.Tx, p: Pdu)
    requires p.Fin? && t.reliable && t.flags.finCount == 0 && tcfg.ackLimit > 0
    ensures var u := T.Recv(tcfg, t, true, p);
            && u.fin == T.Report(p.cc, p.dc, p.fs)
            && u.stat == (if IsError(t.stat) then t.stat else if !t.hold && t.sub.DataNormal? then EARLY_FIN else p.cc)
  {}

  // ------------------------------------------------------------------ what becomes of the file

  /** u is what the disposal of the file of r leaves.  If all was fine the file is in place; if not, the temporary file
      is gone.  The delivery code says whether the file was complete, the file status whether it is in place and, if
      it is not, whether the file store refused it; a FIN follows in class 2, and in class 1 if it was requested. */
  predicate Disposed(r: Rx, fine: bool, u: Rx) {
    && !u.file.open && u.file.store.dst == (if fine then Some(r.file.store.temp) else r.file.store.dst)
    && (r.flags.tempCreated ==> u.file.store.temp == [])
    && (if !r.flags.tempCreated then u.reports.finDc == DC_INVALID && u.reports.finFs == FS_INVALID
        else && u.reports.finDc == (if r.com.isComplete then COMPLETE else INCOMPLETE)
             && u.reports.finFs == (if fine then RETAINED
                                    else if u.stat == FILESTORE_REJECTION then DISCARDED_FILESTORE else DISCARDED))
    && (u.sub.FinAck? <==> r.reliable || r.com.closeReq) && (u.sub.FinAck? || u.sub.Complete?)
    && (fine ==> u.stat == NO_ERROR)
  }

  /** Nothing was wrong, and nothing goes wrong now. */
  predicate Fine(cfg: Config, r: Rx, io: RxIo) { r.Ok() && StateFault(cfg, r, io) == NO_ERROR }

  predicate SameMatter(r: Rx, s: Rx) {
    && s.sub == r.sub && s.file == r.file && s.flags == r.flags && s.reports == r.reports && s.stat == r.stat
    && s.reliable == r.reliable && s.com.closeReq == r.com.closeReq && s.com.isComplete == r.com.isComplete
  }

  lemma DisposalCheck(cfg: Config, r: Rx, io: RxIo)
    requires r.sub.Filestore?
    ensures Disposed(r, Fine(cfg, r, io), CheckState(cfg, r, io))
  {
    hide CrcLoop;
    hide ComputeGaps;
  }

  lemma SameDisposal(cfg: Config, r: Rx, s: Rx, io: RxIo, u: Rx, v: Rx)
    requires SameMatter(r, s) && r.sub.Filestore? && Disposed(s, Fine(cfg, s, io), u)
    requires v.file == u.file && v.reports == u.reports && v.sub == u.sub && v.stat == u.stat
    ensures Disposed(r, Fine(cfg, r, io), v)
  {
    hide CrcLoop;
    hide ComputeGaps;
  }

  lemma MaintenanceMatter(cfg: Config, r: Rx, io: RxIo)
    requires cfg.Valid()
    ensures var v := Maintenance(cfg, r, io).r;
            v.file == r.file && v.reports == r.reports && v.sub == r.sub && v.stat == r.stat
  {
    hide NakPdus;
    hide FinPdu;
  }

  /** The tick in FILESTORE disposes of the file like that. */
  lemma Disposal(cfg: Config, r: Rx, io: RxIo)
    requires cfg.Valid() && !r.hold && r.sub.Filestore? && r.inactTimer > 0
    ensures Disposed(r, Fine(cfg, r, io), Tick(cfg, r, io).r)
  {
    var s := AckTimerTick(InactTimerTick(r));
    assert SameMatter(r, s);
    hide CheckState;
    hide Maintenance;
    hide Disposed;
    hide Fine;
    DisposalCheck(cfg, s, io);
    var u := CheckState(cfg, s, io);
    MaintenanceMatter(cfg, u, io);
    SameDisposal(cfg, r, s, io, u, Maintenance(cfg, u, io).r);
  }

  /** A check in DATA_EOF finds the file complete, in a transaction that is in order. */
  predicate Finds(r: Rx, e: Event) {
    && e.Ticked? && !r.hold && r.Ok() && (r.com.inactFired || r.inactTimer > 0)
    && r.sub.DataEof? && CheckComplete(r)
  }

  predicate Found(cfg: Config, s: Play, es: seq<Event>)
    requires cfg.Valid()
    decreases |es|
  {
    es != [] && (Finds(s.r, es[0]) || Found(cfg, Step(cfg, s, es[0]), es[1..]))
  }

  lemma ArrivalFindsNothing(cfg: Config, r: Rx, class2: bool, p: Pdu, io: RxIo)
    ensures Recv(cfg, r, class2, p, io).com.isComplete == r.com.isComplete
  {
    if p.Fd? {
      FdFindsNothing(cfg, r, p.offset, p.data, io);
    }
    hide RecvFd;
  }

  lemma FdFindsNothing(cfg: Config, r: Rx, offset: nat, data: Bytes.Bytes, io: RxIo)
    ensures RecvFd(cfg, r, offset, data, io).com == r.com
  {
    hide Add;
    hide WriteAt;
  }

  lemma NextFinds(cfg: Config, r: Rx, io: RxIo)
    ensures NextState(cfg, r, io).r.com.isComplete <==>
            r.com.isComplete || (r.sub.DataEof? && r.Ok() && CheckComplete(r))
  {
    hide CalcCrcChunk;
    hide HandleFileRetention;
    hide CheckComplete;
    ValidateFinds(cfg, r, io);
    RetentionFinds(r, io);
  }

  lemma ValidateFinds(cfg: Config, r: Rx, io: RxIo)
    ensures CalcCrcChunk(cfg, r, io).com.isComplete == r.com.isComplete
  {
    hide CrcLoop;
    hide CfCrc.Finalize;
  }

  lemma RetentionFinds(r: Rx, io: RxIo)
    ensures HandleFileRetention(r, io).com == r.com
  {}

  lemma EnterFinds(cfg: Config, r: Rx, next: SubState, io: RxIo)
    ensures Enter(cfg, r, next, io).com.isComplete == r.com.isComplete
  {}

  lemma CheckFinds(cfg: Config, r: Rx, io: RxIo)
    ensures CheckState(cfg, r, io).com.isComplete <==>
            r.com.isComplete || (r.sub.DataEof? && r.Ok() && CheckComplete(r))
  {
    var c := NextState(cfg, r, io);
    NextFinds(cfg, r, io);
    EnterFinds(cfg, c.r, c.next, io);
    hide NextState;
    hide Enter;
    hide CheckComplete;
  }

  lemma MaintenanceFinds(cfg: Config, r: Rx, io: RxIo)
    requires cfg.Valid()
    ensures Maintenance(cfg, r, io).r.com.isComplete == r.com.isComplete
  {
    hide NakPdus;
    hide FinPdu;
  }

  lemma EventFinds(cfg: Config, r: Rx, e: Event)
    requires cfg.Valid()
    ensures After(cfg, r, e).com.isComplete <==> r.com.isComplete || Finds(r, e)
  {
    match e
    case Arrive(class2, p, io) =>
      ArrivalFindsNothing(cfg, r, class2, p, io);
      hide Recv;
    case Ticked(io) => TickFinds(cfg, r, io);
    case Cancelled =>
  }

  lemma TickFinds(cfg: Config, r: Rx, io: RxIo)
    requires cfg.Valid()
    ensures Tick(cfg, r, io).r.com.isComplete <==> r.com.isComplete || Finds(r, Ticked(io))
  {
    hide CheckState;
    hide Maintenance;
    hide ComputeGaps;
    MaintenanceFinds(cfg, Advance(cfg, r, io), io);
    var s := AckTimerTick(InactTimerTick(r));
    if !r.hold {
      CheckFinds(cfg, s, io);
    }
  }

  /** In every run: the FIN's delivery code is COMPLETE exactly when a check of the run found the file so. */
  lemma {:induction false} CompleteIffFound(cfg: Config, s: Play, es: seq<Event>)
    requires cfg.Valid()
    ensures Run(cfg, s, es).r.com.isComplete <==> s.r.com.isComplete || Found(cfg, s, es)
    decreases |es|
  {
    hide Finds;
    hide After;
    hide Wrote;
    if es != [] {
      EventFinds(cfg, s.r, es[0]);
      CompleteIffFound(cfg, Step(cfg, s, es[0]), es[1..]);
    }
  }

  // ------------------------------------------------------------------ the EOF on record

  /** An EOF that is taken over if none is on record. */
  predicate BringsEof(r: Rx, e: Event) { e.Arrive? && e.p.Eof? && e.class2 == r.reliable && TakesEof(r) }

  /** The first EOF of a run. */
  function FirstEof(cfg: Config, s: Play, es: seq<Event>): Option<Pdu>
    requires cfg.Valid()
    decreases |es|
  {
    if es == [] then None
    else if BringsEof(s.r, es[0]) then Some(es[0].p)
    else FirstEof(cfg, Step(cfg, s, es[0]), es[1..])
  }

  predicate OnRecord(r: Rx, p: Option<Pdu>) {
    if p.None? then r.flags.eofCount == 0
    else r.flags.eofCount > 0 && p == Some(Eof(r.reports.eofCc, r.reports.eofCrc, r.reports.eofSize))
  }

  /** The same EOF is on record, if any. */
  predicate SameEof(r: Rx, u: Rx) {
    && (u.flags.eofCount > 0 <==> r.flags.eofCount > 0)
    && u.reports.eofCc == r.reports.eofCc && u.reports.eofCrc == r.reports.eofCrc
    && u.reports.eofSize == r.reports.eofSize
  }

  lemma FdSameEof(cfg: Config, r: Rx, offset: nat, data: Bytes.Bytes, io: RxIo)
    ensures SameEof(r, RecvFd(cfg, r, offset, data, io))
  {
    hide Add;
    hide WriteAt;
  }

  /** What PDU p makes of the EOF on record, if it is looked at. */
  predicate NotesEof(r: Rx, u: Rx, looked: bool, p: Pdu) {
    if looked && p.Eof? && r.flags.eofCount == 0 then OnRecord(u, Some(p)) else SameEof(r, u)
  }

  lemma EofNoted(cfg: Config, r: Rx, p: Pdu)
    requires cfg.ackLimit > 0 && p.Eof?
    ensures NotesEof(r, RecvEof(cfg, r, p.cc, p.crc, p.size), true, p)
  {}

  lemma R1Eof(cfg: Config, r: Rx, p: Pdu, io: RxIo)
    requires cfg.ackLimit > 0
    ensures NotesEof(r, R1Recv(cfg, r, p, io), Receiving(r.sub), p)
  {
    hide RecvFd;
    hide RecvEof;
    if p.Fd? {
      FdSameEof(cfg, r, p.offset, p.data, io);
    }
    if p.Eof? {
      EofNoted(cfg, r, p);
    }
  }

  lemma R2Eof(cfg: Config, r: Rx, p: Pdu, io: RxIo)
    requires cfg.ackLimit > 0
    ensures NotesEof(r, R2Recv(cfg, r, p, io), true, p)
  {
    hide RecvFd;
    hide RecvEof;
    if p.Fd? {
      FdSameEof(cfg, r, p.offset, p.data, io);
    }
    if p.Eof? {
      EofNoted(cfg, r, p);
    }
  }

  lemma ArrivalEof(cfg: Config, r: Rx, class2: bool, p: Pdu, io: RxIo)
    requires cfg.ackLimit > 0
    ensures NotesEof(r, Recv(cfg, r, class2, p, io), BringsEof(r, Arrive(class2, p, io)), p)
  {
    hide R1Recv;
    hide R2Recv;
    hide RecvEof;
    R1Eof(cfg, r, p, io);
    R2Eof(cfg, r, p, io);
    if p.Eof? {
      EofNoted(cfg, r, p);
    }
  }

  lemma CheckSameEof(cfg: Config, r: Rx, io: RxIo)
    ensures SameEof(r, CheckState(cfg, r, io))
  {
    var c := NextState(cfg, r, io);
    NextSameEof(cfg, r, io);
    EnterSameEof(cfg, c.r, c.next, io);
    hide NextState;
    hide Enter;
  }

  lemma NextSameEof(cfg: Config, r: Rx, io: RxIo)
    ensures SameEof(r, NextState(cfg, r, io).r)
  {
    hide CalcCrcChunk;
    hide HandleFileRetention;
    hide CheckComplete;
    ValidateSameEof(cfg, r, io);
    RetentionSameEof(r, io);
  }

  lemma ValidateSameEof(cfg: Config, r: Rx, io: RxIo)
    ensures SameEof(r, CalcCrcChunk(cfg, r, io))
  {
    hide CrcLoop;
    hide CfCrc.Finalize;
  }

  lemma RetentionSameEof(r: Rx, io: RxIo)
    ensures SameEof(r, HandleFileRetention(r, io))
  {}

  lemma EnterSameEof(cfg: Config, r: Rx, next: SubState, io: RxIo)
    ensures SameEof(r, Enter(cfg, r, next, io))
  {}

  lemma MaintenanceSameEof(cfg: Config, r: Rx, io: RxIo)
    requires cfg.Valid()
    ensures SameEof(r, Maintenance(cfg, r, io).r)
  {
    hide NakPdus;
    hide FinPdu;
  }

  lemma TickSameEof(cfg: Config, r: Rx, io: RxIo)
    requires cfg.Valid()
    ensures SameEof(r, Tick(cfg, r, io).r)
  {
    hide CheckState;
    hide Maintenance;
    CheckSameEof(cfg, AckTimerTick(InactTimerTick(r)), io);
    MaintenanceSameEof(cfg, Advance(cfg, r, io), io);
  }

  lemma EventEof(cfg: Config, r: Rx, e: Event)
    requires cfg.Valid() && cfg.ackLimit > 0
    ensures if BringsEof(r, e) && r.flags.eofCount == 0 then OnRecord(After(cfg, r, e), Some(e.p))
            else SameEof(r, After(cfg, r, e))
  {
    hide Recv;
    hide Tick;
    match e
    case Arrive(class2, p, io) => ArrivalEof(cfg, r, class2, p, io);
    case Ticked(io) => TickSameEof(cfg, r, io);
    case Cancelled =>
  }

  lemma {:induction false} RecordStays(cfg: Config, s: Play, es: seq<Event>)
    requires cfg.Valid() && cfg.ackLimit > 0 && s.r.flags.eofCount > 0
    ensures SameEof(s.r, Run(cfg, s, es).r)
    decreases |es|
  {
    hide After;
    hide Wrote;
    hide BringsEof;
    if es != [] {
      EventEof(cfg, s.r, es[0]);
      RecordStays(cfg, Step(cfg, s, es[0]), es[1..]);
    }
  }

  /** In every run: what is on record is the first EOF of the run, all three fields of it. */
  lemma {:induction false} FirstEofIsOnRecord(cfg: Config, s: Play, es: seq<Event>)
    requires cfg.Valid() && cfg.ackLimit > 0 && s.r.flags.eofCount == 0
    ensures OnRecord(Run(cfg, s, es).r, FirstEof(cfg, s, es))
    decreases |es|
  {
    hide After;
    hide Wrote;
    hide BringsEof;
    if es != [] {
      EventEof(cfg, s.r, es[0]);
      var next := Step(cfg, s, es[0]);
      if BringsEof(s.r, es[0]) {
        RecordStays(cfg, next, es[1..]);
      } else {
        FirstEofIsOnRecord(cfg, next, es[1..]);
      }
    }
  }
}
