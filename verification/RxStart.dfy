/** How a receive transaction begins: what it means for the whole run that its temporary file cannot be
    created, or that the history entry it is given already holds an error. */
module RxStart {
  import opened Cfdp
  import opened ChunkSpec
  import opened GapSpec
  import opened RxFaults
  import opened RxHistory
  import opened RxSpec
  import opened Wrappers
  import CfCrc

  /** What goes wrong before the first event. */
  function OpenFault(openOk: bool): nat { if openOk then NO_ERROR else FILESTORE_REJECTION }

  /** In every run of a new transaction: its status is the first thing that went wrong, the creation of
      the temporary file included. */
  lemma NewStatus(cfg: Config, reliable: bool, openOk: bool, es: seq<Event>)
    requires cfg.Valid()
    ensures ErrorOf(Run(cfg, Start(cfg, reliable, NO_ERROR, openOk), es).r.stat) ==
            if openOk then FirstFault(cfg, Start(cfg, reliable, NO_ERROR, openOk), es) else FILESTORE_REJECTION
  {
    var s := Start(cfg, reliable, NO_ERROR, openOk);
    assert ErrorOf(s.r.stat) == OpenFault(openOk);
    FirstFaultIsStatus(cfg, s, es);
    hide Run;
    hide FirstFault;
  }

  // ------------------------------------------------------------------ without a file

  predicate Fileless(r: Rx) {
    && !r.flags.tempCreated && !r.file.open && r.file.store.dst.None?
    && r.reports.finDc == DC_INVALID && r.reports.finFs == FS_INVALID
  }

  lemma FilelessFd(cfg: Config, r: Rx, offset: nat, data: Bytes.Bytes, io: RxIo)
    requires Fileless(r)
    ensures Fileless(RecvFd(cfg, r, offset, data, io))
  {
    hide Add;
    hide WriteAt;
  }

  lemma FilelessR1(cfg: Config, r: Rx, p: Pdu, io: RxIo)
    requires Fileless(r)
    ensures Fileless(R1Recv(cfg, r, p, io))
  {
    hide RecvFd;
    if p.Fd? {
      FilelessFd(cfg, r, p.offset, p.data, io);
    }
  }

  lemma FilelessR2(cfg: Config, r: Rx, p: Pdu, io: RxIo)
    requires Fileless(r)
    ensures Fileless(R2Dispatch(cfg, r, p, io))
  {
    hide RecvFd;
    if p.Fd? {
      FilelessFd(cfg, r, p.offset, p.data, io);
    }
  }

  lemma FilelessRecv(cfg: Config, r: Rx, class2: bool, p: Pdu, io: RxIo)
    requires Fileless(r)
    ensures Fileless(Recv(cfg, r, class2, p, io))
  {
    hide R1Recv;
    hide R2Dispatch;
    FilelessR1(cfg, r, p, io);
    FilelessR2(cfg, r, p, io);
  }

  lemma FilelessCrc(cfg: Config, r: Rx, io: RxIo)
    requires Fileless(r)
    ensures Fileless(CalcCrcChunk(cfg, r, io))
  {
    hide CfCrc.Finalize;
  }

  lemma FilelessDataEof(cfg: Config, r: Rx)
    requires Fileless(r)
    ensures Fileless(CheckDataEof(cfg, r).r)
  {
    hide CheckComplete;
  }

  lemma FilelessRetention(r: Rx, io: RxIo)
    requires Fileless(r)
    ensures Fileless(HandleFileRetention(r, io))
  {}

  lemma FilelessNext(cfg: Config, r: Rx, io: RxIo)
    requires Fileless(r)
    ensures Fileless(NextState(cfg, r, io).r)
  {
    hide CalcCrcChunk;
    hide HandleFileRetention;
    hide CheckDataEof;
    match r.sub
    case DataEof => FilelessDataEof(cfg, r);
    case Validate => FilelessCrc(cfg, r, io);
    case Filestore => FilelessRetention(r, io);
    case _ =>
  }

  lemma FilelessCheck(cfg: Config, r: Rx, io: RxIo)
    requires Fileless(r)
    ensures Fileless(CheckState(cfg, r, io))
  {
    hide NextState;
    FilelessNext(cfg, r, io);
  }

  lemma FilelessMaintenance(cfg: Config, r: Rx, io: RxIo)
    requires cfg.Valid() && Fileless(r)
    ensures Fileless(Maintenance(cfg, r, io).r)
  {
    hide NakPdus;
    hide FinPdu;
  }

  lemma FilelessTimers(r: Rx)
    requires Fileless(r)
    ensures Fileless(AckTimerTick(InactTimerTick(r))) && Fileless(InactTimerTick(r))
  {}

  lemma FilelessTick(cfg: Config, r: Rx, io: RxIo)
    requires cfg.Valid() && Fileless(r)
    ensures Fileless(Tick(cfg, r, io).r)
  {
    hide CheckState;
    hide Maintenance;
    hide AckTimerTick;
    hide InactTimerTick;
    hide Fileless;
    FilelessTimers(r);
    FilelessCheck(cfg, AckTimerTick(InactTimerTick(r)), io);
    FilelessMaintenance(cfg, Advance(cfg, r, io), io);
  }

  lemma {:induction false} FilelessRun(cfg: Config, s: Play, es: seq<Event>)
    requires cfg.Valid() && Fileless(s.r)
    ensures Fileless(Run(cfg, s, es).r)
    decreases |es|
  {
    hide Recv;
    hide Tick;
    hide Wrote;
    hide Fileless;
    if es != [] {
      match es[0] {
        case Arrive(class2, p, io) => FilelessRecv(cfg, s.r, class2, p, io);
        case Ticked(io) => FilelessTick(cfg, s.r, io);
        case Cancelled => FilelessCancel(s.r);
      }
      FilelessRun(cfg, Step(cfg, s, es[0]), es[1..]);
    }
  }

  lemma FilelessCancel(r: Rx)
    requires Fileless(r)
    ensures Fileless(Cancel(r))
  {}

  /** A transaction that could not create its temporary file: in no run is a file put in place, and
      every FIN it sends says FILESTORE_REJECTION.  Its codes are the invalid ones, which go out as
      COMPLETE and DISCARDED. */
  lemma RefusedFile(cfg: Config, reliable: bool, es: seq<Event>, io: RxIo, p: Pdu)
    requires cfg.Valid()
    ensures Run(cfg, Start(cfg, reliable, NO_ERROR, false), es).r.file.store.dst.None?
    ensures p in Tick(cfg, Run(cfg, Start(cfg, reliable, NO_ERROR, false), es).r, io).sent && p.Fin? ==>
              p == Fin(FILESTORE_REJECTION, COMPLETE, DISCARDED)
  {
    hide Run;
    hide Tick;
    var s := Start(cfg, reliable, NO_ERROR, false);
    var r := Run(cfg, s, es).r;
    FilelessRun(cfg, s, es);
    FilelessTick(cfg, r, io);
    NewStatus(cfg, reliable, false, es + [Ticked(io)]);
    RunOneMore(cfg, s, es, Ticked(io));
    if p in Tick(cfg, r, io).sent && p.Fin? {
      FinCarriesStatus(cfg, r, io, p);
    }
  }

  // ------------------------------------------------------------------ with an error from before

  predicate Mute(r: Rx) { r.hold && !r.reliable && !r.flags.sendNak && !r.flags.sendFin && IsError(r.stat) }

  lemma MuteAfter(cfg: Config, r: Rx, e: Event)
    requires cfg.Valid() && Mute(r)
    ensures Mute(After(cfg, r, e))
    ensures e.Ticked? ==> Tick(cfg, r, e.io).sent == []
  {
    hide CheckState;
    hide NakPdus;
    hide FinPdu;
    hide RecvFd;
  }

  lemma {:induction false} MuteRun(cfg: Config, s: Play, es: seq<Event>)
    requires cfg.Valid() && Mute(s.r)
    ensures Mute(Run(cfg, s, es).r)
    decreases |es|
  {
    hide After;
    hide Wrote;
    hide Mute;
    if es != [] {
      MuteAfter(cfg, s.r, es[0]);
      MuteRun(cfg, Step(cfg, s, es[0]), es[1..]);
    }
  }

  /** A transaction whose history entry held an error is in HOLD from the start: whatever arrives, in
      either class, it never sends anything, and what it ends with is that error. */
  lemma HeldFromTheStart(cfg: Config, reliable: bool, stat: int, openOk: bool, es: seq<Event>, io: RxIo)
    requires cfg.Valid() && IsError(stat)
    ensures var r := Run(cfg, Start(cfg, reliable, stat, openOk), es).r;
            r.hold && r.stat == stat && Tick(cfg, r, io).sent == []
  {
    hide Run;
    hide Tick;
    var s := Start(cfg, reliable, stat, openOk);
    MuteRun(cfg, s, es);
    MuteAfter(cfg, Run(cfg, s, es).r, Ticked(io));
    FirstFaultIsStatus(cfg, s, es);
  }
}
