/** How much one call does: the piece of the file a sender puts into one PDU, and the part of the file a
    receiver checks in one wakeup. */
module Throttles {
  import opened Bytes
  import opened Cfdp
  import R = RxSpec
  import T = TxSpec

  // ------------------------------------------------------------------ the sender

  /** n is the least of three numbers. */
  predicate Least(n: nat, a: nat, b: nat, c: nat) { n <= a && n <= b && n <= c && (n == a || n == b || n == c) }

  lemma PieceIsLeast(cfg: Config, f: T.TxFile, offset: nat, want: nat, calcCrc: bool, io: T.TxIo)
    ensures var d := T.SendFileData(cfg, f, offset, want, calcCrc, io);
            if d.result.Sent?
            then |d.sent| == 1 && d.sent[0].Fd? && d.sent[0].offset == offset && |d.sent[0].data| == d.result.n
                 && Least(d.result.n, want, io.room, cfg.fileChunkSize)
            else d.sent == []
  {}

  /** A piece of the first pass is as long as what is left of the file, the room in the packet and the
      configured size of a piece allow. */
  lemma NewPieceSize(cfg: Config, t: T.Tx, io: T.TxIo)
    ensures var x := T.SendNewData(cfg, t, io);
            x.sent == []
            || (&& |x.sent| == 1 && x.sent[0].Fd? && t.file.foffs < t.fsize && x.sent[0].offset == t.file.foffs
                && Least(|x.sent[0].data|, t.fsize - t.file.foffs, io.room, cfg.fileChunkSize))
  {
    hide T.SendFileData;
    if t.file.foffs < t.fsize {
      PieceIsLeast(cfg, t.file, t.file.foffs, t.fsize - t.file.foffs, true, io);
    }
  }

  /** A piece that is sent again, the same with the lowest request. */
  lemma RepeatedPieceSize(cfg: Config, t: T.Tx, io: T.TxIo)
    ensures var x := T.TickNak(cfg, t, io);
            x.sent == []
            || (&& |x.sent| == 1 && x.sent[0].Fd? && t.chunks != [] && x.sent[0].offset == t.chunks[0].offset
                && Least(|x.sent[0].data|, t.chunks[0].size, io.room, cfg.fileChunkSize))
  {
    hide T.SendFileData;
    if t.chunks != [] {
      PieceIsLeast(cfg, t.file, t.chunks[0].offset, t.chunks[0].size, false, io);
    }
  }

  // ------------------------------------------------------------------ the receiver

  /** The least multiple of 1024 that is not below n. */
  function RoundUp(n: nat): nat { (n + 1023) / 1024 * 1024 }

  /** How far a wakeup gets that has read count bytes before. */
  function Reach(cfg: Config, f: R.RxFile, count: nat): nat {
    var budget := if count < cfg.crcBytesPerWakeup then cfg.crcBytesPerWakeup - count else 0;
    Min(f.size, f.cachedPos + RoundUp(budget))
  }

  /** The file can be read to its announced end. */
  predicate Readable(f: R.RxFile) { f.open && f.cachedPos == f.store.pos <= f.size <= |f.store.temp| }

  lemma ReachMore(size: nat, pos: nat, limit: nat, count: nat)
    requires count < limit && pos < size
    ensures var n := Min(1024, size - pos);
            var rest := if count + n < limit then limit - (count + n) else 0;
            Min(size, pos + RoundUp(limit - count)) == Min(size, pos + n + RoundUp(rest))
  {}

  lemma LoopStep(cfg: Config, f: R.RxFile, count: nat, goodReads: nat)
    requires Readable(f) && goodReads > 0 && count < cfg.crcBytesPerWakeup && f.cachedPos < f.size
    ensures var n := Min(1024, f.size - f.cachedPos);
            var g := R.CrcRead(f, n);
            && R.CrcLoop(cfg, f, count, goodReads) == R.CrcLoop(cfg, g, count + n, goodReads - 1)
            && Readable(g) && g.cachedPos == f.cachedPos + n && g.size == f.size
  {}

  lemma LoopEnds(cfg: Config, f: R.RxFile, count: nat, goodReads: nat)
    requires f.cachedPos <= f.size && (count >= cfg.crcBytesPerWakeup || f.cachedPos == f.size)
    ensures var w := R.CrcLoop(cfg, f, count, goodReads); w.ok && w.file.cachedPos == Reach(cfg, f, count)
  {}

  lemma {:induction false} LoopReaches(cfg: Config, f: R.RxFile, count: nat, goodReads: nat)
    requires Readable(f) && goodReads >= f.size - f.cachedPos
    ensures var w := R.CrcLoop(cfg, f, count, goodReads); w.ok && w.file.cachedPos == Reach(cfg, f, count)
    decreases f.size - f.cachedPos
  {
    hide R.CrcLoop;
    hide R.CrcRead;
    hide RoundUp;
    if count < cfg.crcBytesPerWakeup && f.cachedPos < f.size {
      var n := Min(1024, f.size - f.cachedPos);
      LoopStep(cfg, f, count, goodReads);
      ReachMore(f.size, f.cachedPos, cfg.crcBytesPerWakeup, count);
      LoopReaches(cfg, R.CrcRead(f, n), count + n, goodReads - 1);
    } else {
      LoopEnds(cfg, f, count, goodReads);
    }
  }

  /** One wakeup of a check whose file can be read takes it on by the configured number of bytes, rounded
      up to whole blocks of 1024, or to the end of the file; at the end, and only there, the checksum is
      final. */
  lemma WakeupReaches(cfg: Config, r: R.Rx, io: R.RxIo)
    requires Readable(r.file) && io.goodReads >= r.file.size - r.file.cachedPos
    ensures var u := R.CalcCrcChunk(cfg, r, io);
            && u.file.cachedPos == Min(r.file.size, r.file.cachedPos + RoundUp(cfg.crcBytesPerWakeup))
            && u.stat == r.stat
            && (u.com.crcComplete <==> r.com.crcComplete || u.file.cachedPos == r.file.size)
  {
    hide R.CrcLoop;
    hide RoundUp;
    LoopReaches(cfg, r.file, 0, io.goodReads);
    LoopSize(cfg, r.file, 0, io.goodReads);
  }

  lemma {:induction false} LoopSize(cfg: Config, f: R.RxFile, count: nat, goodReads: nat)
    ensures R.CrcLoop(cfg, f, count, goodReads).file.size == f.size
    decreases f.size - f.cachedPos
  {
    if count < cfg.crcBytesPerWakeup && f.cachedPos < f.size {
      var n := Min(R.CRC_CHUNK, f.size - f.cachedPos);
      if f.open && goodReads > 0 && f.store.pos + n <= |f.store.temp| {
        LoopSize(cfg, R.CrcRead(f, n), count + n, goodReads - 1);
      }
    }
  }
}
