/** The first pass of a sender on its own: metadata, the whole file in pieces one after the other, and
    the EOF, in either class, however the file is cut and however often no buffer is to be had. */
module FirstPass {
  import opened Bytes
  import opened Cfdp
  import opened EndToEnd
  import CfCrc
  import T = TxSpec
  import TR = TxRetransmit
  import TS = TxSafety

  /** Repeated CF_CFDP_S_Tick_NewData, and all it sent. */
  function PassAll(cfg: Config, t: T.Tx, ios: seq<T.TxIo>): T.Sending
    decreases |ios|
  {
    if ios == [] then T.Sending(t, [])
    else
      var x := T.TickNewData(cfg, t, ios[0]);
      var rest := PassAll(cfg, x.t, ios[1..]);
      T.Sending(rest.t, x.sent + rest.sent)
  }

  /** A call that has no buffer, or whose file system works. */
  predicate Usable(src: Bytes, io: T.TxIo) { !io.canSend || GoodTx(src, io) }

  /** The pieces are src from offset k on, one after the other, none of them empty. */
  predicate Consecutive(src: Bytes, ps: seq<Pdu>, k: nat)
    decreases |ps|
  {
    if ps == [] then k == |src|
    else
      var p := ps[0];
      && p.Fd? && p.offset == k && p.data != [] && k + |p.data| <= |src| && p.data == src[k..k + |p.data|]
      && Consecutive(src, ps[1..], k + |p.data|)
  }

  /** The sender in its first pass, or at its end when there is nothing to send. */
  ghost predicate Under(src: Bytes, keep: bool, t: T.Tx, k: nat) {
    && !t.flags.sendMd
    && (Passing(src, keep, t, k) || (k == |src| == 0 && Announcing(src, keep, t)))
  }

  lemma NoBufferNoChange(cfg: Config, t: T.Tx, io: T.TxIo)
    requires !io.canSend && t.file.foffs <= t.fsize
    ensures T.TickNewData(cfg, t, io) == T.Sending(t, [])
  {}

  lemma UnderWithin(src: Bytes, keep: bool, t: T.Tx, k: nat)
    requires Under(src, keep, t, k)
    ensures k <= |src| && (t.file.foffs <= t.fsize || t.sub.DataEof?)
  {}

  lemma PassOne(cfg: Config, src: Bytes, keep: bool, t: T.Tx, k: nat, io: T.TxIo) returns (n: nat)
    requires cfg.fileChunkSize > 0 && Under(src, keep, t, k) && Usable(src, io)
    ensures var x := T.TickNewData(cfg, t, io);
            && k + n <= |src| && Under(src, keep, x.t, k + n) && Alike(t, x.t)
            && (GoodTx(src, io) ==> (n == 0 <==> k == |src|))
            && x.sent == if n == 0 then [] else [Fd(k, src[k..k + n])]
  {
    if GoodTx(src, io) {
      n := PassEither(cfg, src, keep, t, k, io);
    } else {
      n := 0;
      hide CfCrc.Digest;
    }
    hide T.TickNewData;
  }

  function Goods(src: Bytes, ios: seq<T.TxIo>): nat {
    if ios == [] then 0 else (if GoodTx(src, ios[0]) then 1 else 0) + Goods(src, ios[1..])
  }

  /** With as many good calls as bytes are left, among any without a buffer, all of them are sent. */
  lemma {:induction false} PassAllSends(cfg: Config, src: Bytes, keep: bool, t: T.Tx, k: nat, ios: seq<T.TxIo>)
    requires cfg.fileChunkSize > 0 && Under(src, keep, t, k)
    requires Goods(src, ios) >= |src| - k && forall io :: io in ios ==> Usable(src, io)
    ensures var x := PassAll(cfg, t, ios);
            Under(src, keep, x.t, |src|) && Alike(t, x.t) && Consecutive(src, x.sent, k)
    decreases |ios|
  {
    hide Under;
    hide GoodTx;
    hide T.TickNewData;
    hide Consecutive;
    UnderWithin(src, keep, t, k);
    if ios == [] {
      NonePending(src, k);
    } else {
      assert ios[0] in ios;
      var n := PassOne(cfg, src, keep, t, k, ios[0]);
      var x := T.TickNewData(cfg, t, ios[0]);
      PassAllSends(cfg, src, keep, x.t, k + n, ios[1..]);
      OneMorePiece(src, k, n, x.sent, PassAll(cfg, x.t, ios[1..]).sent);
    }
  }

  lemma NonePending(src: Bytes, k: nat)
    ensures k == |src| ==> Consecutive(src, [], k)
  {}

  /** A piece, or none, in front of the pieces behind it. */
  lemma OneMorePiece(src: Bytes, k: nat, n: nat, sent: seq<Pdu>, rest: seq<Pdu>)
    requires k + n <= |src| && sent == (if n == 0 then [] else [Fd(k, src[k..k + n])])
    requires Consecutive(src, rest, k + n)
    ensures Consecutive(src, sent + rest, k)
  {
    if n == 0 {
      assert sent + rest == rest;
    } else {
      assert (sent + rest)[1..] == rest;
    }
  }

  /** From the setup of a sender to its EOF. */
  function SendAll(cfg: Config, t: T.Tx, first: T.TxIo, ios: seq<T.TxIo>, last: T.TxIo): T.Sending {
    var a := T.Tick(cfg, t, first);
    var b := PassAll(cfg, a.t, ios);
    var c := T.Tick(cfg, b.t, last);
    T.Sending(c.t, a.sent + b.sent + c.sent)
  }

  /** The pieces of the file that such a run sends. */
  function SentPieces(cfg: Config, t: T.Tx, first: T.TxIo, ios: seq<T.TxIo>): seq<Pdu> {
    PassAll(cfg, T.Tick(cfg, t, first).t, ios).sent
  }

  /** In either class: the metadata, the whole file in consecutive pieces, the EOF with its checksum. */
  lemma Announces(cfg: Config, reliable: bool, src: Bytes, keep: bool, cmdTx: bool, closeReq: bool,
                  first: T.TxIo, ios: seq<T.TxIo>, last: T.TxIo)
    requires cfg.fileChunkSize > 0 && cfg.inactTicks > 0 && first.canSend && last.canSend
    requires Goods(src, ios) >= |src| && forall io :: io in ios ==> Usable(src, io)
    ensures var t := T.Setup(cfg, reliable, keep, cmdTx, closeReq, src);
            var x := SendAll(cfg, t, first, ios, last);
            var ps := SentPieces(cfg, t, first, ios);
            && x.sent == [Md(|src|, closeReq)] + ps + [EofOf(src)] && Consecutive(src, ps, 0)
            && Awaiting(src, keep, x.t) && x.t.reliable == reliable && x.t.com.closeReq == closeReq
            && x.t.flags.cmdTx == cmdTx && x.t.inactTimer >= cfg.inactTicks - 1
            && (reliable ==> Out(cfg, src, x.t))
  {
    var t := T.Setup(cfg, reliable, keep, cmdTx, closeReq, src);
    FirstTick(cfg, reliable, src, keep, cmdTx, closeReq, first);
    var a := T.Tick(cfg, t, first);
    assert Under(src, keep, a.t, 0);
    PassAllSends(cfg, src, keep, a.t, 0, ios);
    var b := PassAll(cfg, a.t, ios);
    UnderEnds(cfg, src, keep, b.t, last);
    hide T.Tick;
    hide T.Setup;
    hide PassAll;
    hide Under;
    hide Passing;
    hide Announcing;
    hide Awaiting;
  }

  lemma UnderEnds(cfg: Config, src: Bytes, keep: bool, t: T.Tx, io: T.TxIo)
    requires Under(src, keep, t, |src|) && t.inactTimer > 0 && io.canSend
    ensures var x := T.Tick(cfg, t, io);
            && x.sent == [EofOf(src)] && Awaiting(src, keep, x.t)
            && x.t.reliable == t.reliable && x.t.com.closeReq == t.com.closeReq && x.t.flags.cmdTx == t.flags.cmdTx
            && x.t.inactTimer >= t.inactTimer - 1
            && (t.reliable ==> Out(cfg, src, x.t))
  {
    EofTick(cfg, src, keep, t, io);
    hide T.Tick;
    hide Awaiting;
  }

  // ------------------------------------------------------------------ ticks

  /** Repeated ticks of the sender. */
  function TxTicks(cfg: Config, t: T.Tx, ios: seq<T.TxIo>): T.Sending
    decreases |ios|
  {
    if ios == [] then T.Sending(t, [])
    else
      var x := T.Tick(cfg, t, ios[0]);
      var rest := TxTicks(cfg, x.t, ios[1..]);
      T.Sending(rest.t, x.sent + rest.sent)
  }

  lemma TwoTxTicks(cfg: Config, t: T.Tx, io1: T.TxIo, io2: T.TxIo)
    ensures var x := T.Tick(cfg, t, io1);
            var y := T.Tick(cfg, x.t, io2);
            TxTicks(cfg, t, [io1, io2]) == T.Sending(y.t, x.sent + y.sent)
  {
    hide T.Tick;
    var x := T.Tick(cfg, t, io1);
    var y := T.Tick(cfg, x.t, io2);
    assert [io1, io2][1..] == [io2] && [io2][1..] == [];
    assert TxTicks(cfg, x.t, [io2]).sent == y.sent + [];
  }
}
