/** Packets bit by bit, as the tables of sections 5.1 and 5.2 of CCSDS 727.0-B-5 lay them out: the
    fields one after the other, each in its number of bits, most significant bit first. */
module WireLayout {
  import opened Bytes
  import opened Cfdp
  import opened CodecSpec
  import opened CodecPdus
  import opened CodecPackets
  import opened Wrappers

  /** The low bits of a number, most significant first. */
  function Bits(v: nat, width: nat): (b: seq<bool>)
    ensures |b| == width
    decreases width
  {
    if width == 0 then [] else Bits(v / 2, width - 1) + [v % 2 == 1]
  }

  /** The bits of octets in the order of transmission. */
  function BitsOf(w: Bytes): seq<bool> {
    if w == [] then [] else Bits(w[0], 8) + BitsOf(w[1..])
  }

  // ------------------------------------------------------------------ the layout

  function LvBits(data: Bytes): seq<bool> { Bits(|data|, 8) + BitsOf(data) }

  /** An entity id is a number of the given length. */
  function TlvBits(t: Tlv): seq<bool> {
    match t
    case EidTlv(length, eid) => Bits(6, 8) + Bits(length, 8) + Bits(eid, 8 * length)
    case OtherTlv(kind, data) => Bits(kind, 8) + LvBits(data)
  }

  function TlvsBits(ts: seq<Tlv>): seq<bool> {
    if ts == [] then [] else TlvBits(ts[0]) + TlvsBits(ts[1..])
  }

  function SegmentsBits(ss: seq<Segment>): seq<bool> {
    if ss == [] then [] else Bits(ss[0].start, 32) + Bits(ss[0].end, 32) + SegmentsBits(ss[1..])
  }

  /** The fields of a PDU behind the common header and the directive code. */
  function BodyBits(b: Body): seq<bool> {
    match b
    case Data(fd) => Bits(fd.offset, 32) + BitsOf(fd.data)
    case Eof(eof) => Bits(eof.cc, 4) + Bits(0, 4) + Bits(eof.crc, 32) + Bits(eof.size, 32) + TlvsBits(eof.tlvs)
    case Fin(fin) =>
      Bits(fin.cc, 4) + Bits(0, 1) + Bits(fin.deliveryCode, 1) + Bits(fin.fileStatus, 2) + TlvsBits(fin.tlvs)
    case Ack(ack) =>
      (Bits(ack.directive, 4) + Bits(ack.subtype, 4)) + (Bits(ack.cc, 4) + Bits(0, 2) + Bits(ack.status, 2))
    case Md(md) =>
      Bits(md.closeReq, 1) + Bits(0, 3) + Bits(md.checksumType, 4) + Bits(md.size, 32)
      + (LvBits(md.source) + LvBits(md.dest))
    case Nak(nak) => Bits(nak.scopeStart, 32) + Bits(nak.scopeEnd, 32) + SegmentsBits(nak.segments)
  }

  /** File data has no directive code. */
  function CodedBits(b: Body): seq<bool> {
    match b
    case Data(_) => BodyBits(b)
    case Eof(_) => Bits(4, 8) + BodyBits(b)
    case Fin(_) => Bits(5, 8) + BodyBits(b)
    case Ack(_) => Bits(6, 8) + BodyBits(b)
    case Md(_) => Bits(7, 8) + BodyBits(b)
    case Nak(_) => Bits(8, 8) + BodyBits(b)
  }

  /** The fields of the common header; the lengths of the ids go out minus one. */
  function HeaderBits(h: Header, length: nat): seq<bool>
    requires h.Valid()
  {
    (Bits(h.version, 3) + Bits(h.pduType, 1) + Bits(h.direction, 1) + Bits(h.txmMode, 1) + Bits(0, 1) + Bits(0, 1))
    + Bits(length, 16)
    + (Bits(h.segCtl, 1) + Bits(h.eidLength - 1, 3) + Bits(h.segMeta, 1) + Bits(h.tsnLength - 1, 3))
    + (Bits(h.sourceEid, 8 * h.eidLength) + (Bits(h.sequenceNum, 8 * h.tsnLength) + Bits(h.destEid, 8 * h.eidLength)))
  }

  // ------------------------------------------------------------------ bits

  function Two(n: nat): (p: nat)
    ensures p > 0
  {
    if n == 0 then 1 else 2 * Two(n - 1)
  }

  lemma BitsStep(v: nat, w: nat)
    requires w > 0
    ensures Bits(v, w) == Bits(v / 2, w - 1) + [v % 2 == 1]
  {}

  lemma JoinNothing(x: nat, y: nat, n: nat)
    requires y < Two(0)
    ensures Bits(x * Two(0) + y, n) == Bits(x, n) + Bits(y, 0)
  {}

  lemma TwoStep(m: nat)
    requires m > 0
    ensures Two(m) == 2 * Two(m - 1)
  {}

  lemma {:induction false} BitsJoin(x: nat, y: nat, n: nat, m: nat)
    requires y < Two(m)
    ensures Bits(x * Two(m) + y, n + m) == Bits(x, n) + Bits(y, m)
    decreases m
  {
    hide *;
    if m == 0 {
      JoinNothing(x, y, n);
    } else {
      TwoStep(m);
      Halved(x, Two(m - 1), y);
      BitsJoin(x, y / 2, n, m - 1);
      BitsStep(x * Two(m) + y, n + m);
      BitsStep(y, m);
      AppendLast(Bits(x, n), Bits(y / 2, m - 1), y % 2 == 1);
    }
  }

  lemma AppendLast(a: seq<bool>, b: seq<bool>, c: bool)
    ensures (a + b) + [c] == a + (b + [c])
  {}

  lemma Halved(x: nat, p: nat, y: nat)
    ensures x * (2 * p) == 2 * (x * p)
    ensures (x * (2 * p) + y) / 2 == x * p + y / 2 && (x * (2 * p) + y) % 2 == y % 2
  {
    var q := x * p;
    assert x * (2 * p) == 2 * q;
    assert (2 * q + y) / 2 == q + y / 2;
  }

  lemma Quotient(v: nat, p: nat)
    requires p > 0
    ensures v == v / p * p + v % p && v % p < p
  {}

  /** A field of width m behind the others; only its low bits count. */
  lemma FieldBits(x: nat, v: nat, n: nat, m: nat, p: nat)
    requires p == Two(m)
    ensures Bits(x * p + v % p, n + m) == Bits(x, n) + Bits(v, m)
  {
    hide *;
    BelowTwo(v, m);
    var r := v % p;
    BitsJoin(x, r, n, m);
    KeptBits(v, m, p);
  }

  lemma BelowTwo(v: nat, m: nat)
    ensures v % Two(m) < Two(m)
  {
    hide Two;
  }

  lemma KeptBits(v: nat, m: nat, p: nat)
    requires p == Two(m)
    ensures Bits(v % p, m) == Bits(v, m)
  {
    hide *;
    Quotient(v, p);
    var q, r := v / p, v % p;
    BitsJoin(q, r, 0, m);
    NoBits(q, r, m);
  }

  lemma NoBits(q: nat, r: nat, m: nat)
    ensures Bits(q, 0) + Bits(r, m) == Bits(r, m)
  {}

  lemma Powers()
    ensures Two(1) == 2 && Two(2) == 4 && Two(3) == 8 && Two(4) == 16 && Two(6) == 64 && Two(8) == 256
  {
    assert Two(2) == 2 * Two(1);
    assert Two(4) == 2 * Two(3);
    assert Two(6) == 2 * (2 * Two(4));
    assert Two(8) == 2 * (2 * Two(6));
  }

  lemma BitsOfFirst(w: Bytes)
    requires w != []
    ensures BitsOf(w) == Bits(w[0], 8) + BitsOf(w[1..])
  {}

  lemma BitsOfNone(w: Bytes)
    ensures BitsOf([]) == [] && [] + w == w && BitsOf([]) + BitsOf(w) == BitsOf(w)
  {}

  lemma Tail(v: Bytes, w: Bytes)
    requires v != []
    ensures (v + w)[0] == v[0] && (v + w)[1..] == v[1..] + w
  {}

  lemma {:induction false} BitsOfJoin(v: Bytes, w: Bytes)
    ensures BitsOf(v + w) == BitsOf(v) + BitsOf(w)
    decreases |v|
  {
    hide *;
    if v == [] {
      BitsOfNone(w);
    } else {
      BitsOfJoin(v[1..], w);
      BitsOfFirst(v);
      BitsOfFirst(v + w);
      Tail(v, w);
      Associate(Bits(v[0], 8), BitsOf(v[1..]), BitsOf(w));
    }
  }

  lemma Associate(a: seq<bool>, b: seq<bool>, c: seq<bool>)
    ensures a + (b + c) == (a + b) + c
  {}

  lemma BitsOfOne(b: Byte)
    ensures BitsOf([b]) == Bits(b, 8)
  {
    assert BitsOf([b][1..]) == [];
  }

  lemma BEStep(v: nat, n: nat)
    requires n > 0
    ensures BE(v, n) == BE(v / 0x100, n - 1) + [v % 0x100]
  {}

  /** An integer of n octets has 8n bits. */
  lemma {:induction false} NumberBits(v: nat, n: nat)
    ensures BitsOf(BE(v, n)) == Bits(v, 8 * n)
    decreases n
  {
    hide *;
    if n == 0 {
      NoOctets(v);
    } else {
      var x, y := v / 0x100, v % 0x100;
      BEStep(v, n);
      NumberBits(x, n - 1);
      BitsOfJoin(BE(x, n - 1), [y]);
      BitsOfOne(y);
      EightIsTwo();
      BitsJoin(x, y, 8 * (n - 1), 8);
      BitsOfLow(v);
    }
  }

  lemma NoOctets(v: nat)
    ensures BitsOf(BE(v, 0)) == Bits(v, 0)
  {}

  lemma EightIsTwo()
    ensures Two(8) == 0x100
  {
    Powers();
    hide Two;
  }

  lemma BitsOfLow(v: nat)
    ensures v / 0x100 * 0x100 + v % 0x100 == v
  {}

  // ------------------------------------------------------------------ octets of several fields

  lemma NibblesSum(a: nat, b: nat)
    ensures Nibbles(a, b) == a % 16 * 16 + b % 16
  {}

  lemma NibblesBits(a: nat, b: nat)
    ensures Bits(Nibbles(a, b), 8) == Bits(a, 4) + Bits(b, 4)
  {
    hide Bits;
    hide Two;
    hide Nibbles;
    NibblesSum(a, b);
    Powers();
    KeptBits(a, 4, 16);
    FieldBits(a % 16, b, 4, 4, 16);
  }

  lemma ConditionBits(cc: nat)
    ensures Bits(Field(4, 4, cc), 8) == Bits(cc, 4) + Bits(0, 4)
  {
    hide Bits;
    hide Two;
    Powers();
    KeptBits(cc, 4, 16);
    FieldBits(cc % 16, 0, 4, 4, 16);
  }

  lemma AckFlagsBits(cc: nat, status: nat)
    ensures Bits(Field(4, 4, cc) + Field(2, 0, status), 8) == Bits(cc, 4) + Bits(0, 2) + Bits(status, 2)
  {
    hide Bits;
    hide Two;
    Powers();
    KeptBits(cc, 4, 16);
    FieldBits(cc % 16, 0, 4, 2, 4);
    FieldBits(cc % 16 * 4, status, 6, 2, 4);
  }

  lemma FinFlagsBits(f: FinPdu)
    ensures Bits(FinFlags(f), 8) == Bits(f.cc, 4) + Bits(0, 1) + Bits(f.deliveryCode, 1) + Bits(f.fileStatus, 2)
  {
    hide Bits;
    hide Two;
    Powers();
    KeptBits(f.cc, 4, 16);
    FieldBits(f.cc % 16, 0, 4, 1, 2);
    var x := f.cc % 16 * 2;
    FieldBits(x, f.deliveryCode, 5, 1, 2);
    FieldBits(x * 2 + f.deliveryCode % 2, f.fileStatus, 6, 2, 4);
  }

  lemma MdFlagsBits(m: MdPdu)
    ensures Bits(MdFlags(m), 8) == Bits(m.closeReq, 1) + Bits(0, 3) + Bits(m.checksumType, 4)
  {
    hide Bits;
    hide Two;
    Powers();
    KeptBits(m.closeReq, 1, 2);
    FieldBits(m.closeReq % 2, 0, 1, 3, 8);
    FieldBits(m.closeReq % 2 * 8, m.checksumType, 4, 4, 16);
  }

  lemma HeaderFlagsBits(h: Header)
    ensures Bits(HeaderFlags(h), 8) ==
            Bits(h.version, 3) + Bits(h.pduType, 1) + Bits(h.direction, 1) + Bits(h.txmMode, 1) + Bits(0, 1)
            + Bits(0, 1)
  {
    hide Bits;
    hide Two;
    Powers();
    KeptBits(h.version, 3, 8);
    var v := h.version % 8;
    FieldBits(v, h.pduType, 3, 1, 2);
    var t := v * 2 + h.pduType % 2;
    FieldBits(t, h.direction, 4, 1, 2);
    var d := t * 2 + h.direction % 2;
    FieldBits(d, h.txmMode, 5, 1, 2);
    var m := d * 2 + h.txmMode % 2;
    FieldBits(m, 0, 6, 1, 2);
    FieldBits(m * 2, 0, 7, 1, 2);
    assert HeaderFlags(h) == m * 2 * 2;
  }

  lemma HeaderLengthsBits(h: Header)
    requires h.Valid()
    ensures Bits(HeaderLengths(h), 8) ==
            Bits(h.segCtl, 1) + Bits(h.eidLength - 1, 3) + Bits(h.segMeta, 1) + Bits(h.tsnLength - 1, 3)
  {
    hide Bits;
    hide Two;
    hide HeaderLengths;
    hide Pow256;
    Powers();
    HeaderLengthsSum(h);
    KeptBits(h.segCtl, 1, 2);
    var c := h.segCtl % 2;
    FieldBits(c, h.eidLength - 1, 1, 3, 8);
    var e := c * 8 + (h.eidLength - 1);
    FieldBits(e, h.segMeta, 4, 1, 2);
    FieldBits(e * 2 + h.segMeta % 2, h.tsnLength - 1, 5, 3, 8);
  }

  // ------------------------------------------------------------------ PDUs

  lemma LvLayout(data: Bytes)
    requires |data| < 0x100
    ensures BitsOf(WireLv(data)) == LvBits(data)
  {
    hide BitsOf;
    hide Bits;
    BitsOfJoin([|data|], data);
    BitsOfOne(|data|);
  }

  lemma TwoOctets(a: Byte, b: Byte)
    ensures BitsOf([a, b]) == Bits(a, 8) + Bits(b, 8)
  {
    BitsOfJoin([a], [b]);
    BitsOfOne(a);
    BitsOfOne(b);
    assert [a] + [b] == [a, b];
    hide *;
  }

  lemma TlvLayout(t: Tlv)
    requires t.Valid()
    ensures BitsOf(WireTlv(t)) == TlvBits(t)
  {
    hide BitsOf;
    hide Bits;
    hide BE;
    hide Pow256;
    match t
    case EidTlv(length, eid) =>
      BitsOfJoin([ENTITY_ID, length], BE(eid, length));
      TwoOctets(ENTITY_ID, length);
      NumberBits(eid, length);
    case OtherTlv(kind, data) =>
      BitsOfJoin([kind, |data|], data);
      TwoOctets(kind, |data|);
      Associate(Bits(kind, 8), Bits(|data|, 8), BitsOf(data));
  }

  lemma {:induction false} TlvsLayout(ts: seq<Tlv>)
    requires AllValid(ts)
    ensures BitsOf(WireTlvs(ts)) == TlvsBits(ts)
    decreases |ts|
  {
    hide BitsOf;
    hide TlvBits;
    hide WireTlv;
    if ts == [] {
      BitsOfNone([]);
    } else {
      TlvLayout(ts[0]);
      TlvsLayout(ts[1..]);
      BitsOfJoin(WireTlv(ts[0]), WireTlvs(ts[1..]));
    }
  }

  lemma TwoWords(a: nat, b: nat)
    ensures BitsOf(BE(a, 4) + BE(b, 4)) == Bits(a, 32) + Bits(b, 32)
  {
    hide BitsOf;
    hide Bits;
    hide BE;
    BitsOfJoin(BE(a, 4), BE(b, 4));
    NumberBits(a, 4);
    NumberBits(b, 4);
  }

  lemma {:induction false} SegmentsLayout(ss: seq<Segment>)
    ensures BitsOf(WireSegments(ss)) == SegmentsBits(ss)
    decreases |ss|
  {
    hide BitsOf;
    hide Bits;
    hide BE;
    if ss == [] {
      BitsOfNone([]);
    } else {
      TwoWords(ss[0].start, ss[0].end);
      SegmentsLayout(ss[1..]);
      BitsOfJoin(WireSegment(ss[0]), WireSegments(ss[1..]));
    }
  }

  lemma EofHeadLayout(f: EofPdu)
    ensures BitsOf(EofHead(f)) == Bits(f.cc, 4) + Bits(0, 4) + Bits(f.crc, 32) + Bits(f.size, 32)
  {
    hide BitsOf;
    hide Bits;
    hide BE;
    var a: Bytes := [Field(4, 4, f.cc)];
    BitsOfOne(a[0]);
    ConditionBits(f.cc);
    NumberBits(f.crc, 4);
    NumberBits(f.size, 4);
    BitsOfJoin(a, BE(f.crc, 4));
    BitsOfJoin(a + BE(f.crc, 4), BE(f.size, 4));
  }

  lemma MdHeadLayout(m: MdPdu)
    ensures BitsOf(MdHead(m)) == Bits(m.closeReq, 1) + Bits(0, 3) + Bits(m.checksumType, 4) + Bits(m.size, 32)
  {
    hide BitsOf;
    hide Bits;
    hide BE;
    hide MdFlags;
    var a: Bytes := [MdFlags(m)];
    BitsOfOne(a[0]);
    MdFlagsBits(m);
    NumberBits(m.size, 4);
    BitsOfJoin(a, BE(m.size, 4));
  }

  lemma AckLayout(a: AckPdu)
    ensures BitsOf(WireAck(a)) ==
            (Bits(a.directive, 4) + Bits(a.subtype, 4)) + (Bits(a.cc, 4) + Bits(0, 2) + Bits(a.status, 2))
  {
    hide BitsOf;
    hide Bits;
    hide Nibbles;
    NibblesBits(a.directive, a.subtype);
    AckFlagsBits(a.cc, a.status);
    TwoOctets(Nibbles(a.directive, a.subtype), Field(4, 4, a.cc) + Field(2, 0, a.status));
  }

  lemma FinLayout(f: FinPdu)
    requires f.Valid()
    ensures BitsOf(WireFin(f)) ==
            Bits(f.cc, 4) + Bits(0, 1) + Bits(f.deliveryCode, 1) + Bits(f.fileStatus, 2) + TlvsBits(f.tlvs)
  {
    hide BitsOf;
    hide Bits;
    hide FinFlags;
    hide TlvsBits;
    BitsOfOne(FinFlags(f));
    FinFlagsBits(f);
    TlvsLayout(f.tlvs);
    BitsOfJoin([FinFlags(f)], WireTlvs(f.tlvs));
  }

  lemma MdLayout(m: MdPdu)
    requires m.Valid()
    ensures BitsOf(WireMd(m)) ==
            Bits(m.closeReq, 1) + Bits(0, 3) + Bits(m.checksumType, 4) + Bits(m.size, 32)
            + (LvBits(m.source) + LvBits(m.dest))
  {
    hide BitsOf;
    hide Bits;
    hide MdHead;
    hide WireLv;
    hide LvBits;
    MdHeadLayout(m);
    LvLayout(m.source);
    LvLayout(m.dest);
    BitsOfJoin(WireLv(m.source), WireLv(m.dest));
    BitsOfJoin(MdHead(m), WireLv(m.source) + WireLv(m.dest));
  }

  lemma DataLayout(f: FileDataPdu)
    ensures BitsOf(WireFileData(f, false)) == Bits(f.offset, 32) + BitsOf(f.data)
  {
    hide BitsOf;
    hide Bits;
    hide BE;
    NumberBits(f.offset, 4);
    BitsOfJoin(BE(f.offset, 4), f.data);
    assert [] + (BE(f.offset, 4) + f.data) == BE(f.offset, 4) + f.data;
  }

  lemma BodyLayout(b: Body)
    requires b.Valid()
    ensures BitsOf(WireBody(b)) == BodyBits(b)
  {
    hide BitsOf;
    hide Bits;
    hide LvBits;
    hide TlvsBits;
    hide SegmentsBits;
    hide WireFileData;
    hide WireFin;
    hide WireAck;
    hide WireMd;
    hide EofHead;
    hide BE;
    match b
    case Data(fd) => DataLayout(fd);
    case Eof(eof) =>
      EofHeadLayout(eof);
      TlvsLayout(eof.tlvs);
      BitsOfJoin(EofHead(eof), WireTlvs(eof.tlvs));
    case Fin(fin) => FinLayout(fin);
    case Ack(ack) => AckLayout(ack);
    case Md(md) => MdLayout(md);
    case Nak(nak) =>
      TwoWords(nak.scopeStart, nak.scopeEnd);
      SegmentsLayout(nak.segments);
      BitsOfJoin(NakHead(nak), WireSegments(nak.segments));
  }

  lemma CodedLayout(b: Body)
    requires b.Valid()
    ensures BitsOf(WireCoded(b)) == CodedBits(b)
  {
    hide BitsOf;
    hide Bits;
    hide WireBody;
    hide BodyBits;
    BodyLayout(b);
    if !b.Data? {
      BitsOfOne(b.Code());
      BitsOfJoin([b.Code()], WireBody(b));
    }
  }

  lemma HeaderLayout(h: Header, length: nat)
    requires h.Valid()
    ensures BitsOf(WireFixed(h, BE(length, 2)) + WireIds(h)) == HeaderBits(h, length)
  {
    hide BitsOf;
    hide Bits;
    hide BE;
    hide Pow256;
    hide HeaderFlags;
    hide HeaderLengths;
    HeaderFlagsBits(h);
    HeaderLengthsBits(h);
    BitsOfOne(HeaderFlags(h));
    BitsOfOne(HeaderLengths(h));
    NumberBits(length, 2);
    BitsOfJoin([HeaderFlags(h)], BE(length, 2));
    BitsOfJoin([HeaderFlags(h)] + BE(length, 2), [HeaderLengths(h)]);
    NumberBits(h.sourceEid, h.eidLength);
    NumberBits(h.sequenceNum, h.tsnLength);
    NumberBits(h.destEid, h.eidLength);
    BitsOfJoin(BE(h.sequenceNum, h.tsnLength), BE(h.destEid, h.eidLength));
    BitsOfJoin(BE(h.sourceEid, h.eidLength), BE(h.sequenceNum, h.tsnLength) + BE(h.destEid, h.eidLength));
    BitsOfJoin(WireFixed(h, BE(length, 2)), WireIds(h));
  }

  /** Every packet that is sent is, bit for bit, the fields of the header and of the PDU in the order
      and width of the standard's tables, each field cut to its width. */
  lemma PacketLayout(buf: Bytes, h: Header, b: Body)
    requires h.Valid() && b.Valid() && |buf| < 0x1_0000
    ensures var p := Send(buf, h, b);
            && (p.Some? <==> 4 + |WireIds(h)| + |WireCoded(b)| <= |buf|)
            && (p.Some? ==> BitsOf(p.value) == HeaderBits(h, |WireCoded(b)|) + CodedBits(b))
  {
    hide BitsOf;
    hide Bits;
    hide Send;
    hide WireFixed;
    hide WireIds;
    hide WireCoded;
    hide HeaderBits;
    hide CodedBits;
    hide Header.Valid;
    hide Body.Valid;
    hide BE;
    SentIsWire(buf, h, b);
    var w := WireCoded(b);
    HeaderLayout(h, |w|);
    CodedLayout(b);
    BitsOfJoin(WireFixed(h, BE(|w|, 2)) + WireIds(h), w);
    if Send(buf, h, b).Some? {
      Whole(Send(buf, h, b).value, (WireFixed(h, BE(|w|, 2)) + WireIds(h)) + w);
    }
  }

  lemma Whole(p: Bytes, w: Bytes)
    requires LastAt(Dec(true, 0, p), w)
    ensures p == w
  {}
}
