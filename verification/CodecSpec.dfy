/** The CFDP codec (cf_codec.c) as values: an encoder or decoder is a buffer with a bounded cursor
    and a sticky error flag, and every PDU has a wire form. */
module CodecSpec {
  import opened Bytes
  import opened Cfdp
  import opened Wrappers

  // ------------------------------------------------------------------ integers

  /** CF_DecodeIntegerInSize on the bytes it has: a 64-bit accumulator. */
  function FromBE(b: Bytes): nat {
    BigEndian(b) % Pow256(8)
  }

  lemma {:induction false} PowMonotone(m: nat, n: nat)
    requires m <= n
    ensures 0 < Pow256(m) <= Pow256(n)
    decreases n
  {
    if m < n {
      PowMonotone(m, n - 1);
    } else if m > 0 {
      PowMonotone(m - 1, n - 1);
    }
  }

  /** An integer that fits its width comes back, at any width up to eight bytes. */
  lemma IntegerRoundTrip(v: nat, n: nat)
    requires n <= 8 && v < Pow256(n)
    ensures FromBE(BE(v, n)) == v
  {
    hide Pow256;
    hide BE;
    hide BigEndian;
    BERoundTrip(v, n);
    PowMonotone(n, 8);
    SmallMod(v, Pow256(8));
  }

  lemma SmallMod(x: nat, m: nat)
    requires x < m
    ensures x % m == x
  {}

  /** CF_CFDP_GetValueEncodedSize. */
  function EncodedSizeFrom(v: nat, n: nat): (size: nat)
    requires 1 <= n <= 8
    decreases 8 - n
  {
    if n < 8 && v >= Pow256(n) then EncodedSizeFrom(v, n + 1) else n
  }

  function GetValueEncodedSize(v: nat): nat { EncodedSizeFrom(v, 1) }

  lemma {:induction false} EncodedSizeLeast(v: nat, n: nat)
    requires 1 <= n <= 8 && v < Pow256(8)
    ensures n <= EncodedSizeFrom(v, n) <= 8 && v < Pow256(EncodedSizeFrom(v, n))
    ensures forall m :: n <= m < EncodedSizeFrom(v, n) ==> v >= Pow256(m)
    decreases 8 - n
  {
    hide Pow256;
    if n < 8 && v >= Pow256(n) {
      EncodedSizeLeast(v, n + 1);
    }
  }

  /** The reported width is the least that is sufficient. */
  lemma LeastWidth(v: nat, m: nat)
    requires v < Pow256(8) && 1 <= m <= 8
    ensures 1 <= GetValueEncodedSize(v) <= 8
    ensures FromBE(BE(v, GetValueEncodedSize(v))) == v
    ensures v < Pow256(m) <==> GetValueEncodedSize(v) <= m
  {
    hide Pow256;
    hide BE;
    hide FromBE;
    EncodedSizeLeast(v, 1);
    IntegerRoundTrip(v, GetValueEncodedSize(v));
    if GetValueEncodedSize(v) <= m {
      PowMonotone(GetValueEncodedSize(v), m);
    }
  }

  // ------------------------------------------------------------------ bit fields

  function Pow2(n: nat): (p: nat)
    requires n <= 8
    ensures p > 0
  {
    match n
    case 0 => 1 case 1 => 2 case 2 => 4 case 3 => 8 case 4 => 16
    case 5 => 32 case 6 => 64 case 7 => 128 case 8 => 256
  }

  /** FGV: bits shift .. shift + width of a byte. */
  function GetField(b: Byte, width: nat, shift: nat): nat
    requires shift + width <= 8
  {
    b / Pow2(shift) % Pow2(width)
  }

  /** What FSV adds to a byte whose field is still zero: the value is cut to the field's width. */
  function Field(width: nat, shift: nat, val: nat): nat
    requires shift + width <= 8
  {
    val % Pow2(width) * Pow2(shift)
  }

  // ------------------------------------------------------------------ the encoder

  /** CF_EncoderState_t; the size of the buffer is the maximum. */
  datatype Enc = Enc(ok: bool, pos: nat, buf: Bytes) {
    predicate Valid() { pos <= |buf| }
  }

  function Overwrite(buf: Bytes, pos: nat, data: Bytes): Bytes
    requires pos + |data| <= |buf|
  {
    buf[..pos] + data + buf[pos + |data|..]
  }

  /** CF_CFDP_CodecCheckSize: the cursor moves only inside the buffer; failing is for good. */
  function Reserve(e: Enc, n: nat): Enc {
    if e.pos + n > |e.buf| then e.(ok := false) else e.(pos := e.pos + n)
  }

  /** CF_CFDP_DoEncodeChunk, and the bytes its caller stores. */
  function Put(e: Enc, data: Bytes): Enc {
    var r := Reserve(e, |data|);
    if r.ok then r.(buf := Overwrite(e.buf, e.pos, data)) else r
  }

  /** From e to f the bytes w were appended, or they did not fit and f is in error. */
  ghost predicate Emits(e: Enc, f: Enc, w: Bytes) {
    && |f.buf| == |e.buf| && (e.Valid() ==> f.Valid()) && (!e.ok ==> !f.ok)
    && (e.ok && e.Valid() ==>
          if e.pos + |w| <= |e.buf| then f == Enc(true, e.pos + |w|, Overwrite(e.buf, e.pos, w)) else !f.ok)
  }

  lemma PutEmits(e: Enc, w: Bytes)
    ensures Emits(e, Put(e, w), w)
  {}

  lemma OverwriteTwice(buf: Bytes, pos: nat, v: Bytes, w: Bytes)
    requires pos + |v| + |w| <= |buf|
    ensures Overwrite(Overwrite(buf, pos, v), pos + |v|, w) == Overwrite(buf, pos, v + w)
  {}

  /** Appending v and then w appends v + w. */
  lemma EmitsThen(e: Enc, m: Enc, f: Enc, v: Bytes, w: Bytes)
    requires Emits(e, m, v) && (m.ok ==> Emits(m, f, w))
    requires !m.ok ==> !f.ok && |f.buf| == |m.buf| && (m.Valid() ==> f.Valid())
    ensures Emits(e, f, v + w)
  {
    if e.ok && e.Valid() && e.pos + |v| + |w| <= |e.buf| {
      OverwriteTwice(e.buf, e.pos, v, w);
    }
  }

  // ------------------------------------------------------------------ the decoder

  /** CF_DecoderState_t. */
  datatype Dec = Dec(ok: bool, pos: nat, buf: Bytes) {
    predicate Valid() { pos <= |buf| }
    function Remain(): nat { if pos <= |buf| then |buf| - pos else 0 }
  }

  /** A decoder after a step, and what it found; nothing if it is in error. */
  datatype Parsed<+T> = Parsed(d: Dec, value: Option<T>)

  /** CF_CFDP_DoDecodeChunk. */
  function Take(d: Dec, n: nat): Parsed<Bytes> {
    var next := if d.pos + n > |d.buf| then d.(ok := false) else d.(pos := d.pos + n);
    if next.ok then Parsed(next, Some(d.buf[d.pos..d.pos + n])) else Parsed(next, None)
  }

  /** The bytes w lie at the cursor of an undamaged decoder. */
  predicate At(d: Dec, w: Bytes) {
    d.ok && d.pos + |w| <= |d.buf| && d.buf[d.pos..d.pos + |w|] == w
  }

  function Skip(d: Dec, n: nat): Dec { d.(pos := d.pos + n) }

  lemma TakeAt(d: Dec, w: Bytes)
    requires At(d, w)
    ensures Take(d, |w|) == Parsed(Skip(d, |w|), Some(w))
  {}

  lemma AtSplit(d: Dec, v: Bytes, w: Bytes)
    requires At(d, v + w)
    ensures At(d, v) && At(Skip(d, |v|), w) && Skip(Skip(d, |v|), |w|) == Skip(d, |v + w|)
  {
    assert d.buf[d.pos..d.pos + |v|] == (v + w)[..|v|];
    assert d.buf[d.pos + |v|..d.pos + |v| + |w|] == (v + w)[|v|..];
  }

  /** What an encoder appended is there for a decoder to read. */
  lemma EmittedIsAt(e: Enc, f: Enc, w: Bytes)
    requires Emits(e, f, w) && e.ok && e.Valid() && f.ok
    ensures At(Dec(true, e.pos, f.buf), w) && Skip(Dec(true, e.pos, f.buf), |w|) == Dec(true, f.pos, f.buf)
  {}

  // ------------------------------------------------------------------ integers and strings

  function EncodeInteger(e: Enc, v: nat, n: nat): Enc { Put(e, BE(v, n)) }

  /** CF_DecodeIntegerInSize. */
  function DecodeInteger(d: Dec, n: nat): Parsed<nat> {
    var p := Take(d, n);
    Parsed(p.d, if p.value.Some? then Some(FromBE(p.value.value)) else None)
  }

  lemma IntegerAt(d: Dec, v: nat, n: nat)
    requires At(d, BE(v, n)) && n <= 8 && v < Pow256(n)
    ensures DecodeInteger(d, n) == Parsed(Skip(d, n), Some(v))
  {
    hide BE;
    hide Pow256;
    hide FromBE;
    hide At;
    hide Take;
    TakeAt(d, BE(v, n));
    IntegerRoundTrip(v, n);
  }

  /** The wire form of a length and value pair. */
  function WireLv(data: Bytes): Bytes
    requires |data| < 0x100
  {
    [|data|] + data
  }

  /** CF_CFDP_EncodeLV. */
  function EncodeLv(e: Enc, data: Bytes): Enc
    requires |data| < 0x100
  {
    var l := Put(e, [|data|]);
    if l.ok && data != [] then Put(l, data) else l
  }

  /** CF_CFDP_DecodeLV. */
  function DecodeLv(d: Dec): Parsed<Bytes> {
    var l := Take(d, 1);
    if l.value.Some? then Take(l.d, l.value.value[0]) else Parsed(l.d, None)
  }

  lemma EncodeLvEmits(e: Enc, data: Bytes)
    requires |data| < 0x100
    ensures Emits(e, EncodeLv(e, data), WireLv(data))
  {
    var l := Put(e, [|data|]);
    PutEmits(e, [|data|]);
    PutEmits(l, data);
    assert data == [] ==> WireLv(data) == [|data|];
    EmitsNothing(l);
    EmitsThen(e, l, EncodeLv(e, data), [|data|], data);
  }

  lemma EmitsNothing(e: Enc)
    ensures Emits(e, e, [])
  {}

  lemma LvAt(d: Dec, data: Bytes)
    requires |data| < 0x100 && At(d, WireLv(data))
    ensures DecodeLv(d) == Parsed(Skip(d, |WireLv(data)|), Some(data))
  {
    AtSplit(d, [|data|], data);
    TakeAt(d, [|data|]);
    TakeAt(Skip(d, 1), data);
  }

  // ------------------------------------------------------------------ type, length, value

  const ENTITY_ID := 6
  const MAX_TLV := 4

  /** The entity id is the one type whose value is an integer. */
  datatype Tlv = EidTlv(length: nat, eid: nat) | OtherTlv(kind: nat, data: Bytes) {
    predicate Valid() {
      match this
      case EidTlv(length, eid) => length <= 8 && eid < TWO_32 && eid < Pow256(length)
      case OtherTlv(kind, data) => kind < 0x100 && kind != ENTITY_ID && |data| < 0x100
    }
  }

  function WireTlv(t: Tlv): Bytes
    requires t.Valid()
  {
    match t
    case EidTlv(length, eid) => [ENTITY_ID, length] + BE(eid, length)
    case OtherTlv(kind, data) => [kind, |data|] + data
  }

  /** CF_CFDP_EncodeTLV. */
  function EncodeTlv(e: Enc, t: Tlv): Enc
    requires t.Valid()
  {
    match t
    case EidTlv(length, eid) =>
      var h := Put(e, [ENTITY_ID, length]);
      if h.ok then EncodeInteger(h, eid, length) else h
    case OtherTlv(kind, data) =>
      var h := Put(e, [kind, |data|]);
      if h.ok && data != [] then Put(h, data) else h
  }

  /** CF_CFDP_DecodeTLV; entity ids are kept in 32 bits. */
  function DecodeTlv(d: Dec): Parsed<Tlv> {
    var h := Take(d, 2);
    if h.value.None? then Parsed(h.d, None)
    else
      var kind, length := h.value.value[0], h.value.value[1];
      if kind == ENTITY_ID then
        var v := DecodeInteger(h.d, length);
        Parsed(v.d, if v.value.Some? then Some(EidTlv(length, v.value.value % TWO_32)) else None)
      else
        var v := Take(h.d, length);
        Parsed(v.d, if v.value.Some? then Some(OtherTlv(kind, v.value.value)) else None)
  }

  lemma EncodeTlvEmits(e: Enc, t: Tlv)
    requires t.Valid()
    ensures Emits(e, EncodeTlv(e, t), WireTlv(t))
  {
    match t
    case EidTlv(length, eid) =>
      var h := Put(e, [ENTITY_ID, length]);
      PutEmits(e, [ENTITY_ID, length]);
      PutEmits(h, BE(eid, length));
      EmitsThen(e, h, EncodeTlv(e, t), [ENTITY_ID, length], BE(eid, length));
    case OtherTlv(kind, data) =>
      var h := Put(e, [kind, |data|]);
      PutEmits(e, [kind, |data|]);
      PutEmits(h, data);
      EmitsNothing(h);
      EmitsThen(e, h, EncodeTlv(e, t), [kind, |data|], data);
  }

  lemma TlvAt(d: Dec, t: Tlv)
    requires t.Valid() && At(d, WireTlv(t))
    ensures DecodeTlv(d) == Parsed(Skip(d, |WireTlv(t)|), Some(t))
  {
    hide BE;
    hide Pow256;
    hide FromBE;
    hide DecodeInteger;
    hide Take;
    match t
    case EidTlv(length, eid) =>
      var h: Bytes := [ENTITY_ID, length];
      AtSplit(d, h, BE(eid, length));
      TakeAt(d, h);
      IntegerAt(Skip(d, 2), eid, length);
      hide At;
    case OtherTlv(kind, data) =>
      var h: Bytes := [kind, |data|];
      AtSplit(d, h, data);
      TakeAt(d, h);
      TakeAt(Skip(d, 2), data);
      hide At;
  }

  predicate AllValid(ts: seq<Tlv>) { forall i :: 0 <= i < |ts| ==> ts[i].Valid() }

  function WireTlvs(ts: seq<Tlv>): Bytes
    requires AllValid(ts)
  {
    if ts == [] then [] else WireTlv(ts[0]) + WireTlvs(ts[1..])
  }

  /** CF_CFDP_EncodeAllTlv. */
  function EncodeAllTlv(e: Enc, ts: seq<Tlv>): Enc
    requires AllValid(ts)
    decreases |ts|
  {
    if e.ok && ts != [] then EncodeAllTlv(EncodeTlv(e, ts[0]), ts[1..]) else e
  }

  /** CF_CFDP_DecodeAllTlv: until the PDU is used up, the limit is reached, or an error. */
  function DecodeAllTlv(d: Dec, limit: nat): Parsed<seq<Tlv>>
    decreases limit
  {
    if limit > 0 && d.Remain() != 0 then
      var p := DecodeTlv(d);
      if p.value.None? then Parsed(p.d, None)
      else
        var rest := DecodeAllTlv(p.d, limit - 1);
        Parsed(rest.d, if rest.value.Some? then Some([p.value.value] + rest.value.value) else None)
    else Parsed(d, if d.ok then Some([]) else None)
  }

  lemma {:induction false} EncodeAllTlvEmits(e: Enc, ts: seq<Tlv>)
    requires AllValid(ts)
    ensures Emits(e, EncodeAllTlv(e, ts), WireTlvs(ts))
    decreases |ts|
  {
    hide EncodeTlv;
    hide WireTlv;
    if ts == [] {
      EmitsNothing(e);
    } else {
      var m := EncodeTlv(e, ts[0]);
      EncodeTlvEmits(e, ts[0]);
      EncodeAllTlvEmits(m, ts[1..]);
      if e.ok {
        EmitsThen(e, m, EncodeAllTlv(e, ts), WireTlv(ts[0]), WireTlvs(ts[1..]));
      } else {
        ErrorStays(e, WireTlvs(ts));
      }
    }
  }

  lemma ErrorStays(e: Enc, w: Bytes)
    requires !e.ok
    ensures Emits(e, e, w)
  {}

  lemma WireTlvLength(t: Tlv)
    requires t.Valid()
    ensures |WireTlv(t)| >= 2
  {}

  lemma AtRemain(d: Dec, w: Bytes)
    requires At(d, w)
    ensures d.ok && (w != [] ==> d.Remain() != 0)
  {}

  lemma DecodeAllTlvStep(d: Dec, limit: nat, t: Tlv, d1: Dec, rest: seq<Tlv>, d2: Dec)
    requires limit > 0 && d.Remain() != 0 && DecodeTlv(d) == Parsed(d1, Some(t))
    requires DecodeAllTlv(d1, limit - 1) == Parsed(d2, Some(rest))
    ensures DecodeAllTlv(d, limit) == Parsed(d2, Some([t] + rest))
  {
    hide DecodeTlv;
  }

  lemma DecodeAllTlvEnd(d: Dec, limit: nat)
    requires d.ok && (limit == 0 || d.pos == |d.buf|)
    ensures DecodeAllTlv(d, limit) == Parsed(Skip(d, 0), Some([]))
  {}

  lemma {:induction false} AllTlvAt(d: Dec, ts: seq<Tlv>, limit: nat)
    requires AllValid(ts) && |ts| <= limit && At(d, WireTlvs(ts))
    requires |ts| == limit || d.pos + |WireTlvs(ts)| == |d.buf|
    ensures DecodeAllTlv(d, limit) == Parsed(Skip(d, |WireTlvs(ts)|), Some(ts))
    decreases |ts|
  {
    hide WireTlv;
    hide DecodeTlv;
    hide DecodeAllTlv;
    if ts == [] {
      DecodeAllTlvEnd(d, limit);
    } else {
      hide At;
      hide Tlv.Valid;
      var v, w := WireTlv(ts[0]), WireTlvs(ts[1..]);
      var d1 := Skip(d, |v|);
      AtSplit(d, v, w);
      TlvAt(d, ts[0]);
      WireTlvLength(ts[0]);
      AtRemain(d, v);
      AllTlvAt(d1, ts[1..], limit - 1);
      DecodeAllTlvStep(d, limit, ts[0], d1, ts[1..], Skip(d1, |w|));
      assert ts == [ts[0]] + ts[1..];
    }
  }

  // ------------------------------------------------------------------ segment requests

  predicate SegmentOk(s: Segment) { s.start < TWO_32 && s.end < TWO_32 }

  predicate SegmentsOk(ss: seq<Segment>) { forall i :: 0 <= i < |ss| ==> SegmentOk(ss[i]) }

  function WireSegment(s: Segment): (w: Bytes)
    ensures |w| == 8
  {
    BE(s.start, 4) + BE(s.end, 4)
  }

  function WireSegments(ss: seq<Segment>): Bytes {
    if ss == [] then [] else WireSegment(ss[0]) + WireSegments(ss[1..])
  }

  /** CF_CFDP_EncodeAllSegments, over CF_CFDP_EncodeSegmentRequest. */
  function EncodeAllSegments(e: Enc, ss: seq<Segment>): Enc
    decreases |ss|
  {
    if e.ok && ss != [] then EncodeAllSegments(Put(e, WireSegment(ss[0])), ss[1..]) else e
  }

  /** CF_CFDP_DecodeSegmentRequest. */
  function DecodeSegment(d: Dec): Parsed<Segment> {
    var h := Take(d, 8);
    Parsed(h.d, if h.value.None? then None
                else Some(Segment(BigEndian(h.value.value[..4]), BigEndian(h.value.value[4..]))))
  }

  /** CF_CFDP_DecodeAllSegments. */
  function DecodeAllSegments(d: Dec, limit: nat): Parsed<seq<Segment>>
    decreases limit
  {
    if limit > 0 && d.Remain() != 0 then
      var p := DecodeSegment(d);
      if p.value.None? then Parsed(p.d, None)
      else
        var rest := DecodeAllSegments(p.d, limit - 1);
        Parsed(rest.d, if rest.value.Some? then Some([p.value.value] + rest.value.value) else None)
    else Parsed(d, if d.ok then Some([]) else None)
  }

  lemma {:induction false} EncodeAllSegmentsEmits(e: Enc, ss: seq<Segment>)
    ensures Emits(e, EncodeAllSegments(e, ss), WireSegments(ss))
    decreases |ss|
  {
    hide WireSegment;
    if ss == [] {
      EmitsNothing(e);
    } else {
      var m := Put(e, WireSegment(ss[0]));
      PutEmits(e, WireSegment(ss[0]));
      EncodeAllSegmentsEmits(m, ss[1..]);
      if e.ok {
        EmitsThen(e, m, EncodeAllSegments(e, ss), WireSegment(ss[0]), WireSegments(ss[1..]));
      } else {
        ErrorStays(e, WireSegments(ss));
      }
    }
  }

  lemma Word32(v: nat)
    requires v < TWO_32
    ensures BigEndian(BE(v, 4)) == v
  {
    assert Pow256(4) == TWO_32 by {
      assert Pow256(4) == 0x100 * Pow256(3) && Pow256(3) == 0x100 * Pow256(2);
    }
    BERoundTrip(v, 4);
  }

  lemma SegmentAt(d: Dec, s: Segment)
    requires SegmentOk(s) && At(d, WireSegment(s))
    ensures DecodeSegment(d) == Parsed(Skip(d, 8), Some(s))
  {
    hide BE;
    hide BigEndian;
    TakeAt(d, WireSegment(s));
    Word32(s.start);
    Word32(s.end);
    assert WireSegment(s)[..4] == BE(s.start, 4) && WireSegment(s)[4..] == BE(s.end, 4);
  }

  lemma DecodeAllSegmentsStep(d: Dec, limit: nat, t: Segment, d1: Dec, rest: seq<Segment>, d2: Dec)
    requires limit > 0 && d.Remain() != 0 && DecodeSegment(d) == Parsed(d1, Some(t))
    requires DecodeAllSegments(d1, limit - 1) == Parsed(d2, Some(rest))
    ensures DecodeAllSegments(d, limit) == Parsed(d2, Some([t] + rest))
  {
    hide DecodeSegment;
  }

  lemma DecodeAllSegmentsEnd(d: Dec, limit: nat)
    requires d.ok && (limit == 0 || d.pos == |d.buf|)
    ensures DecodeAllSegments(d, limit) == Parsed(Skip(d, 0), Some([]))
  {}

  lemma {:induction false} AllSegmentsAt(d: Dec, ss: seq<Segment>, limit: nat)
    requires SegmentsOk(ss) && |ss| <= limit && At(d, WireSegments(ss))
    requires |ss| == limit || d.pos + |WireSegments(ss)| == |d.buf|
    ensures DecodeAllSegments(d, limit) == Parsed(Skip(d, |WireSegments(ss)|), Some(ss))
    decreases |ss|
  {
    hide WireSegment;
    hide DecodeSegment;
    hide DecodeAllSegments;
    if ss == [] {
      DecodeAllSegmentsEnd(d, limit);
    } else {
      hide At;
      hide SegmentOk;
      var v, w := WireSegment(ss[0]), WireSegments(ss[1..]);
      var d1 := Skip(d, 8);
      AtSplit(d, v, w);
      SegmentAt(d, ss[0]);
      AtRemain(d, v);
      AllSegmentsAt(d1, ss[1..], limit - 1);
      DecodeAllSegmentsStep(d, limit, ss[0], d1, ss[1..], Skip(d1, |w|));
      assert ss == [ss[0]] + ss[1..];
    }
  }
}
