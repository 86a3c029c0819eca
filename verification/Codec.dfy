/** The encoder and decoder objects of cf_codec.c working on a buffer in place, tied to the values
    of CodecSpec and CodecPdus. */
module Codec {
  import opened Bytes
  import opened Cfdp
  import opened CodecSpec
  import opened CodecPdus
  import opened Wrappers

  /** CF_CFDP_GetValueEncodedSize; the limit is shifted in 64 bits. */
  method ValueEncodedSize(value: nat) returns (minSize: nat)
    requires value < Pow256(8)
    ensures minSize == GetValueEncodedSize(value)
  {
    hide Pow256;
    var limit := 0x100;
    Powers();
    minSize := 1;
    while minSize < 8 && value >= limit
      invariant 1 <= minSize <= 8 && (minSize < 8 ==> limit == Pow256(minSize))
      invariant EncodedSizeFrom(value, minSize) == GetValueEncodedSize(value)
    {
      Powers();
      limit := limit * 0x100 % 0x1_0000_0000_0000_0000;
      minSize := minSize + 1;
    }
  }

  /** The powers below 2^64 are not cut by a 64-bit shift. */
  lemma Powers()
    ensures Pow256(1) == 0x100
    ensures forall n :: 1 <= n < 7 ==> Pow256(n + 1) == Pow256(n) * 0x100 % 0x1_0000_0000_0000_0000
  {
    assert Pow256(2) == 0x1_0000 && Pow256(3) == 0x100_0000;
    assert Pow256(4) == 0x1_0000_0000 && Pow256(5) == 0x100_0000_0000;
    assert Pow256(6) == 0x1_0000_0000_0000 && Pow256(7) == 0x100_0000_0000_0000;
  }

  /** CF_EncoderState_t. */
  class Encoder {
    const base: array<Byte>
    var ok: bool
    var nextOffset: nat

    ghost function View(): Enc
      reads this, base
    {
      Enc(ok, nextOffset, base[..])
    }

    /** CF_CFDP_CodecReset. */
    constructor (buffer: array<Byte>)
      ensures base == buffer && View() == Enc(true, 0, buffer[..])
    {
      base, ok, nextOffset := buffer, true, 0;
    }

    /** CF_CFDP_DoEncodeChunk: where the chunk goes, if it fits. */
    method DoEncodeChunk(size: nat) returns (fits: bool, at: nat)
      modifies this
      ensures View() == Reserve(old(View()), size) && fits == ok && at == old(nextOffset)
    {
      at := nextOffset;
      if nextOffset + size > base.Length {
        ok := false;
      } else {
        nextOffset := nextOffset + size;
      }
      fits := ok;
    }

    /** A chunk whose bytes are known. */
    method PutBytes(data: Bytes)
      modifies this, base
      ensures View() == Put(old(View()), data)
    {
      var fits, at := DoEncodeChunk(|data|);
      if fits {
        forall i | 0 <= i < |data| {
          base[at + i] := data[i];
        }
        assert base[..] == Overwrite(old(base[..]), at, data);
      }
    }

    /** The loop of CF_EncodeIntegerInSize: from the last byte to the first. */
    method StoreInteger(v: nat, size: nat, at: nat)
      requires at + size <= base.Length
      modifies base
      ensures base[..] == Overwrite(old(base[..]), at, BE(v, size))
    {
      hide BE;
      var left, value := size, v;
      while left > 0
        invariant 0 <= left <= size
        invariant base[..at] == old(base[..at]) && base[at + size..] == old(base[at + size..])
        invariant BE(value, left) + base[at + left..at + size] == BE(v, size)
      {
        BELast(value, left);
        left := left - 1;
        base[at + left] := value % 0x100;
        assert base[at + left..at + size] == [value % 0x100] + base[at + left + 1..at + size];
        value := value / 0x100;
      }
      BELast(value, 1);
      assert base[at..at + size] == BE(v, size);
    }

    /** CF_EncodeIntegerInSize. */
    method EncodeIntegerInSize(v: nat, size: nat)
      modifies this, base
      ensures View() == EncodeInteger(old(View()), v, size)
    {
      hide BE;
      var fits, at := DoEncodeChunk(size);
      if fits {
        StoreInteger(v, size, at);
      }
    }

    /** CF_CFDP_EncodeLV. */
    method EncodeLV(data: Bytes)
      requires |data| < 0x100
      modifies this, base
      ensures View() == EncodeLv(old(View()), data)
    {
      hide Put;
      PutBytes([|data|]);
      if ok && |data| > 0 {
        PutBytes(data);
      }
    }

    /** CF_CFDP_EncodeTLV. */
    method EncodeTLV(t: Tlv)
      requires t.Valid()
      modifies this, base
      ensures View() == EncodeTlv(old(View()), t)
    {
      hide Put;
      hide BE;
      match t {
        case EidTlv(length, eid) =>
          PutBytes([ENTITY_ID, length]);
          if ok {
            EncodeIntegerInSize(eid, length);
          }
        case OtherTlv(kind, data) =>
          PutBytes([kind, |data|]);
          if ok && |data| > 0 {
            PutBytes(data);
          }
      }
    }

    /** CF_CFDP_EncodeAllTlv. */
    method EncodeTlvs(ts: seq<Tlv>)
      requires AllValid(ts)
      modifies this, base
      ensures View() == EncodeAllTlv(old(View()), ts)
    {
      hide EncodeTlv;
      var i := 0;
      assert ts[0..] == ts;
      while ok && i < |ts|
        invariant 0 <= i <= |ts|
        invariant EncodeAllTlv(View(), ts[i..]) == EncodeAllTlv(old(View()), ts)
      {
        assert ts[i..] == [ts[i]] + ts[i + 1..];
        EncodeTLV(ts[i]);
        i := i + 1;
      }
      if i == |ts| {
        assert ts[i..] == [];
      }
    }

    /** CF_CFDP_EncodeAllSegments. */
    method EncodeSegments(ss: seq<Segment>)
      modifies this, base
      ensures View() == EncodeAllSegments(old(View()), ss)
    {
      hide Put;
      hide WireSegment;
      var i := 0;
      assert ss[0..] == ss;
      while ok && i < |ss|
        invariant 0 <= i <= |ss|
        invariant EncodeAllSegments(View(), ss[i..]) == EncodeAllSegments(old(View()), ss)
      {
        assert ss[i..] == [ss[i]] + ss[i + 1..];
        PutBytes(WireSegment(ss[i]));
        i := i + 1;
      }
      if i == |ss| {
        assert ss[i..] == [];
      }
    }

    /** CF_CFDP_EncodeFin. */
    method EncodeFinPdu(f: FinPdu)
      requires f.Valid()
      modifies this, base
      ensures View() == EncodeFin(old(View()), f)
    {
      hide Put;
      hide FinFlags;
      PutBytes([FinFlags(f)]);
      if ok {
        EncodeTlvs(f.tlvs);
      }
    }

    /** CF_CFDP_EncodeEof. */
    method EncodeEofPdu(f: EofPdu)
      requires f.Valid()
      modifies this, base
      ensures View() == EncodeEof(old(View()), f)
    {
      hide Put;
      hide EofHead;
      PutBytes(EofHead(f));
      if ok {
        EncodeTlvs(f.tlvs);
      }
    }

    /** CF_CFDP_EncodeNak. */
    method EncodeNakPdu(n: NakPdu)
      modifies this, base
      ensures View() == EncodeNak(old(View()), n)
    {
      hide Put;
      hide NakHead;
      PutBytes(NakHead(n));
      if ok {
        EncodeSegments(n.segments);
      }
    }

    /** CF_CFDP_EncodeAck. */
    method EncodeAckPdu(a: AckPdu)
      modifies this, base
      ensures View() == EncodeAck(old(View()), a)
    {
      PutBytes(WireAck(a));
    }

    /** CF_CFDP_EncodeFileDataHeader, and the data behind it. */
    method EncodeFileDataPdu(f: FileDataPdu, withMeta: bool)
      modifies this, base
      ensures View() == EncodeFileData(old(View()), f, withMeta)
    {
      hide Put;
      hide MetaByte;
      hide BE;
      if withMeta {
        PutBytes([MetaByte(f)]);
        if ok {
          EncodeSegments(f.segments);
        }
      }
      PutBytes(BE(f.offset, 4));
      PutBytes(f.data);
    }

    /** CF_CFDP_EncodeMd. */
    method EncodeMdPdu(m: MdPdu)
      requires m.Valid()
      modifies this, base
      ensures View() == EncodeMd(old(View()), m)
    {
      hide Put;
      hide MdHead;
      hide EncodeLv;
      PutBytes(MdHead(m));
      if ok {
        EncodeLV(m.source);
        EncodeLV(m.dest);
      }
    }

    /** CF_CFDP_EncodeHeaderWithoutSize: the two length bytes stay as they are. */
    method EncodeHeaderWithoutSize(h: Header)
      requires h.Valid()
      modifies this, base
      ensures View() == EncodeHeader(old(View()), h)
    {
      hide HeaderFlags;
      hide HeaderLengths;
      hide BE;
      ghost var was := View();
      var fits, at := DoEncodeChunk(4);
      if fits {
        base[at] := HeaderFlags(h);
        base[at + 3] := HeaderLengths(h);
        assert base[..] == Overwrite(was.buf, at, WireFixed(h, LengthField(was)));
        assert View() == Put(was, WireFixed(h, LengthField(was)));
        hide Put;
        hide WireFixed;
        EncodeIntegerInSize(h.sourceEid, h.eidLength);
        EncodeIntegerInSize(h.sequenceNum, h.tsnLength);
        EncodeIntegerInSize(h.destEid, h.eidLength);
      }
    }

    /** CF_CFDP_EncodeHeaderFinalSize. */
    method EncodeHeaderFinalSize(length: nat)
      modifies this, base
      ensures View() == FinalSize(old(View()), length)
    {
      if ok && nextOffset >= 4 && base.Length >= 4 {
        BELast(length, 2);
        BELast(length / 0x100, 1);
        base[2] := length % 0x100;
        base[1] := length / 0x100 % 0x100;
        assert BE(length, 2) == [length / 0x100 % 0x100, length % 0x100];
        assert base[..] == Overwrite(old(base[..]), 1, BE(length, 2));
      }
      ok := false;
    }
  }

  lemma BELast(v: nat, n: nat)
    requires n > 0
    ensures BE(v, n) == BE(v / 0x100, n - 1) + [v % 0x100] && BE(v, 0) == []
  {}

  /** CF_DecoderState_t over the received bytes. */
  class Decoder {
    const base: Bytes
    var ok: bool
    var nextOffset: nat

    ghost function View(): Dec
      reads this
    {
      Dec(ok, nextOffset, base)
    }

    constructor (received: Bytes)
      ensures View() == Dec(true, 0, received)
    {
      base, ok, nextOffset := received, true, 0;
    }

    /** CF_CFDP_DoDecodeChunk. */
    method DoDecodeChunk(size: nat) returns (found: Option<Bytes>)
      modifies this
      ensures Take(old(View()), size) == Parsed(View(), found)
    {
      var at := nextOffset;
      if nextOffset + size > |base| {
        ok := false;
      } else {
        nextOffset := nextOffset + size;
      }
      found := if ok then Some(base[at..at + size]) else None;
    }

    /** CF_DecodeIntegerInSize: from the first byte to the last, in a 64-bit accumulator. */
    method DecodeIntegerInSize(size: nat) returns (found: Option<nat>)
      modifies this
      ensures DecodeInteger(old(View()), size) == Parsed(View(), found)
    {
      hide Take;
      hide BigEndian;
      var chunk := DoDecodeChunk(size);
      label Taken:
      found := None;
      if chunk.Some? {
        var b, value: nat := chunk.value, 0;
        Accumulates(b, 0);
        for i := 0 to |b|
          invariant value == FromBE(b[..i]) && unchanged@Taken(this)
        {
          Accumulates(b, i);
          value := (value * 0x100 + b[i]) % 0x1_0000_0000_0000_0000;
        }
        assert b[..|b|] == b;
        found := Some(value);
      }
    }

    /** CF_CFDP_DecodeAllSegments. */
    method DecodeSegmentList(limit: nat) returns (found: Option<seq<Segment>>)
      modifies this
      ensures DecodeAllSegments(old(View()), limit) == Parsed(View(), found)
    {
      hide Take;
      hide BigEndian;
      var left := limit;
      var list: seq<Segment> := [];
      PrependNothing(DecodeAllSegments(View(), left));
      while left > 0 && nextOffset < |base|
        invariant left >= 0
        invariant DecodeAllSegments(old(View()), limit) == Prepend(list, DecodeAllSegments(View(), left))
      {
        ghost var d := View();
        left := left - 1;
        TakeLength(d, 8);
        var h := DoDecodeChunk(8);
        if h.None? {
          assert DecodeAllSegments(d, left + 1) == Parsed(View(), None);
          return None;
        }
        var s := Segment(Load32(h.value[..4]), Load32(h.value[4..]));
        assert DecodeSegment(d) == Parsed(View(), Some(s));
        assert DecodeAllSegments(d, left + 1) == Prepend([s], DecodeAllSegments(View(), left));
        PrependTwice(list, s, DecodeAllSegments(View(), left));
        list := list + [s];
      }
      assert list + [] == list;
      found := if ok then Some(list) else None;
    }
  }

  /** The list found so far, before the rest. */
  function Prepend(list: seq<Segment>, p: Parsed<seq<Segment>>): Parsed<seq<Segment>> {
    Parsed(p.d, if p.value.Some? then Some(list + p.value.value) else None)
  }

  lemma PrependNothing(p: Parsed<seq<Segment>>)
    ensures Prepend([], p) == p
  {
    if p.value.Some? {
      assert [] + p.value.value == p.value.value;
    }
  }

  lemma PrependTwice(list: seq<Segment>, s: Segment, p: Parsed<seq<Segment>>)
    ensures Prepend(list, Prepend([s], p)) == Prepend(list + [s], p)
  {
    if p.value.Some? {
      assert list + ([s] + p.value.value) == list + [s] + p.value.value;
    }
  }

  lemma TakeLength(d: Dec, n: nat)
    ensures Take(d, n).value.Some? ==> |Take(d, n).value.value| == n
  {}

  /** CF_Codec_Load_uint32. */
  function Load32(b: Bytes): (v: nat)
    requires |b| == 4
    ensures v == BigEndian(b)
  {
    LoadsFour(b);
    (((b[0] as int) * 0x100 + b[1]) * 0x100 + b[2]) * 0x100 + b[3]
  }

  lemma LoadsFour(b: Bytes)
    requires |b| == 4
    ensures BigEndian(b) == (((b[0] as int) * 0x100 + b[1]) * 0x100 + b[2]) * 0x100 + b[3]
  {
    assert b[..3][..2] == b[..2] && b[..2][..1] == b[..1] && b[..1][..0] == [];
    assert BigEndian(b[..1]) == b[0];
    assert BigEndian(b[..2]) == (b[0] as int) * 0x100 + b[1];
  }

  lemma Accumulates(b: Bytes, i: nat)
    requires i <= |b|
    ensures FromBE([]) == 0 && b[..0] == []
    ensures i < |b| ==> FromBE(b[..i + 1]) == (FromBE(b[..i]) * 0x100 + b[i]) % 0x1_0000_0000_0000_0000
  {
    Powers();
    assert Pow256(8) == 0x1_0000_0000_0000_0000;
    if i < |b| {
      assert b[..i + 1][..i] == b[..i];
      var x := BigEndian(b[..i]);
      assert BigEndian(b[..i + 1]) == x * 0x100 + b[i];
      hide Pow256;
      hide BigEndian;
      ShiftMod(x, b[i]);
    }
  }

  lemma ShiftMod(x: nat, b: Byte)
    ensures (x % 0x1_0000_0000_0000_0000 * 0x100 + b) % 0x1_0000_0000_0000_0000 ==
            (x * 0x100 + b) % 0x1_0000_0000_0000_0000
  {
    var m := 0x1_0000_0000_0000_0000;
    assert x == x / m * m + x % m;
    assert x * 0x100 + b == (x % m * 0x100 + b) + x / m * 0x100 * m;
  }
}
