/** The PDUs of CFDP class 1 and 2 on the wire (cf_codec.c; sections 5.1 and 5.2 of
    CCSDS 727.0-B-5): what each encoder appends, and that each decoder reads it back, every field
    cut to its width. */
module CodecPdus {
  import opened Bytes
  import opened Cfdp
  import opened CodecSpec
  import opened Wrappers

  // ------------------------------------------------------------------ bit fields of one byte

  /** Four and four bits. */
  function Nibbles(high: nat, low: nat): Byte { Field(4, 4, high) + Field(4, 0, low) }

  lemma NibblesBack(high: nat, low: nat)
    ensures GetField(Nibbles(high, low), 4, 4) == high % 16 && GetField(Nibbles(high, low), 4, 0) == low % 16
  {
    SixteenOne(high % 16, low % 16);
  }

  lemma SixteenOne(a: nat, b: nat)
    requires a < 16 && b < 16
    ensures (a * 16 + b) / 16 == a && (a * 16 + b) / 16 % 16 == a && (a * 16 + b) % 16 == b
  {}

  // ------------------------------------------------------------------ ACK

  datatype AckPdu = AckPdu(directive: nat, subtype: nat, cc: nat, status: nat) {
    /** The fields fit their widths. */
    predicate InRange() { directive < 16 && subtype < 16 && cc < 16 && status < 4 }
    /** What the widths of the fields leave. */
    function Cut(): AckPdu { AckPdu(directive % 16, subtype % 16, cc % 16, status % 4) }
  }

  function WireAck(a: AckPdu): Bytes {
    [Nibbles(a.directive, a.subtype), Field(4, 4, a.cc) + Field(2, 0, a.status)]
  }

  /** CF_CFDP_EncodeAck. */
  function EncodeAck(e: Enc, a: AckPdu): Enc { Put(e, WireAck(a)) }

  /** CF_CFDP_DecodeAck. */
  function DecodeAck(d: Dec): Parsed<AckPdu> {
    var h := Take(d, 2);
    if h.value.None? then Parsed(h.d, None)
    else
      var x, y := h.value.value[0], h.value.value[1];
      Parsed(h.d, Some(AckPdu(GetField(x, 4, 4), GetField(x, 4, 0), GetField(y, 4, 4), GetField(y, 2, 0))))
  }

  lemma AckAt(d: Dec, a: AckPdu)
    requires At(d, WireAck(a))
    ensures DecodeAck(d) == Parsed(Skip(d, 2), Some(a.Cut()))
  {
    hide Nibbles;
    hide GetField;
    hide Field;
    hide Take;
    TakeAt(d, WireAck(a));
    NibblesBack(a.directive, a.subtype);
    AckFlagsBack(a);
    hide At;
  }

  lemma AckFlagsBack(a: AckPdu)
    ensures GetField(WireAck(a)[1], 4, 4) == a.cc % 16 && GetField(WireAck(a)[1], 2, 0) == a.status % 4
  {
    SixteenFour(a.cc % 16, a.status % 4);
  }

  lemma SixteenFour(a: nat, b: nat)
    requires a < 16 && b < 4
    ensures (a * 16 + b) / 16 == a && (a * 16 + b) / 16 % 16 == a && (a * 16 + b) % 4 == b
  {
    assert (a * 16 + b) == (a * 4) * 4 + b;
  }

  // ------------------------------------------------------------------ FIN

  datatype FinPdu = FinPdu(cc: nat, deliveryCode: nat, fileStatus: nat, tlvs: seq<Tlv>) {
    predicate Valid() { AllValid(tlvs) && |tlvs| <= MAX_TLV }
    predicate InRange() { cc < 16 && deliveryCode < 2 && fileStatus < 4 }
    function Cut(): FinPdu { this.(cc := cc % 16, deliveryCode := deliveryCode % 2, fileStatus := fileStatus % 4) }
  }

  function FinFlags(f: FinPdu): Byte {
    Field(4, 4, f.cc) + Field(1, 2, f.deliveryCode) + Field(2, 0, f.fileStatus)
  }

  function WireFin(f: FinPdu): Bytes
    requires f.Valid()
  {
    [FinFlags(f)] + WireTlvs(f.tlvs)
  }

  /** CF_CFDP_EncodeFin. */
  function EncodeFin(e: Enc, f: FinPdu): Enc
    requires f.Valid()
  {
    var h := Put(e, [FinFlags(f)]);
    if h.ok then EncodeAllTlv(h, f.tlvs) else h
  }

  /** CF_CFDP_DecodeFin. */
  function DecodeFin(d: Dec): Parsed<FinPdu> {
    var h := Take(d, 1);
    if h.value.None? then Parsed(h.d, None)
    else
      var x := h.value.value[0];
      var ts := DecodeAllTlv(h.d, MAX_TLV);
      Parsed(ts.d, if ts.value.Some?
                   then Some(FinPdu(GetField(x, 4, 4), GetField(x, 1, 2), GetField(x, 2, 0), ts.value.value))
                   else None)
  }

  lemma EncodeFinEmits(e: Enc, f: FinPdu)
    requires f.Valid()
    ensures Emits(e, EncodeFin(e, f), WireFin(f))
  {
    var h := Put(e, [FinFlags(f)]);
    PutEmits(e, [FinFlags(f)]);
    EncodeAllTlvEmits(h, f.tlvs);
    EmitsThen(e, h, EncodeFin(e, f), [FinFlags(f)], WireTlvs(f.tlvs));
  }

  lemma FinFlagsBack(f: FinPdu)
    ensures GetField(FinFlags(f), 4, 4) == f.cc % 16
    ensures GetField(FinFlags(f), 1, 2) == f.deliveryCode % 2
    ensures GetField(FinFlags(f), 2, 0) == f.fileStatus % 4
  {
    FourOneTwo(f.cc % 16, f.deliveryCode % 2, f.fileStatus % 4);
  }

  lemma FourOneTwo(a: nat, b: nat, c: nat)
    requires a < 16 && b < 2 && c < 4
    ensures var x := a * 16 + b * 4 + c;
            x / 16 == a && x / 16 % 16 == a && x / 4 % 2 == b && x % 4 == c
  {
    var x := a * 16 + b * 4 + c;
    assert x / 4 == a * 4 + b;
  }

  /** The decoder of a PDU with a list at its end expects the PDU to end there. */
  predicate LastAt(d: Dec, w: Bytes) { At(d, w) && d.pos + |w| == |d.buf| }

  lemma FinAt(d: Dec, f: FinPdu)
    requires f.Valid() && LastAt(d, WireFin(f))
    ensures DecodeFin(d) == Parsed(Skip(d, |WireFin(f)|), Some(f.Cut()))
  {
    AtSplit(d, [FinFlags(f)], WireTlvs(f.tlvs));
    TakeAt(d, [FinFlags(f)]);
    AllTlvAt(Skip(d, 1), f.tlvs, MAX_TLV);
    FinFlagsBack(f);
    hide DecodeAllTlv;
    hide WireTlvs;
    hide GetField;
    hide FinFlags;
  }

  // ------------------------------------------------------------------ EOF

  datatype EofPdu = EofPdu(cc: nat, crc: nat, size: nat, tlvs: seq<Tlv>) {
    predicate Valid() { crc < TWO_32 && size < TWO_32 && AllValid(tlvs) && |tlvs| <= MAX_TLV }
    predicate InRange() { cc < 16 }
    function Cut(): EofPdu { this.(cc := cc % 16) }
  }

  function EofHead(f: EofPdu): (w: Bytes)
    ensures |w| == 9
  {
    [Field(4, 4, f.cc)] + BE(f.crc, 4) + BE(f.size, 4)
  }

  function WireEof(f: EofPdu): Bytes
    requires f.Valid()
  {
    EofHead(f) + WireTlvs(f.tlvs)
  }

  /** CF_CFDP_EncodeEof. */
  function EncodeEof(e: Enc, f: EofPdu): Enc
    requires f.Valid()
  {
    var h := Put(e, EofHead(f));
    if h.ok then EncodeAllTlv(h, f.tlvs) else h
  }

  /** CF_CFDP_DecodeEof. */
  function DecodeEof(d: Dec): Parsed<EofPdu> {
    var h := Take(d, 9);
    if h.value.None? then Parsed(h.d, None)
    else
      var w := h.value.value;
      var ts := DecodeAllTlv(h.d, MAX_TLV);
      Parsed(ts.d, if ts.value.Some?
                   then Some(EofPdu(GetField(w[0], 4, 4), BigEndian(w[1..5]), BigEndian(w[5..9]), ts.value.value))
                   else None)
  }

  lemma EncodeEofEmits(e: Enc, f: EofPdu)
    requires f.Valid()
    ensures Emits(e, EncodeEof(e, f), WireEof(f))
  {
    var h := Put(e, EofHead(f));
    PutEmits(e, EofHead(f));
    EncodeAllTlvEmits(h, f.tlvs);
    EmitsThen(e, h, EncodeEof(e, f), EofHead(f), WireTlvs(f.tlvs));
  }

  lemma EofHeadBack(f: EofPdu)
    requires f.Valid()
    ensures var w := EofHead(f);
            GetField(w[0], 4, 4) == f.cc % 16 && BigEndian(w[1..5]) == f.crc && BigEndian(w[5..9]) == f.size
  {
    hide BE;
    hide BigEndian;
    var w := EofHead(f);
    Word32(f.crc);
    Word32(f.size);
    assert w[1..5] == BE(f.crc, 4) && w[5..9] == BE(f.size, 4);
  }

  lemma EofAt(d: Dec, f: EofPdu)
    requires f.Valid() && LastAt(d, WireEof(f))
    ensures DecodeEof(d) == Parsed(Skip(d, |WireEof(f)|), Some(f.Cut()))
  {
    EofHeadBack(f);
    hide DecodeAllTlv;
    hide WireTlvs;
    hide GetField;
    hide EofHead;
    hide BigEndian;
    AtSplit(d, EofHead(f), WireTlvs(f.tlvs));
    TakeAt(d, EofHead(f));
    AllTlvAt(Skip(d, 9), f.tlvs, MAX_TLV);
  }

  // ------------------------------------------------------------------ NAK

  datatype NakPdu = NakPdu(scopeStart: nat, scopeEnd: nat, segments: seq<Segment>) {
    predicate Valid() {
      scopeStart < TWO_32 && scopeEnd < TWO_32 && SegmentsOk(segments) && |segments| <= NAK_MAX_SEGMENTS
    }
  }

  function NakHead(n: NakPdu): (w: Bytes)
    ensures |w| == 8
  {
    BE(n.scopeStart, 4) + BE(n.scopeEnd, 4)
  }

  function WireNak(n: NakPdu): Bytes { NakHead(n) + WireSegments(n.segments) }

  /** CF_CFDP_EncodeNak. */
  function EncodeNak(e: Enc, n: NakPdu): Enc {
    var h := Put(e, NakHead(n));
    if h.ok then EncodeAllSegments(h, n.segments) else h
  }

  /** CF_CFDP_DecodeNak. */
  function DecodeNak(d: Dec): Parsed<NakPdu> {
    var h := Take(d, 8);
    if h.value.None? then Parsed(h.d, None)
    else
      var w := h.value.value;
      var ss := DecodeAllSegments(h.d, NAK_MAX_SEGMENTS);
      Parsed(ss.d, if ss.value.Some?
                   then Some(NakPdu(BigEndian(w[..4]), BigEndian(w[4..]), ss.value.value)) else None)
  }

  lemma EncodeNakEmits(e: Enc, n: NakPdu)
    ensures Emits(e, EncodeNak(e, n), WireNak(n))
  {
    var h := Put(e, NakHead(n));
    PutEmits(e, NakHead(n));
    EncodeAllSegmentsEmits(h, n.segments);
    EmitsThen(e, h, EncodeNak(e, n), NakHead(n), WireSegments(n.segments));
  }

  lemma NakAt(d: Dec, n: NakPdu)
    requires n.Valid() && LastAt(d, WireNak(n))
    ensures DecodeNak(d) == Parsed(Skip(d, |WireNak(n)|), Some(n))
  {
    hide DecodeAllSegments;
    hide WireSegments;
    hide BE;
    hide BigEndian;
    Word32(n.scopeStart);
    Word32(n.scopeEnd);
    AtSplit(d, NakHead(n), WireSegments(n.segments));
    TakeAt(d, NakHead(n));
    assert NakHead(n)[..4] == BE(n.scopeStart, 4) && NakHead(n)[4..] == BE(n.scopeEnd, 4);
    AllSegmentsAt(Skip(d, 8), n.segments, NAK_MAX_SEGMENTS);
  }

  // ------------------------------------------------------------------ metadata

  datatype MdPdu = MdPdu(closeReq: nat, checksumType: nat, size: nat, source: Bytes, dest: Bytes) {
    predicate Valid() { size < TWO_32 && |source| < 0x100 && |dest| < 0x100 }
    predicate InRange() { closeReq < 2 && checksumType < 16 }
    function Cut(): MdPdu { this.(closeReq := closeReq % 2, checksumType := checksumType % 16) }
  }

  function MdFlags(m: MdPdu): Byte { Field(1, 7, m.closeReq) + Field(4, 0, m.checksumType) }

  function MdHead(m: MdPdu): (w: Bytes)
    ensures |w| == 5
  {
    [MdFlags(m)] + BE(m.size, 4)
  }

  function WireMd(m: MdPdu): Bytes
    requires m.Valid()
  {
    MdHead(m) + (WireLv(m.source) + WireLv(m.dest))
  }

  /** CF_CFDP_EncodeMd. */
  function EncodeMd(e: Enc, m: MdPdu): Enc
    requires m.Valid()
  {
    var h := Put(e, MdHead(m));
    if h.ok then EncodeLv(EncodeLv(h, m.source), m.dest) else h
  }

  /** CF_CFDP_DecodeMd. */
  function DecodeMd(d: Dec): Parsed<MdPdu> {
    var h := Take(d, 5);
    if h.value.None? then Parsed(h.d, None)
    else
      var w := h.value.value;
      var s := DecodeLv(h.d);
      var t := DecodeLv(s.d);
      Parsed(t.d, if s.value.Some? && t.value.Some?
                  then Some(MdPdu(GetField(w[0], 1, 7), GetField(w[0], 4, 0), BigEndian(w[1..]), s.value.value,
                                   t.value.value))
                  else None)
  }

  lemma EncodeMdEmits(e: Enc, m: MdPdu)
    requires m.Valid()
    ensures Emits(e, EncodeMd(e, m), WireMd(m))
  {
    hide EncodeLv;
    hide WireLv;
    var h := Put(e, MdHead(m));
    PutEmits(e, MdHead(m));
    var s := EncodeLv(h, m.source);
    EncodeLvEmits(h, m.source);
    EncodeLvEmits(s, m.dest);
    var t := EncodeLv(s, m.dest);
    EmitsThen(h, s, t, WireLv(m.source), WireLv(m.dest));
    EmitsThen(e, h, EncodeMd(e, m), MdHead(m), WireLv(m.source) + WireLv(m.dest));
  }

  lemma MdHeadBack(m: MdPdu)
    requires m.Valid()
    ensures var w := MdHead(m);
            GetField(w[0], 1, 7) == m.closeReq % 2 && GetField(w[0], 4, 0) == m.checksumType % 16
            && BigEndian(w[1..]) == m.size
  {
    hide BE;
    hide BigEndian;
    Word32(m.size);
    assert MdHead(m)[1..] == BE(m.size, 4);
  }

  lemma MdAt(d: Dec, m: MdPdu)
    requires m.Valid() && At(d, WireMd(m))
    ensures DecodeMd(d) == Parsed(Skip(d, |WireMd(m)|), Some(m.Cut()))
  {
    MdHeadBack(m);
    hide MdHead;
    hide GetField;
    hide BigEndian;
    hide WireLv;
    hide DecodeLv;
    var v, w := WireLv(m.source), WireLv(m.dest);
    AtSplit(d, MdHead(m), v + w);
    TakeAt(d, MdHead(m));
    var d1 := Skip(d, 5);
    AtSplit(d1, v, w);
    LvAt(d1, m.source);
    LvAt(Skip(d1, |v|), m.dest);
  }

  // ------------------------------------------------------------------ file data

  /** The header of a file data PDU and the data behind it; withMeta says whether the common header
      announces segment metadata. */
  datatype FileDataPdu = FileDataPdu(continuation: nat, segments: seq<Segment>, offset: nat, data: Bytes) {
    predicate Valid() { SegmentsOk(segments) && |segments| <= NAK_MAX_SEGMENTS && offset < TWO_32 }
    predicate InRange(withMeta: bool) { if withMeta then continuation < 4 else continuation == 0 && segments == [] }
    function Cut(withMeta: bool): FileDataPdu {
      if withMeta then this.(continuation := continuation % 4) else this.(continuation := 0, segments := [])
    }
  }

  function MetaByte(f: FileDataPdu): Byte { Field(2, 6, f.continuation) + Field(6, 0, |f.segments|) }

  function WireMeta(f: FileDataPdu, withMeta: bool): Bytes {
    if withMeta then [MetaByte(f)] + WireSegments(f.segments) else []
  }

  function WireFileData(f: FileDataPdu, withMeta: bool): Bytes {
    WireMeta(f, withMeta) + (BE(f.offset, 4) + f.data)
  }

  /** The optional fields of CF_CFDP_EncodeFileDataHeader. */
  function EncodeMeta(e: Enc, f: FileDataPdu, withMeta: bool): Enc {
    if withMeta then
      var o := Put(e, [MetaByte(f)]);
      if o.ok then EncodeAllSegments(o, f.segments) else o
    else e
  }

  /** CF_CFDP_EncodeFileDataHeader, and the data the sender puts behind it. */
  function EncodeFileData(e: Enc, f: FileDataPdu, withMeta: bool): Enc {
    var h := Put(EncodeMeta(e, f, withMeta), BE(f.offset, 4));
    Put(h, f.data)
  }

  /** The counted loop of CF_CFDP_DecodeFileDataHeader. */
  function DecodeSegments(d: Dec, count: nat): Parsed<seq<Segment>>
    decreases count
  {
    if count == 0 then Parsed(d, if d.ok then Some([]) else None)
    else
      var p := DecodeSegment(d);
      if p.value.None? then Parsed(p.d, None)
      else
        var rest := DecodeSegments(p.d, count - 1);
        Parsed(rest.d, if rest.value.Some? then Some([p.value.value] + rest.value.value) else None)
  }

  datatype Meta = Meta(continuation: nat, segments: seq<Segment>)

  /** Its optional fields; more segments than the list holds are an error. */
  function DecodeMeta(d: Dec, withMeta: bool): Parsed<Meta> {
    if !withMeta then Parsed(d, if d.ok then Some(Meta(0, [])) else None)
    else
      var o := Take(d, 1);
      if o.value.None? then Parsed(o.d, None)
      else
        var x := o.value.value[0];
        var count := GetField(x, 6, 0);
        if count > NAK_MAX_SEGMENTS then Parsed(o.d.(ok := false), None)
        else
          var ss := DecodeSegments(o.d, count);
          Parsed(ss.d, if ss.value.Some? then Some(Meta(GetField(x, 2, 6), ss.value.value)) else None)
  }

  /** CF_CFDP_DecodeFileDataHeader: the data is all that is left. */
  function DecodeFileData(d: Dec, withMeta: bool): Parsed<FileDataPdu> {
    var m := DecodeMeta(d, withMeta);
    var h := Take(m.d, 4);
    if h.value.None? || m.value.None? then Parsed(h.d, None)
    else
      var data := Take(h.d, h.d.Remain());
      Parsed(data.d, if data.value.Some?
                     then Some(FileDataPdu(m.value.value.continuation, m.value.value.segments,
                                           BigEndian(h.value.value), data.value.value))
                     else None)
  }

  lemma EncodeMetaEmits(e: Enc, f: FileDataPdu, withMeta: bool)
    ensures Emits(e, EncodeMeta(e, f, withMeta), WireMeta(f, withMeta))
  {
    if withMeta {
      var o := Put(e, [MetaByte(f)]);
      PutEmits(e, [MetaByte(f)]);
      EncodeAllSegmentsEmits(o, f.segments);
      EmitsThen(e, o, EncodeMeta(e, f, withMeta), [MetaByte(f)], WireSegments(f.segments));
    } else {
      EmitsNothing(e);
    }
  }

  lemma EncodeFileDataEmits(e: Enc, f: FileDataPdu, withMeta: bool)
    ensures Emits(e, EncodeFileData(e, f, withMeta), WireFileData(f, withMeta))
  {
    hide EncodeMeta;
    hide WireMeta;
    hide BE;
    var m := EncodeMeta(e, f, withMeta);
    EncodeMetaEmits(e, f, withMeta);
    var h := Put(m, BE(f.offset, 4));
    PutEmits(m, BE(f.offset, 4));
    PutEmits(h, f.data);
    EmitsThen(m, h, Put(h, f.data), BE(f.offset, 4), f.data);
    EmitsThen(e, m, Put(h, f.data), WireMeta(f, withMeta), BE(f.offset, 4) + f.data);
  }

  lemma {:induction false} SegmentsAt(d: Dec, ss: seq<Segment>)
    requires SegmentsOk(ss) && At(d, WireSegments(ss))
    ensures DecodeSegments(d, |ss|) == Parsed(Skip(d, |WireSegments(ss)|), Some(ss))
    decreases |ss|
  {
    if ss == [] {
      assert d.ok;
    } else {
      var rest := ss[1..];
      var w, v := WireSegment(ss[0]), WireSegments(rest);
      assert WireSegments(ss) == w + v && |w| == 8 && SegmentOk(ss[0]) && SegmentsOk(rest);
      hide WireSegment;
      hide WireSegments;
      hide DecodeSegment;
      hide DecodeSegments;
      hide At;
      hide SegmentOk;
      hide SegmentsOk;
      AtSplit(d, w, v);
      var d1 := Skip(d, 8);
      SegmentAt(d, ss[0]);
      SegmentsAt(d1, rest);
      DecodeSegmentsStep(d, |ss|, ss[0], d1, rest, Skip(d1, |v|));
      assert ss == [ss[0]] + rest;
    }
  }

  lemma DecodeSegmentsStep(d: Dec, count: nat, t: Segment, d1: Dec, rest: seq<Segment>, d2: Dec)
    requires count > 0 && DecodeSegment(d) == Parsed(d1, Some(t))
    requires DecodeSegments(d1, count - 1) == Parsed(d2, Some(rest))
    ensures DecodeSegments(d, count) == Parsed(d2, Some([t] + rest))
  {
    hide DecodeSegment;
  }

  lemma MetaByteBack(f: FileDataPdu)
    requires |f.segments| < 64
    ensures GetField(MetaByte(f), 2, 6) == f.continuation % 4 && GetField(MetaByte(f), 6, 0) == |f.segments|
  {
    var a, n := f.continuation % 4, |f.segments|;
    assert (a * 64 + n) / 64 == a && (a * 64 + n) % 64 == n;
  }

  lemma MetaAt(d: Dec, f: FileDataPdu, withMeta: bool)
    requires f.Valid() && d.ok && At(d, WireMeta(f, withMeta))
    ensures DecodeMeta(d, withMeta) ==
            Parsed(Skip(d, |WireMeta(f, withMeta)|),
                   Some(Meta(f.Cut(withMeta).continuation, f.Cut(withMeta).segments)))
  {
    if withMeta {
      MetaByteBack(f);
      hide MetaByte;
      hide GetField;
      hide WireSegments;
      hide DecodeSegments;
      AtSplit(d, [MetaByte(f)], WireSegments(f.segments));
      TakeAt(d, [MetaByte(f)]);
      SegmentsAt(Skip(d, 1), f.segments);
    }
  }

  lemma FileDataAt(d: Dec, f: FileDataPdu, withMeta: bool)
    requires f.Valid() && LastAt(d, WireFileData(f, withMeta))
    ensures DecodeFileData(d, withMeta) ==
            Parsed(Skip(d, |WireFileData(f, withMeta)|), Some(f.Cut(withMeta)))
  {
    hide BE;
    hide BigEndian;
    hide WireMeta;
    hide DecodeMeta;
    var v, w := WireMeta(f, withMeta), BE(f.offset, 4);
    Word32(f.offset);
    AtSplit(d, v, w + f.data);
    MetaAt(d, f, withMeta);
    var d1 := Skip(d, |v|);
    AtSplit(d1, w, f.data);
    TakeAt(d1, w);
    TakeAt(Skip(d1, 4), f.data);
  }

  // ------------------------------------------------------------------ the common header

  /** CF_Logical_PduHeader_t; entity ids and sequence numbers are 32 bits wide. */
  datatype Header = Header(
    version: nat, direction: nat, pduType: nat, txmMode: nat, segCtl: nat, segMeta: nat,
    eidLength: nat, tsnLength: nat, sourceEid: nat, sequenceNum: nat, destEid: nat)
  {
    predicate Valid() {
      && 1 <= eidLength <= 4 && 1 <= tsnLength <= 4
      && sourceEid < Pow256(eidLength) && destEid < Pow256(eidLength) && sequenceNum < Pow256(tsnLength)
    }
    predicate InRange() {
      version < 8 && direction < 2 && pduType < 2 && txmMode < 2 && segCtl < 2 && segMeta < 2
    }
    function Cut(): Header {
      this.(version := version % 8, direction := direction % 2, pduType := pduType % 2, txmMode := txmMode % 2,
            segCtl := segCtl % 2, segMeta := segMeta % 2)
    }
  }

  function HeaderFlags(h: Header): Byte {
    Field(3, 5, h.version) + Field(1, 4, h.pduType) + Field(1, 3, h.direction) + Field(1, 2, h.txmMode)
  }

  /** The lengths go out minus one. */
  function HeaderLengths(h: Header): Byte
    requires h.Valid()
  {
    Field(1, 7, h.segCtl) + Field(3, 4, h.eidLength - 1) + Field(1, 3, h.segMeta) + Field(3, 0, h.tsnLength - 1)
  }

  /** The fixed part, around a length field. */
  function WireFixed(h: Header, length: Bytes): (w: Bytes)
    requires h.Valid() && |length| == 2
    ensures |w| == 4
  {
    [HeaderFlags(h)] + length + [HeaderLengths(h)]
  }

  function WireIds(h: Header): Bytes {
    BE(h.sourceEid, h.eidLength) + (BE(h.sequenceNum, h.tsnLength) + BE(h.destEid, h.eidLength))
  }

  /** The two bytes CF_CFDP_EncodeHeaderWithoutSize leaves as it finds them. */
  function LengthField(e: Enc): (w: Bytes)
    ensures |w| == 2
  {
    if e.pos + 4 <= |e.buf| then e.buf[e.pos + 1..e.pos + 3] else [0, 0]
  }

  /** CF_CFDP_EncodeHeaderWithoutSize. */
  function EncodeHeader(e: Enc, h: Header): Enc
    requires h.Valid()
  {
    var f := Put(e, WireFixed(h, LengthField(e)));
    if f.ok
    then EncodeInteger(EncodeInteger(EncodeInteger(f, h.sourceEid, h.eidLength), h.sequenceNum, h.tsnLength),
                       h.destEid, h.eidLength)
    else f
  }

  /** CF_CFDP_EncodeHeaderFinalSize: patches the length and closes the packet. */
  function FinalSize(e: Enc, length: nat): Enc {
    var patched := if e.ok && e.pos >= 4 && |e.buf| >= 4 then e.(buf := Overwrite(e.buf, 1, BE(length, 2))) else e;
    patched.(ok := false)
  }

  /** A header and the length of what follows it. */
  datatype SizedHeader = SizedHeader(header: Header, length: nat)

  /** CF_CFDP_DecodeHeader; identifiers too wide for the receiver's types are an error. */
  function DecodeHeader(d: Dec): Parsed<SizedHeader> {
    var f := Take(d, 4);
    if f.value.None? then Parsed(f.d, None)
    else
      var w := f.value.value;
      var eidLength, tsnLength := GetField(w[3], 3, 4) + 1, GetField(w[3], 3, 0) + 1;
      if eidLength > 4 || tsnLength > 4 then Parsed(f.d, None)
      else
        var s := DecodeInteger(f.d, eidLength);
        var n := DecodeInteger(s.d, tsnLength);
        var t := DecodeInteger(n.d, eidLength);
        Parsed(t.d, if s.value.Some? && n.value.Some? && t.value.Some?
                    then Some(SizedHeader(
                           Header(GetField(w[0], 3, 5), GetField(w[0], 1, 3), GetField(w[0], 1, 4),
                                  GetField(w[0], 1, 2),
                                  GetField(w[3], 1, 7), GetField(w[3], 1, 3), eidLength, tsnLength,
                                  s.value.value, n.value.value, t.value.value), BigEndian(w[1..3])))
                    else None)
  }

  lemma FlagBits(a: nat, b: nat, c: nat, d: nat)
    requires a < 8 && b < 2 && c < 2 && d < 2
    ensures var x := a * 32 + b * 16 + c * 8 + d * 4;
            x / 32 % 8 == a && x / 16 % 2 == b && x / 8 % 2 == c && x / 4 % 2 == d
  {
    var x := a * 32 + b * 16 + c * 8 + d * 4;
    assert x / 4 == a * 8 + b * 4 + c * 2 + d && x / 8 == a * 4 + b * 2 + c && x / 16 == a * 2 + b && x / 32 == a;
  }

  lemma LengthBits(a: nat, b: nat, c: nat, d: nat)
    requires a < 2 && b < 8 && c < 2 && d < 8
    ensures var x := a * 128 + b * 16 + c * 8 + d;
            x / 128 % 2 == a && x / 16 % 8 == b && x / 8 % 2 == c && x % 8 == d
  {
    var x := a * 128 + b * 16 + c * 8 + d;
    assert x / 8 == a * 16 + b * 2 + c && x / 16 == a * 8 + b && x / 128 == a;
  }

  lemma FlagsBack(h: Header)
    ensures var x := HeaderFlags(h);
            && GetField(x, 3, 5) == h.version % 8 && GetField(x, 1, 4) == h.pduType % 2
            && GetField(x, 1, 3) == h.direction % 2 && GetField(x, 1, 2) == h.txmMode % 2
  {
    FlagBits(h.version % 8, h.pduType % 2, h.direction % 2, h.txmMode % 2);
  }

  lemma HeaderLengthsSum(h: Header)
    requires h.Valid()
    ensures HeaderLengths(h) == h.segCtl % 2 * 128 + (h.eidLength - 1) * 16 + h.segMeta % 2 * 8 + (h.tsnLength - 1)
  {
    hide Pow256;
  }

  lemma LengthsByteBack(x: Byte, a: nat, b: nat, c: nat, d: nat)
    requires a < 2 && b < 8 && c < 2 && d < 8 && x == a * 128 + b * 16 + c * 8 + d
    ensures GetField(x, 1, 7) == a && GetField(x, 3, 4) == b && GetField(x, 1, 3) == c && GetField(x, 3, 0) == d
  {
    LengthBits(a, b, c, d);
  }

  lemma LengthsBack(h: Header)
    requires h.Valid()
    ensures var x := HeaderLengths(h);
            && GetField(x, 1, 7) == h.segCtl % 2 && GetField(x, 3, 4) == h.eidLength - 1
            && GetField(x, 1, 3) == h.segMeta % 2 && GetField(x, 3, 0) == h.tsnLength - 1
  {
    hide Pow256;
    hide GetField;
    hide HeaderLengths;
    HeaderLengthsSum(h);
    LengthsByteBack(HeaderLengths(h), h.segCtl % 2, h.eidLength - 1, h.segMeta % 2, h.tsnLength - 1);
  }

  lemma EncodeHeaderEmits(e: Enc, h: Header)
    requires h.Valid()
    ensures Emits(e, EncodeHeader(e, h), WireFixed(h, LengthField(e)) + WireIds(h))
  {
    hide BE;
    hide Pow256;
    hide WireFixed;
    hide LengthField;
    var w := WireFixed(h, LengthField(e));
    var a, b, c := BE(h.sourceEid, h.eidLength), BE(h.sequenceNum, h.tsnLength), BE(h.destEid, h.eidLength);
    var f := Put(e, w);
    PutEmits(e, w);
    var f1 := Put(f, a);
    PutEmits(f, a);
    var f2 := Put(f1, b);
    PutEmits(f1, b);
    PutEmits(f2, c);
    EmitsThen(f1, f2, Put(f2, c), b, c);
    EmitsThen(f, f1, Put(f2, c), a, b + c);
    EmitsThen(e, f, EncodeHeader(e, h), w, a + (b + c));
  }

  lemma Length16(v: nat)
    requires v < 0x1_0000
    ensures BigEndian(BE(v, 2)) == v
  {
    assert Pow256(2) == 0x1_0000 by {
      assert Pow256(2) == 0x100 * Pow256(1);
    }
    BERoundTrip(v, 2);
  }

  lemma HeaderAt(d: Dec, h: Header, length: nat)
    requires h.Valid() && length < 0x1_0000 && At(d, WireFixed(h, BE(length, 2)) + WireIds(h))
    ensures DecodeHeader(d) ==
            Parsed(Skip(d, 4 + |WireIds(h)|), Some(SizedHeader(h.Cut(), length)))
  {
    hide BE;
    hide BigEndian;
    hide Pow256;
    FlagsBack(h);
    LengthsBack(h);
    Length16(length);
    hide HeaderFlags;
    hide HeaderLengths;
    hide GetField;
    var w := WireFixed(h, BE(length, 2));
    var a, b, c := BE(h.sourceEid, h.eidLength), BE(h.sequenceNum, h.tsnLength), BE(h.destEid, h.eidLength);
    AtSplit(d, w, a + (b + c));
    TakeAt(d, w);
    assert w[1..3] == BE(length, 2);
    var d1 := Skip(d, 4);
    AtSplit(d1, a, b + c);
    IntegerAt(d1, h.sourceEid, h.eidLength);
    var d2 := Skip(d1, |a|);
    AtSplit(d2, b, c);
    IntegerAt(d2, h.sequenceNum, h.tsnLength);
    IntegerAt(Skip(d2, |b|), h.destEid, h.eidLength);
  }

  // ------------------------------------------------------------------ a whole packet

  lemma HeaderInRange(h: Header)
    ensures h.Cut() == h <==> h.InRange()
  {}

  lemma PatchedAt(buf: Bytes, h: Header, m: Enc, body: Bytes)
    requires h.Valid() && |body| < 0x1_0000
    requires m.ok && EncodeHeader(Enc(true, 0, buf), h).ok && Emits(EncodeHeader(Enc(true, 0, buf), h), m, body)
    ensures At(Dec(true, 0, FinalSize(m, |body|).buf), (WireFixed(h, BE(|body|, 2)) + WireIds(h)) + body)
  {
    hide EncodeHeader;
    hide BE;
    hide WireIds;
    hide HeaderFlags;
    hide HeaderLengths;
    hide LengthField;
    hide At;
    var e := Enc(true, 0, buf);
    var f := EncodeHeader(e, h);
    var l, n, ids := LengthField(e), BE(|body|, 2), WireIds(h);
    var a: Bytes, c: Bytes := [HeaderFlags(h)], [HeaderLengths(h)];
    EncodeHeaderEmits(e, h);
    EmitsThen(e, f, m, WireFixed(h, l) + ids, body);
    EmittedIsAt(e, m, WireFixed(h, l) + ids + body);
    FixedAround(h, l);
    FixedAround(h, n);
    hide WireFixed;
    PatchAt(m.buf, a, l, n, c + ids, body);
    Emitted(e, m, WireFixed(h, l) + ids + body);
    hide Emits;
  }

  /** The length field within the header. */
  lemma FixedAround(h: Header, length: Bytes)
    requires h.Valid() && |length| == 2
    ensures WireFixed(h, length) + WireIds(h) == [HeaderFlags(h)] + length + ([HeaderLengths(h)] + WireIds(h))
  {
    hide WireIds;
    hide HeaderFlags;
    hide HeaderLengths;
  }

  lemma Emitted(e: Enc, f: Enc, w: Bytes)
    requires e.ok && e.Valid() && f.ok && Emits(e, f, w)
    ensures f.pos == e.pos + |w| && |f.buf| == |e.buf| && f.pos <= |f.buf|
  {}

  /** A header written first, any body behind it, and the length patched in at the end: decoding
      gives the header, the length, and leaves the cursor on the body. */
  lemma PacketRoundTrip(buf: Bytes, h: Header, m: Enc, body: Bytes)
    requires h.Valid() && |body| < 0x1_0000
    requires m.ok && EncodeHeader(Enc(true, 0, buf), h).ok && Emits(EncodeHeader(Enc(true, 0, buf), h), m, body)
    ensures var d := Dec(true, 0, FinalSize(m, |body|).buf);
            && DecodeHeader(d) == Parsed(Skip(d, 4 + |WireIds(h)|), Some(SizedHeader(h.Cut(), |body|)))
            && At(Skip(d, 4 + |WireIds(h)|), body)
    ensures h.Cut() == h <==> h.InRange()
  {
    PatchedAt(buf, h, m, body);
    HeaderInRange(h);
    hide EncodeHeader;
    hide Emits;
    hide BE;
    hide WireIds;
    hide WireFixed;
    hide Header.Cut;
    hide Header.InRange;
    var d := Dec(true, 0, FinalSize(m, |body|).buf);
    hide FinalSize;
    AtSplit(d, WireFixed(h, BE(|body|, 2)) + WireIds(h), body);
    HeaderAt(d, h, |body|);
  }

  /** Overwriting the length field of a packet changes nothing else in it. */
  lemma PatchAt(full: Bytes, a: Bytes, l: Bytes, n: Bytes, b: Bytes, body: Bytes)
    requires |a| == 1 && |l| == |n| == 2 && At(Dec(true, 0, full), (a + l + b) + body)
    ensures |full| >= 3 && At(Dec(true, 0, Overwrite(full, 1, n)), (a + n + b) + body)
  {
    var old_, new_ := (a + l + b) + body, (a + n + b) + body;
    var patched := Overwrite(full, 1, n);
    assert full[..|old_|] == old_;
    forall i | 0 <= i < |new_|
      ensures patched[i] == new_[i]
    {
      assert i >= 3 ==> patched[i] == full[i] && full[i] == old_[i];
    }
    assert patched[..|new_|] == new_;
  }

  // ------------------------------------------------------------------ round trips

  /** A decoder of exactly what the encoder e, now at f, appended. */
  function Appended(e: Enc, f: Enc): Dec
    requires f.pos <= |f.buf|
  {
    Dec(true, e.pos, f.buf[..f.pos])
  }

  lemma AppendedAt(e: Enc, f: Enc, w: Bytes)
    requires e.ok && e.Valid() && Emits(e, f, w)
    ensures f.ok <==> e.pos + |w| <= |e.buf|
    ensures f.ok ==> f.Valid() && LastAt(Appended(e, f), w)
    ensures f.ok ==> Skip(Appended(e, f), |w|) == Dec(true, f.pos, f.buf[..f.pos])
  {
    if f.ok {
      assert f.buf[..f.pos][e.pos..e.pos + |w|] == w;
    }
  }

  lemma AckInRange(a: AckPdu)
    ensures a.Cut() == a <==> a.InRange()
  {}

  /** For every PDU and every encoder: encoding succeeds exactly when the wire form fits, and
      decoding what was appended returns the PDU with each field cut to its width, which is the PDU
      itself exactly when its fields are in range. */
  lemma AckRoundTrip(e: Enc, a: AckPdu)
    requires e.ok && e.Valid()
    ensures var f := EncodeAck(e, a);
            && (f.ok <==> e.pos + 2 <= |e.buf|)
            && (f.ok ==> f.Valid() && DecodeAck(Appended(e, f)).value == Some(a.Cut()))
    ensures a.Cut() == a <==> a.InRange()
  {
    PutEmits(e, WireAck(a));
    AppendedAt(e, EncodeAck(e, a), WireAck(a));
    hide DecodeAck;
    hide Emits;
    hide At;
    hide AckPdu.Cut;
    hide AckPdu.InRange;
    AckInRange(a);
    if EncodeAck(e, a).ok {
      assert LastAt(Appended(e, EncodeAck(e, a)), WireAck(a));
      AckAt(Appended(e, EncodeAck(e, a)), a);
    }
  }

  lemma FinRoundTrip(e: Enc, p: FinPdu)
    requires e.ok && e.Valid() && p.Valid()
    ensures var f := EncodeFin(e, p);
            && (f.ok <==> e.pos + |WireFin(p)| <= |e.buf|)
            && (f.ok ==> f.Valid() && DecodeFin(Appended(e, f)).value == Some(p.Cut()))
    ensures p.Cut() == p <==> p.InRange()
  {
    hide EncodeFin;
    hide DecodeFin;
    hide WireFin;
    hide LastAt;
    EncodeFinEmits(e, p);
    AppendedAt(e, EncodeFin(e, p), WireFin(p));
    if EncodeFin(e, p).ok {
      FinAt(Appended(e, EncodeFin(e, p)), p);
    }
  }

  lemma EofRoundTrip(e: Enc, p: EofPdu)
    requires e.ok && e.Valid() && p.Valid()
    ensures var f := EncodeEof(e, p);
            && (f.ok <==> e.pos + |WireEof(p)| <= |e.buf|)
            && (f.ok ==> f.Valid() && DecodeEof(Appended(e, f)).value == Some(p.Cut()))
    ensures p.Cut() == p <==> p.InRange()
  {
    hide EncodeEof;
    hide DecodeEof;
    hide WireEof;
    hide LastAt;
    EncodeEofEmits(e, p);
    AppendedAt(e, EncodeEof(e, p), WireEof(p));
    if EncodeEof(e, p).ok {
      EofAt(Appended(e, EncodeEof(e, p)), p);
    }
  }

  lemma NakRoundTrip(e: Enc, p: NakPdu)
    requires e.ok && e.Valid() && p.Valid()
    ensures var f := EncodeNak(e, p);
            && (f.ok <==> e.pos + |WireNak(p)| <= |e.buf|)
            && (f.ok ==> f.Valid() && DecodeNak(Appended(e, f)).value == Some(p))
  {
    hide EncodeNak;
    hide DecodeNak;
    hide WireNak;
    hide LastAt;
    EncodeNakEmits(e, p);
    AppendedAt(e, EncodeNak(e, p), WireNak(p));
    if EncodeNak(e, p).ok {
      NakAt(Appended(e, EncodeNak(e, p)), p);
    }
  }

  lemma MdRoundTrip(e: Enc, p: MdPdu)
    requires e.ok && e.Valid() && p.Valid()
    ensures var f := EncodeMd(e, p);
            && (f.ok <==> e.pos + |WireMd(p)| <= |e.buf|)
            && (f.ok ==> f.Valid() && DecodeMd(Appended(e, f)).value == Some(p.Cut()))
    ensures p.Cut() == p <==> p.InRange()
  {
    hide EncodeMd;
    hide DecodeMd;
    hide WireMd;
    hide At;
    EncodeMdEmits(e, p);
    AppendedAt(e, EncodeMd(e, p), WireMd(p));
    if EncodeMd(e, p).ok {
      MdAt(Appended(e, EncodeMd(e, p)), p);
    }
  }

  lemma FileDataRoundTrip(e: Enc, p: FileDataPdu, withMeta: bool)
    requires e.ok && e.Valid() && p.Valid()
    ensures var f := EncodeFileData(e, p, withMeta);
            && (f.ok <==> e.pos + |WireFileData(p, withMeta)| <= |e.buf|)
            && (f.ok ==> f.Valid() && DecodeFileData(Appended(e, f), withMeta).value == Some(p.Cut(withMeta)))
    ensures p.Cut(withMeta) == p <==> p.InRange(withMeta)
  {
    hide EncodeFileData;
    hide DecodeFileData;
    hide WireFileData;
    hide LastAt;
    EncodeFileDataEmits(e, p, withMeta);
    AppendedAt(e, EncodeFileData(e, p, withMeta), WireFileData(p, withMeta));
    if EncodeFileData(e, p, withMeta).ok {
      FileDataAt(Appended(e, EncodeFileData(e, p, withMeta)), p, withMeta);
    }
  }

  /** The receiver's initial delivery code 2 and file status 4 do not fit the FIN: they arrive as
      COMPLETE and DISCARDED. */
  lemma InitialFinCodes(e: Enc, p: FinPdu)
    requires e.ok && e.Valid() && p.Valid() && p.deliveryCode == DC_INVALID && p.fileStatus == FS_INVALID
    ensures var f := EncodeFin(e, p);
            f.ok ==> f.Valid() && DecodeFin(Appended(e, f)).value ==
                                  Some(FinPdu(p.cc % 16, COMPLETE, DISCARDED, p.tlvs))
  {
    hide EncodeFin;
    hide DecodeFin;
    FinRoundTrip(e, p);
  }

  // ------------------------------------------------------------------ any input

  /** Whatever the bytes: the cursor only moves forward and stays inside the PDU, and an error
      stays an error.  A value is only delivered by a decoder that is not in error. */
  predicate Onward<T>(d: Dec, p: Parsed<T>) {
    && p.d.buf == d.buf && d.pos <= p.d.pos && (d.Valid() ==> p.d.Valid())
    && (!d.ok ==> !p.d.ok) && (p.value.Some? ==> p.d.ok)
  }

  lemma TakeOnward(d: Dec, n: nat)
    ensures Onward(d, Take(d, n))
  {}

  lemma TlvOnward(d: Dec)
    ensures Onward(d, DecodeTlv(d))
  {}

  lemma {:induction false} AllTlvOnward(d: Dec, limit: nat)
    ensures Onward(d, DecodeAllTlv(d, limit))
    decreases limit
  {
    if limit > 0 && d.Remain() != 0 {
      TlvOnward(d);
      hide DecodeTlv;
      var p := DecodeTlv(d);
      if p.value.Some? {
        AllTlvOnward(p.d, limit - 1);
      }
    }
  }

  lemma SegmentOnward(d: Dec)
    ensures Onward(d, DecodeSegment(d))
  {
    hide BigEndian;
  }

  lemma {:induction false} AllSegmentsOnward(d: Dec, limit: nat)
    ensures Onward(d, DecodeAllSegments(d, limit))
    ensures DecodeAllSegments(d, limit).value.Some? ==> |DecodeAllSegments(d, limit).value.value| <= limit
    decreases limit
  {
    if limit > 0 && d.Remain() != 0 {
      SegmentOnward(d);
      hide DecodeSegment;
      var p := DecodeSegment(d);
      if p.value.Some? {
        AllSegmentsOnward(p.d, limit - 1);
      }
    }
  }

  lemma {:induction false} SegmentsOnward(d: Dec, count: nat)
    ensures Onward(d, DecodeSegments(d, count))
    decreases count
  {
    if count > 0 {
      SegmentOnward(d);
      hide DecodeSegment;
      var p := DecodeSegment(d);
      if p.value.Some? {
        SegmentsOnward(p.d, count - 1);
      }
    }
  }

  lemma LvOnward(d: Dec)
    ensures Onward(d, DecodeLv(d))
  {}

  lemma DecodersOnward(d: Dec)
    ensures Onward(d, DecodeAck(d)) && Onward(d, DecodeFin(d)) && Onward(d, DecodeEof(d)) && Onward(d, DecodeNak(d))
  {
    hide DecodeAllTlv;
    hide DecodeAllSegments;
    hide BigEndian;
    hide GetField;
    TakeOnward(d, 1);
    TakeOnward(d, 2);
    TakeOnward(d, 8);
    TakeOnward(d, 9);
    AllTlvOnward(Take(d, 1).d, MAX_TLV);
    AllTlvOnward(Take(d, 9).d, MAX_TLV);
    AllSegmentsOnward(Take(d, 8).d, NAK_MAX_SEGMENTS);
    hide Take;
  }

  lemma MetadataOnward(d: Dec)
    ensures Onward(d, DecodeMd(d))
  {
    hide DecodeLv;
    hide BigEndian;
    hide GetField;
    TakeOnward(d, 5);
    hide Take;
    var h := Take(d, 5).d;
    LvOnward(h);
    LvOnward(DecodeLv(h).d);
  }

  lemma FileDataOnward(d: Dec, withMeta: bool)
    ensures Onward(d, DecodeMeta(d, withMeta)) && Onward(d, DecodeFileData(d, withMeta))
  {
    hide DecodeSegments;
    hide BigEndian;
    hide GetField;
    TakeOnward(d, 1);
    hide Take;
    var o := Take(d, 1);
    if o.value.Some? {
      SegmentsOnward(o.d, GetField(o.value.value[0], 6, 0));
    }
    var m := DecodeMeta(d, withMeta);
    hide DecodeMeta;
    TakeOnward(m.d, 4);
    var h := Take(m.d, 4);
    TakeOnward(h.d, h.d.Remain());
  }

  lemma HeaderOnward(d: Dec)
    ensures Onward(d, DecodeHeader(d))
  {
    hide BigEndian;
    hide GetField;
    hide FromBE;
    TakeOnward(d, 4);
    var f := Take(d, 4);
    if f.value.Some? {
      var eidLength, tsnLength := GetField(f.value.value[3], 3, 4) + 1, GetField(f.value.value[3], 3, 0) + 1;
      IntegerOnward(f.d, eidLength);
      var s := DecodeInteger(f.d, eidLength);
      IntegerOnward(s.d, tsnLength);
      IntegerOnward(DecodeInteger(s.d, tsnLength).d, eidLength);
    }
    hide DecodeInteger;
    hide Take;
  }

  lemma IntegerOnward(d: Dec, n: nat)
    ensures Onward(d, DecodeInteger(d, n))
  {
    hide FromBE;
  }
}
