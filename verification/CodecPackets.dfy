/** Whole packets: the common header, the directive code or none, the PDU behind it and the length
    patched in at the end, and what the receiving engine makes of exactly those bytes. */
module CodecPackets {
  import opened Bytes
  import opened Cfdp
  import opened CodecSpec
  import opened CodecPdus
  import opened Wrappers

  const DIR_ACK := 6
  const DIR_METADATA := 7
  const DIR_NAK := 8

  /** What a packet carries. */
  datatype Body =
    | Data(fd: FileDataPdu)
    | Eof(eof: EofPdu)
    | Fin(fin: FinPdu)
    | Ack(ack: AckPdu)
    | Md(md: MdPdu)
    | Nak(nak: NakPdu)
  {
    predicate Valid() {
      match this
      case Data(fd) => fd.Valid()
      case Eof(eof) => eof.Valid()
      case Fin(fin) => fin.Valid()
      case Ack(_) => true
      case Md(md) => md.Valid()
      case Nak(nak) => nak.Valid()
    }

    /** The fields fit their widths; no packet goes out with segment metadata. */
    predicate InRange() {
      match this
      case Data(fd) => fd.InRange(false)
      case Eof(eof) => eof.InRange()
      case Fin(fin) => fin.InRange()
      case Ack(ack) => ack.InRange()
      case Md(md) => md.InRange()
      case Nak(_) => true
    }

    /** What the widths of the fields leave. */
    function Cut(): Body {
      match this
      case Data(fd) => Data(fd.Cut(false))
      case Eof(eof) => Body.Eof(eof.Cut())
      case Fin(fin) => Body.Fin(fin.Cut())
      case Ack(ack) => Body.Ack(ack.Cut())
      case Md(md) => Body.Md(md.Cut())
      case Nak(nak) => Body.Nak(nak)
    }

    /** The directive code; a file data PDU has none. */
    function Code(): Byte {
      match this
      case Data(_) => 0
      case Eof(_) => DIR_EOF
      case Fin(_) => DIR_FIN
      case Ack(_) => DIR_ACK
      case Md(_) => DIR_METADATA
      case Nak(_) => DIR_NAK
    }
  }

  function WireBody(b: Body): Bytes
    requires b.Valid()
  {
    match b
    case Data(fd) => WireFileData(fd, false)
    case Eof(eof) => WireEof(eof)
    case Fin(fin) => WireFin(fin)
    case Ack(ack) => WireAck(ack)
    case Md(md) => WireMd(md)
    case Nak(nak) => WireNak(nak)
  }

  function EncodeBody(e: Enc, b: Body): Enc
    requires b.Valid()
  {
    match b
    case Data(fd) => EncodeFileData(e, fd, false)
    case Eof(eof) => EncodeEof(e, eof)
    case Fin(fin) => EncodeFin(e, fin)
    case Ack(ack) => EncodeAck(e, ack)
    case Md(md) => EncodeMd(e, md)
    case Nak(nak) => EncodeNak(e, nak)
  }

  /** The directive code of a directive, and the PDU. */
  function WireCoded(b: Body): Bytes
    requires b.Valid()
  {
    if b.Data? then WireBody(b) else [b.Code()] + WireBody(b)
  }

  function EncodeCoded(e: Enc, b: Body): Enc
    requires b.Valid()
  {
    EncodeBody(if b.Data? then e else Put(e, [b.Code()]), b)
  }

  /** CF_CFDP_ConstructPduHeader, the encoder of the PDU, and CF_CFDP_SetPduLength; the bytes given
      to CF_CFDP_Send, if everything fitted. */
  function Send(buf: Bytes, h: Header, b: Body): Option<Bytes>
    requires h.Valid() && b.Valid()
  {
    var f := EncodeHeader(Enc(true, 0, buf), h);
    var m := EncodeCoded(f, b);
    var sealed := FinalSize(m, if m.pos >= f.pos then m.pos - f.pos else 0);
    if m.ok && m.pos <= |sealed.buf| then Some(sealed.buf[..m.pos]) else None
  }

  datatype Packet = Packet(header: Header, length: nat, body: Body)

  function Coded<T>(p: Parsed<T>, body: T -> Body): Option<Body> {
    if p.value.Some? then Some(body(p.value.value)) else None
  }

  /** The decoder the directive code calls for, if there is one. */
  function DecodeBody(d: Dec, code: Byte): Option<Body> {
    if code == DIR_EOF then Coded(DecodeEof(d), p => Body.Eof(p))
    else if code == DIR_FIN then Coded(DecodeFin(d), p => Body.Fin(p))
    else if code == DIR_ACK then Coded(DecodeAck(d), p => Body.Ack(p))
    else if code == DIR_METADATA then Coded(DecodeMd(d), p => Body.Md(p))
    else if code == DIR_NAK then Coded(DecodeNak(d), p => Body.Nak(p))
    else None
  }

  /** CF_CFDP_RecvFd: a CRC at the end is cut off, segment metadata is not supported. */
  function ReceiveData(d: Dec, withCrc: bool, withMeta: bool): Option<Body> {
    var p := DecodeFileData(d, withMeta);
    if p.value.None? then None
    else
      var fd := p.value.value;
      if withCrc && |fd.data| < 4 then None
      else if withMeta then None
      else Some(Data(if withCrc then fd.(data := fd.data[..|fd.data| - 4]) else fd))
  }

  function ReceiveDirective(d: Dec): Option<Body> {
    var c := Take(d, 1);
    if c.value.None? then None else DecodeBody(c.d, c.value.value[0])
  }

  function ReceiveBody(d: Dec, withCrc: bool, h: Header): Option<Body> {
    if h.pduType == 1 then ReceiveData(d, withCrc, h.segMeta == 1) else ReceiveDirective(d)
  }

  /** CF_CFDP_RecvPh and the receive function of the PDU, on the bytes of one message: the packet,
      or nothing if it is dropped. */
  function Receive(message: Bytes): Option<Packet> {
    var h := DecodeHeader(Dec(true, 0, message));
    if h.value.None? || |message| == 0 then None
    else if GetField(message[0], 1, 0) == 1 then None
    else
      var body := ReceiveBody(h.d, GetField(message[0], 1, 1) == 1, h.value.value.header);
      if body.Some? then Some(Packet(h.value.value.header, h.value.value.length, body.value)) else None
  }

  // ------------------------------------------------------------------ the encoders

  lemma BodyEmits(e: Enc, b: Body)
    requires b.Valid()
    ensures Emits(e, EncodeBody(e, b), WireBody(b))
  {
    hide Emits;
    hide EncodeFileData;
    hide WireFileData;
    hide EncodeEof;
    hide WireEof;
    hide EncodeFin;
    hide WireFin;
    hide EncodeMd;
    hide WireMd;
    hide EncodeNak;
    hide WireNak;
    match b
    case Data(fd) => EncodeFileDataEmits(e, fd, false);
    case Eof(eof) => EncodeEofEmits(e, eof);
    case Fin(fin) => EncodeFinEmits(e, fin);
    case Ack(ack) => PutEmits(e, WireAck(ack));
    case Md(md) => EncodeMdEmits(e, md);
    case Nak(nak) => EncodeNakEmits(e, nak);
  }

  lemma CodedEmits(e: Enc, b: Body)
    requires b.Valid()
    ensures Emits(e, EncodeCoded(e, b), WireCoded(b))
  {
    hide EncodeBody;
    hide WireBody;
    if b.Data? {
      BodyEmits(e, b);
    } else {
      var m := Put(e, [b.Code()]);
      PutEmits(e, [b.Code()]);
      BodyEmits(m, b);
      EmitsThen(e, m, EncodeBody(m, b), [b.Code()], WireBody(b));
    }
  }

  // ------------------------------------------------------------------ the decoders

  lemma BodyAt(d: Dec, b: Body)
    requires b.Valid() && !b.Data? && LastAt(d, WireBody(b))
    ensures DecodeBody(d, b.Code()) == Some(b.Cut())
  {
    hide DecodeEof;
    hide WireEof;
    hide DecodeFin;
    hide WireFin;
    hide DecodeAck;
    hide WireAck;
    hide DecodeMd;
    hide WireMd;
    hide DecodeNak;
    hide WireNak;
    match b
    case Eof(eof) => EofAt(d, eof);
    case Fin(fin) => FinAt(d, fin);
    case Ack(ack) => AckAt(d, ack);
    case Md(md) => MdAt(d, md);
    case Nak(nak) => NakAt(d, nak);
  }

  lemma DirectiveAt(d: Dec, b: Body)
    requires b.Valid() && !b.Data? && LastAt(d, WireCoded(b))
    ensures ReceiveDirective(d) == Some(b.Cut())
  {
    hide WireBody;
    hide DecodeBody;
    hide Body.Cut;
    var c: Bytes := [b.Code()];
    AtSplit(d, c, WireBody(b));
    TakeAt(d, c);
    BodyAt(Skip(d, 1), b);
  }

  /** The bits of the CRC and large-file flags are never set. */
  lemma FlagsClear(h: Header)
    ensures GetField(HeaderFlags(h), 1, 0) == 0 && GetField(HeaderFlags(h), 1, 1) == 0
  {
    var q := 8 * (h.version % 8) + 4 * (h.pduType % 2) + 2 * (h.direction % 2) + h.txmMode % 2;
    assert HeaderFlags(h) == 4 * q;
    Quarter(q);
  }

  lemma Quarter(q: nat)
    ensures 4 * q % 2 == 0 && 4 * q / 2 % 2 == 0
  {
    assert 4 * q == 2 * (2 * q);
  }

  // ------------------------------------------------------------------ from end to end

  lemma InRangeIsUncut(b: Body)
    ensures b.Cut() == b <==> b.InRange()
  {}

  /** A decoder of the message alone stands at the same bytes. */
  lemma AtTrimmed(buf: Bytes, w: Bytes)
    requires At(Dec(true, 0, buf), w)
    ensures buf[..|w|] == w && LastAt(Dec(true, 0, buf[..|w|]), w)
  {}

  lemma LastSplit(d: Dec, v: Bytes, w: Bytes)
    requires LastAt(d, v + w)
    ensures At(d, v) && LastAt(Skip(d, |v|), w)
  {
    AtSplit(d, v, w);
  }

  /** What the receiver makes of the wire form of a packet. */
  lemma ReceiveWire(h: Header, b: Body, message: Bytes)
    requires h.Valid() && b.Valid() && |WireCoded(b)| < 0x1_0000
    requires h.pduType == (if b.Data? then 1 else 0) && (b.Data? ==> h.segMeta == 0)
    requires LastAt(Dec(true, 0, message),
                    (WireFixed(h, BE(|WireCoded(b)|, 2)) + WireIds(h)) + WireCoded(b))
    ensures Receive(message) == Some(Packet(h.Cut(), |WireCoded(b)|, b.Cut()))
  {
    HeaderReceived(h, |WireCoded(b)|, WireCoded(b), message);
    BehindReceived(Skip(Dec(true, 0, message), 4 + |WireIds(h)|), h, b);
    hide BE;
    hide WireIds;
    hide GetField;
    hide DecodeHeader;
    hide ReceiveBody;
    hide WireCoded;
    hide Body.Cut;
    hide Header.Cut;
    hide LastAt;
  }

  lemma BehindReceived(d: Dec, h: Header, b: Body)
    requires b.Valid() && LastAt(d, WireCoded(b))
    requires h.pduType == (if b.Data? then 1 else 0) && (b.Data? ==> h.segMeta == 0)
    ensures ReceiveBody(d, false, h.Cut()) == Some(b.Cut())
  {
    hide WireBody;
    hide LastAt;
    hide ReceiveDirective;
    hide ReceiveData;
    hide Body.Cut;
    if b.Data? {
      DataAt(d, b);
    } else {
      DirectiveAt(d, b);
    }
  }

  lemma HeaderReceived(h: Header, length: nat, w: Bytes, message: Bytes)
    requires h.Valid() && length < 0x1_0000
    requires LastAt(Dec(true, 0, message), (WireFixed(h, BE(length, 2)) + WireIds(h)) + w)
    ensures var d := Dec(true, 0, message);
            && DecodeHeader(d) == Parsed(Skip(d, 4 + |WireIds(h)|), Some(SizedHeader(h.Cut(), length)))
            && LastAt(Skip(d, 4 + |WireIds(h)|), w)
    ensures message != [] && GetField(message[0], 1, 0) == 0 && GetField(message[0], 1, 1) == 0
  {
    var fixed, d := WireFixed(h, BE(length, 2)), Dec(true, 0, message);
    FlagsClear(h);
    hide BE;
    hide WireIds;
    hide HeaderFlags;
    hide HeaderLengths;
    hide GetField;
    hide DecodeHeader;
    hide At;
    hide Header.Cut;
    assert fixed[0] == HeaderFlags(h) && (fixed + WireIds(h))[0] == fixed[0];
    hide WireFixed;
    LastSplit(d, fixed + WireIds(h), w);
    HeaderAt(d, h, length);
    FirstByte(message, fixed + WireIds(h), w);
  }

  lemma FirstByte(message: Bytes, v: Bytes, w: Bytes)
    requires LastAt(Dec(true, 0, message), v + w) && v != []
    ensures message != [] && message[0] == v[0]
  {
    assert message[..|v + w|][0] == (v + w)[0];
  }

  lemma DataAt(d: Dec, b: Body)
    requires b.Valid() && b.Data? && LastAt(d, WireBody(b))
    ensures ReceiveData(d, false, false) == Some(b.Cut())
  {
    FileDataAt(d, b.fd, false);
    hide DecodeFileData;
    hide WireFileData;
  }

  lemma SendFits(buf: Bytes, h: Header, b: Body)
    requires h.Valid() && b.Valid()
    ensures var f := EncodeHeader(Enc(true, 0, buf), h);
            var m, w := EncodeCoded(f, b), WireCoded(b);
            && (m.ok <==> 4 + |WireIds(h)| + |w| <= |buf|)
            && (m.ok ==> f.ok && Emits(f, m, w) && m.pos - f.pos == |w| && m.pos == 4 + |WireIds(h)| + |w| <= |m.buf|)
  {
    var e := Enc(true, 0, buf);
    var f := EncodeHeader(e, h);
    EncodeHeaderEmits(e, h);
    CodedEmits(f, b);
    hide EncodeHeader;
    hide EncodeCoded;
    hide WireIds;
    hide WireCoded;
    hide HeaderFlags;
    hide HeaderLengths;
    hide Overwrite;
  }

  lemma SealedLength(e: Enc, length: nat)
    ensures |FinalSize(e, length).buf| == |e.buf|
  {
    hide BE;
  }

  /** What is sent is the wire form of the header with the length of what follows it. */
  lemma SentIsWire(buf: Bytes, h: Header, b: Body)
    requires h.Valid() && b.Valid() && |buf| < 0x1_0000
    ensures var p, w := Send(buf, h, b), WireCoded(b);
            && (p.Some? <==> 4 + |WireIds(h)| + |w| <= |buf|)
            && (p.Some? ==>
                  |w| < 0x1_0000 && LastAt(Dec(true, 0, p.value), (WireFixed(h, BE(|w|, 2)) + WireIds(h)) + w))
  {
    hide EncodeHeader;
    hide EncodeCoded;
    hide WireIds;
    hide WireCoded;
    hide WireFixed;
    hide BE;
    hide FinalSize;
    hide Emits;
    hide LastAt;
    hide At;
    hide Header.Valid;
    hide Body.Valid;
    SendFits(buf, h, b);
    var f := EncodeHeader(Enc(true, 0, buf), h);
    var m, w := EncodeCoded(f, b), WireCoded(b);
    SealedLength(m, if m.pos >= f.pos then m.pos - f.pos else 0);
    if m.ok {
      var wire := (WireFixed(h, BE(|w|, 2)) + WireIds(h)) + w;
      PatchedAt(buf, h, m, w);
      AtTrimmed(FinalSize(m, |w|).buf, wire);
      assert |wire| == m.pos;
    }
  }

  /** For every header and PDU, and every buffer within the limits of the length field: a packet is
      sent exactly when it fits, and a receiver of exactly those bytes gets the header, the length
      of what is behind it and the PDU, each field cut to its width. */
  lemma WholePacketRoundTrip(buf: Bytes, h: Header, b: Body)
    requires h.Valid() && b.Valid() && |buf| < 0x1_0000
    requires h.pduType == (if b.Data? then 1 else 0) && (b.Data? ==> h.segMeta == 0)
    ensures var p := Send(buf, h, b);
            && (p.Some? <==> 4 + |WireIds(h)| + |WireCoded(b)| <= |buf|)
            && (p.Some? ==> Receive(p.value) == Some(Packet(h.Cut(), |WireCoded(b)|, b.Cut())))
    ensures h.Cut() == h <==> h.InRange()
    ensures b.Cut() == b <==> b.InRange()
  {
    HeaderInRange(h);
    InRangeIsUncut(b);
    SentIsWire(buf, h, b);
    hide Send;
    hide WireIds;
    hide WireCoded;
    hide WireFixed;
    hide BE;
    hide Receive;
    hide LastAt;
    hide Header.Valid;
    hide Header.Cut;
    hide Header.InRange;
    hide Body.Valid;
    hide Body.Cut;
    hide Body.InRange;
    if Send(buf, h, b).Some? {
      ReceiveWire(h, b, Send(buf, h, b).value);
    }
  }
}
