/** Messages that are not packets of this sender: which of them are dropped, and what is made of a packet
    that was cut short or carries a CRC. */
module CodecDrops {
  import opened Bytes
  import opened Cfdp
  import opened CodecSpec
  import opened CodecPdus
  import opened CodecPackets
  import opened Wrappers

  // ------------------------------------------------------------------ headers

  /** The large-file bit is the last of the first octet. */
  lemma LargeFileDropped(message: Bytes)
    requires message != [] && message[0] % 2 == 1
    ensures Receive(message).None?
  {
    hide DecodeHeader;
    hide ReceiveBody;
  }

  /** The lengths of the ids, less one, are bits 6 to 4 and 2 to 0 of the fourth octet: ids of more than
      four octets are not taken. */
  lemma WideIdsDropped(message: Bytes)
    requires |message| >= 4 && (message[3] / 16 % 8 >= 4 || message[3] % 8 >= 4)
    ensures Receive(message).None?
  {
    hide DecodeInteger;
    hide ReceiveBody;
  }

  /** With narrower ones, a message too short for the header they announce is dropped. */
  lemma ShortHeaderDropped(message: Bytes)
    requires |message| < 4 || |message| < 4 + 2 * (message[3] / 16 % 8 + 1) + (message[3] % 8 + 1)
    ensures Receive(message).None?
  {
    hide FromBE;
    hide BigEndian;
    hide ReceiveBody;
    if |message| >= 4 {
      if message[3] / 16 % 8 >= 4 || message[3] % 8 >= 4 {
        WideIdsDropped(message);
      } else {
        ShortIds(message);
      }
    }
  }

  lemma ShortIds(message: Bytes)
    requires 4 <= |message| < 4 + 2 * (message[3] / 16 % 8 + 1) + (message[3] % 8 + 1)
    ensures DecodeHeader(Dec(true, 0, message)).value.None?
  {
    hide FromBE;
    hide BigEndian;
  }

  // ------------------------------------------------------------------ directives

  lemma UnknownDirectiveDropped(d: Dec)
    requires d.ok && d.pos < |d.buf| && d.buf[d.pos] !in {4, 5, 6, 7, 8}
    ensures ReceiveDirective(d).None?
  {}

  // ------------------------------------------------------------------ file data

  /** Behind the data of a packet with the CRC flag stand four octets that are not data. */
  lemma CrcIsCutOff(d: Dec, fd: FileDataPdu, crc: Bytes)
    requires fd.Valid() && fd.InRange(false) && |crc| == 4
    requires LastAt(d, WireFileData(fd.(data := fd.data + crc), false))
    ensures ReceiveData(d, true, false) == Some(Data(fd))
  {
    FileDataAt(d, fd.(data := fd.data + crc), false);
    hide DecodeFileData;
    hide WireFileData;
    assert (fd.data + crc)[..|fd.data|] == fd.data;
  }

  lemma NoRoomForCrcDropped(d: Dec, fd: FileDataPdu)
    requires fd.Valid() && |fd.data| < 4 && LastAt(d, WireFileData(fd, false))
    ensures ReceiveData(d, true, false).None?
  {
    FileDataAt(d, fd, false);
    hide DecodeFileData;
    hide WireFileData;
  }

  lemma SegmentMetadataDropped(d: Dec, withCrc: bool)
    ensures ReceiveData(d, withCrc, true).None?
  {
    hide DecodeFileData;
  }

  /** More segments than the receiver's list holds are an error before any is read. */
  lemma TooManySegmentsFail(d: Dec)
    requires d.ok && d.pos < |d.buf| && d.buf[d.pos] % 64 > NAK_MAX_SEGMENTS
    ensures DecodeFileData(d, true).value.None? && !DecodeFileData(d, true).d.ok
  {
    assert GetField(d.buf[d.pos], 6, 0) == d.buf[d.pos] % 64;
    hide DecodeSegments;
    hide GetField;
  }

  // ------------------------------------------------------------------ packets cut short

  /** The last n octets of a file data packet are lost: as long as those are data, the receiver takes the
      rest for a shorter piece of the file; the length in the header is not compared. */
  lemma TruncatedData(buf: Bytes, h: Header, fd: FileDataPdu, n: nat)
    requires h.Valid() && fd.Valid() && |buf| < 0x1_0000 && h.pduType == 1 && h.segMeta == 0
    requires n <= |fd.data| && Send(buf, h, Data(fd)).Some?
    ensures var p := Send(buf, h, Data(fd)).value;
            && n <= |p|
            && Receive(p[..|p| - n]) ==
               Some(Packet(h.Cut(), |WireCoded(Data(fd))|, Data(fd.(data := fd.data[..|fd.data| - n]).Cut(false))))
  {
    hide Send;
    hide WireIds;
    hide WireFixed;
    hide BE;
    hide Receive;
    hide Header.Valid;
    hide Header.Cut;
    SentIsWire(buf, h, Data(fd));
    var p, w, short := Send(buf, h, Data(fd)).value, WireCoded(Data(fd)), fd.(data := fd.data[..|fd.data| - n]);
    var head := WireFixed(h, BE(|w|, 2)) + WireIds(h);
    ShorterData(fd, n);
    CutBehind(p, head, w, n);
    ReceiveShort(h, |w|, short, p[..|p| - n]);
  }

  lemma ShorterData(fd: FileDataPdu, n: nat)
    requires n <= |fd.data|
    ensures var w, short := WireFileData(fd, false), fd.(data := fd.data[..|fd.data| - n]);
            n <= |w| && WireFileData(short, false) == w[..|w| - n]
  {
    hide BE;
  }

  lemma CutBehind(p: Bytes, head: Bytes, w: Bytes, n: nat)
    requires LastAt(Dec(true, 0, p), head + w) && n <= |w|
    ensures n <= |p| && LastAt(Dec(true, 0, p[..|p| - n]), head + w[..|w| - n])
  {}

  lemma ReceiveShort(h: Header, length: nat, fd: FileDataPdu, message: Bytes)
    requires h.Valid() && fd.Valid() && length < 0x1_0000 && h.pduType == 1 && h.segMeta == 0
    requires LastAt(Dec(true, 0, message), (WireFixed(h, BE(length, 2)) + WireIds(h)) + WireFileData(fd, false))
    ensures Receive(message) == Some(Packet(h.Cut(), length, Data(fd.Cut(false))))
  {
    HeaderReceived(h, length, WireFileData(fd, false), message);
    BehindReceived(Skip(Dec(true, 0, message), 4 + |WireIds(h)|), h, Data(fd));
    hide BE;
    hide WireIds;
    hide GetField;
    hide DecodeHeader;
    hide ReceiveBody;
    hide WireFileData;
    hide Header.Cut;
    hide LastAt;
  }
}
