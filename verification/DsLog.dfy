/** The packet streams of view_ds_log.py: splitting a recorded file into CCSDS packets (section
    4.1.3 of CCSDS 133.0-B-2), and building a command whose checksum closes to zero. */
module DsLog {
  import opened Bytes

  /** The size of the file headers DS writes, as the script has it. */
  const DS_FILE_HEADER_SIZE: nat := 140

  /** struct.unpack('>H'). */
  function U16(hi: Byte, lo: Byte): (v: nat)
    ensures v < 0x1_0000
  {
    (hi as int) * 0x100 + lo
  }

  /** The total size the length field of a packet at the beginning of data announces. */
  function TotalSize(data: Bytes): (n: nat)
    requires |data| >= 6
    ensures n >= 7
  {
    U16(data[4], data[5]) + 7
  }

  /** The body starts with a whole packet. */
  predicate HasPacket(body: Bytes) {
    |body| >= 6 && TotalSize(body) <= |body|
  }

  /** The packets of a body, one after the other, until none is complete. */
  function Packets(body: Bytes): seq<Bytes>
    decreases |body|
  {
    if HasPacket(body) then [body[..TotalSize(body)]] + Packets(body[TotalSize(body)..]) else []
  }

  function Body(data: Bytes): Bytes {
    if |data| <= DS_FILE_HEADER_SIZE then [] else data[DS_FILE_HEADER_SIZE..]
  }

  /** What is left of the file from an offset on. */
  function From(data: Bytes, offset: nat): Bytes {
    if offset <= |data| then data[offset..] else []
  }

  lemma FromStep(data: Bytes, offset: nat)
    requires offset + 6 <= |data|
    ensures var size := U16(data[offset + 4], data[offset + 5]) + 7;
            if offset + size > |data| then Packets(From(data, offset)) == []
            else Packets(From(data, offset)) == [data[offset..offset + size]] + Packets(From(data, offset + size))
  {
    var body := From(data, offset);
    FromParts(data, offset);
    hide From;
    hide U16;
  }

  /** The header of a packet within the file, and what is behind the packet. */
  lemma FromParts(data: Bytes, offset: nat)
    requires offset + 6 <= |data|
    ensures var body := From(data, offset);
            var size := U16(data[offset + 4], data[offset + 5]) + 7;
            && |body| == |data| - offset && TotalSize(body) == size
            && (offset + size <= |data| ==>
                  body[..size] == data[offset..offset + size] && body[size..] == From(data, offset + size))
  {
    hide U16;
  }

  lemma FromEnd(data: Bytes, offset: nat)
    requires offset + 6 > |data|
    ensures Packets(From(data, offset)) == []
  {}

  /** What has been found and what is still to be found are the packets of the file. */
  ghost predicate FoundUpTo(data: Bytes, found: seq<Bytes>, offset: nat) {
    found + Packets(From(data, offset)) == Packets(Body(data))
  }

  lemma FindStart(data: Bytes)
    ensures FoundUpTo(data, [], DS_FILE_HEADER_SIZE)
  {
    hide Packets;
    assert From(data, DS_FILE_HEADER_SIZE) == Body(data);
  }

  lemma FindNext(data: Bytes, found: seq<Bytes>, offset: nat)
    requires FoundUpTo(data, found, offset) && offset + 6 <= |data|
    ensures var size := U16(data[offset + 4], data[offset + 5]) + 7;
            if offset + size > |data| then found == Packets(Body(data))
            else FoundUpTo(data, found + [data[offset..offset + size]], offset + size)
  {
    FromStep(data, offset);
    hide Packets;
    hide From;
    hide Body;
    hide U16;
    var next := offset + U16(data[offset + 4], data[offset + 5]) + 7;
    Regroup(found, if next > |data| then [] else [data[offset..next]], Packets(From(data, next)));
  }

  lemma Regroup(a: seq<Bytes>, b: seq<Bytes>, c: seq<Bytes>)
    ensures a + (b + c) == (a + b) + c && a + [] == a
  {}

  lemma FindEnd(data: Bytes, found: seq<Bytes>, offset: nat)
    requires FoundUpTo(data, found, offset) && offset + 6 > |data|
    ensures found == Packets(Body(data))
  {
    FromEnd(data, offset);
    hide Packets;
    hide From;
  }

  /** iter_packets: the packets in the order they are yielded. */
  method IterPackets(data: Bytes) returns (found: seq<Bytes>)
    ensures found == Packets(Body(data))
  {
    hide FoundUpTo;
    hide Packets;
    hide Body;
    hide U16;
    found := [];
    var offset := DS_FILE_HEADER_SIZE;
    FindStart(data);
    while offset + 6 <= |data|
      invariant FoundUpTo(data, found, offset)
      decreases |data| - offset
    {
      FindNext(data, found, offset);
      var totalSize := U16(data[offset + 4], data[offset + 5]) + 7;
      if totalSize < 6 || offset + totalSize > |data| {
        return;
      }
      found := found + [data[offset..offset + totalSize]];
      offset := offset + totalSize;
    }
    FindEnd(data, found, offset);
  }

  predicate IsPacket(p: Bytes) { |p| >= 6 && |p| == TotalSize(p) }

  /** A packet of section 4.1 of CCSDS 133.0-B-2: identification, sequence control, the octets of the
      data field less one, each in two octets, and the data field. */
  function SpacePacket(id: nat, control: nat, data: Bytes): Bytes
    requires 1 <= |data| <= 0x1_0000
  {
    BE(id, 2) + BE(control, 2) + BE(|data| - 1, 2) + data
  }

  lemma TwoOctets(v: nat)
    requires v < 0x1_0000
    ensures BE(v, 2) == [v / 0x100, v % 0x100]
  {
    assert BE(v / 0x100, 1) == BE(v / 0x100 / 0x100, 0) + [v / 0x100 % 0x100] == [v / 0x100];
  }

  /** The packets of the walk are the packets of the standard: every one it makes, and no others. */
  lemma PacketIffSpacePacket(p: Bytes)
    ensures IsPacket(p) <==>
            exists id: nat, control: nat, data: Bytes
              | id < 0x1_0000 && control < 0x1_0000 && 1 <= |data| <= 0x1_0000 :: p == SpacePacket(id, control, data)
  {
    hide SpacePacket;
    hide IsPacket;
    if IsPacket(p) {
      var id, control, data := PacketIsSpace(p);
    }
    forall id: nat, control: nat, data: Bytes
      | id < 0x1_0000 && control < 0x1_0000 && 1 <= |data| <= 0x1_0000 && p == SpacePacket(id, control, data)
      ensures IsPacket(p)
    {
      IsSpacePacket(id, control, data);
    }
  }

  lemma PacketIsSpace(p: Bytes) returns (id: nat, control: nat, data: Bytes)
    requires IsPacket(p)
    ensures id < 0x1_0000 && control < 0x1_0000 && 1 <= |data| <= 0x1_0000 && p == SpacePacket(id, control, data)
  {
    id, control, data := U16(p[0], p[1]), U16(p[2], p[3]), p[6..];
    OctetsOf(p[0], p[1]);
    OctetsOf(p[2], p[3]);
    OctetsOf(p[4], p[5]);
    hide BE;
    hide U16;
    SixOctets(p);
  }

  lemma OctetsOf(hi: Byte, lo: Byte)
    ensures BE(U16(hi, lo), 2) == [hi, lo]
  {
    TwoOctets(U16(hi, lo));
    hide BE;
  }

  lemma SixOctets(p: Bytes)
    requires |p| >= 6
    ensures p == [p[0], p[1]] + [p[2], p[3]] + [p[4], p[5]] + p[6..]
  {}

  lemma IsSpacePacket(id: nat, control: nat, data: Bytes)
    requires 1 <= |data| <= 0x1_0000
    ensures IsPacket(SpacePacket(id, control, data))
  {
    var p := SpacePacket(id, control, data);
    TwoOctets(|data| - 1);
    hide BE;
    assert [p[4], p[5]] == BE(|data| - 1, 2);
  }

  function Join(ps: seq<Bytes>): Bytes
    decreases |ps|
  {
    if ps == [] then [] else ps[0] + Join(ps[1..])
  }

  /** A file header followed by packets yields exactly those packets. */
  lemma PacketsOfJoin(header: Bytes, ps: seq<Bytes>)
    requires |header| == DS_FILE_HEADER_SIZE && forall i :: 0 <= i < |ps| ==> IsPacket(ps[i])
    ensures Packets(Body(header + Join(ps))) == ps
  {
    var data := header + Join(ps);
    assert |data| > |header| ==> data[|header|..] == Join(ps);
    assert |data| == |header| ==> Join(ps) == [];
    hide Packets;
    JoinedPackets(ps);
  }

  lemma {:induction false} JoinedPackets(ps: seq<Bytes>)
    requires forall i :: 0 <= i < |ps| ==> IsPacket(ps[i])
    ensures Packets(Join(ps)) == ps
    decreases |ps|
  {
    if ps != [] {
      var p, rest := ps[0], Join(ps[1..]);
      assert IsPacket(p);
      assert (p + rest)[4] == p[4] && (p + rest)[5] == p[5];
      assert (p + rest)[..|p|] == p && (p + rest)[|p|..] == rest;
      JoinedPackets(ps[1..]);
      assert ps == [p] + ps[1..];
    }
  }

  /** On any bytes: every one found is a packet, together they are a prefix of the body, and what
      is left holds no complete packet. */
  lemma {:induction false} PacketsCover(body: Bytes)
    ensures var ps := Packets(body);
            && (forall i :: 0 <= i < |ps| ==> IsPacket(ps[i]))
            && Join(ps) <= body && !HasPacket(body[|Join(ps)|..])
    decreases |body|
  {
    if HasPacket(body) {
      var n := TotalSize(body);
      var rest := body[n..];
      PacketsCover(rest);
      var ps := Packets(body);
      assert ps[1..] == Packets(rest) && ps[0] == body[..n];
      assert body == ps[0] + rest;
      assert body[|Join(ps)|..] == rest[|Join(ps[1..])|..];
    } else {
      assert body[0..] == body;
    }
  }

  /** More bytes only extend the list. */
  lemma {:induction false} PacketsExtend(body: Bytes, more: Bytes)
    ensures Packets(body) <= Packets(body + more)
    decreases |body|
  {
    if HasPacket(body) {
      var n := TotalSize(body);
      ExtendedPacket(body, more);
      hide HasPacket;
      PacketsExtend(body[n..], more);
    }
  }

  lemma ExtendedPacket(body: Bytes, more: Bytes)
    requires HasPacket(body)
    ensures HasPacket(body + more) && TotalSize(body + more) == TotalSize(body)
    ensures (body + more)[..TotalSize(body)] == body[..TotalSize(body)]
    ensures (body + more)[TotalSize(body)..] == body[TotalSize(body)..] + more
  {}

  // ------------------------------------------------------------------ commands

  /** Exclusive or, bit by bit. */
  function XorBits(a: nat, b: nat, n: nat): nat
    decreases n
  {
    if n == 0 then 0 else (a % 2 + b % 2) % 2 + 2 * XorBits(a / 2, b / 2, n - 1)
  }

  function Xor(a: Byte, b: Byte): Byte {
    XorBelow(a, b, 8);
    XorBits(a, b, 8)
  }

  function Pow2(n: nat): nat { if n == 0 then 1 else 2 * Pow2(n - 1) }

  lemma {:induction false} XorBelow(a: nat, b: nat, n: nat)
    ensures XorBits(a, b, n) < Pow2(n)
    ensures Pow2(8) == 0x100
    decreases n
  {
    assert Pow2(8) == 16 * Pow2(4);
    if n > 0 {
      XorBelow(a / 2, b / 2, n - 1);
    }
  }

  function Low(a: nat): nat { a % 2 }

  function High(a: nat): nat { a / 2 }

  function XorBit(a: nat, b: nat): nat { (a + b) % 2 }

  lemma XorHalves(a: nat, b: nat, n: nat)
    requires n > 0
    ensures var x := XorBits(a, b, n);
            && x == XorBit(Low(a), Low(b)) + 2 * XorBits(High(a), High(b), n - 1)
            && Low(x) == XorBit(Low(a), Low(b)) && High(x) == XorBits(High(a), High(b), n - 1)
  {
    Halves((a % 2 + b % 2) % 2, XorBits(a / 2, b / 2, n - 1));
  }

  lemma {:induction false} XorBitsAssociates(a: nat, b: nat, c: nat, n: nat)
    ensures XorBits(XorBits(a, b, n), c, n) == XorBits(a, XorBits(b, c, n), n)
    decreases n
  {
    if n > 0 {
      hide XorBits;
      hide Low;
      hide High;
      hide XorBit;
      var x, y := XorBits(a, b, n), XorBits(b, c, n);
      XorBitsAssociates(High(a), High(b), High(c), n - 1);
      XorHalves(a, b, n);
      XorHalves(b, c, n);
      XorHalves(x, c, n);
      XorHalves(a, y, n);
      BitsAssociate(Low(a), Low(b), Low(c));
    }
  }

  lemma BitsAssociate(a: nat, b: nat, c: nat)
    ensures XorBit(XorBit(a, b), c) == XorBit(a, XorBit(b, c))
  {
    assert XorBit(XorBit(a, b), c) == (a + b + c) % 2 == XorBit(a, XorBit(b, c));
  }

  lemma {:induction false} XorBitsLaws(a: nat, b: nat, n: nat)
    ensures XorBits(a, b, n) == XorBits(b, a, n) && XorBits(a, a, n) == 0
    decreases n
  {
    if n > 0 {
      XorBitsLaws(a / 2, b / 2, n - 1);
    }
  }

  lemma Halves(bit: nat, x: nat)
    requires bit < 2
    ensures (bit + 2 * x) % 2 == bit && (bit + 2 * x) / 2 == x
  {}

  lemma {:induction false} XorZero(a: nat, n: nat)
    ensures a < Pow2(n) ==> XorBits(a, 0, n) == a
    decreases n
  {
    if n > 0 {
      XorZero(a / 2, n - 1);
    }
  }

  /** A running value, exclusive-ored with every byte. */
  function XorAll(c: Byte, data: Bytes): Byte
    decreases |data|
  {
    if data == [] then c else XorAll(Xor(c, data[0]), data[1..])
  }

  /** compute_checksum. */
  method ComputeChecksum(packetBytes: Bytes) returns (chksum: Byte)
    ensures chksum == XorAll(0xFF, packetBytes)
  {
    hide Xor;
    chksum := 0xFF;
    assert packetBytes[0..] == packetBytes;
    for i := 0 to |packetBytes|
      invariant XorAll(chksum, packetBytes[i..]) == XorAll(0xFF, packetBytes)
    {
      assert packetBytes[i..] == [packetBytes[i]] + packetBytes[i + 1..];
      chksum := Xor(chksum, packetBytes[i]);
    }
  }

  /** struct.pack('>H'). */
  function Pack16(v: nat): (w: Bytes)
    requires v < 0x1_0000
    ensures |w| == 2 && U16(w[0], w[1]) == v
  {
    [v / 0x100, v % 0x100]
  }

  function Primary(mid: nat, dlen: nat): (w: Bytes)
    requires mid < 0x1_0000 && dlen < 0x1_0000
    ensures |w| == 6 && U16(w[4], w[5]) == dlen
  {
    Pack16(mid) + Pack16(0xC000) + Pack16(dlen)
  }

  /** The packet with a given checksum byte. */
  function Command(mid: nat, functionCode: Byte, checksum: Byte, payload: Bytes): Bytes
    requires mid < 0x1_0000 && 2 + |payload| - 1 < 0x1_0000
  {
    Primary(mid, 2 + |payload| - 1) + [functionCode, checksum] + payload
  }

  /** _build_command; struct refuses fields that do not fit. */
  method BuildCommand(mid: nat, functionCode: Byte, payload: Bytes) returns (packet: Bytes)
    requires mid < 0x1_0000 && 2 + |payload| - 1 < 0x1_0000
    ensures packet == Command(mid, functionCode, XorAll(0xFF, Command(mid, functionCode, 0, payload)), payload)
  {
    var dlen := 2 + |payload| - 1;
    var primary := Primary(mid, dlen);
    var checksum := ComputeChecksum(primary + [functionCode, 0] + payload);
    packet := primary + [functionCode, checksum] + payload;
  }

  lemma {:induction false} XorAllSplit(c: Byte, a: Bytes, b: Bytes)
    ensures XorAll(c, a + b) == XorAll(XorAll(c, a), b)
    decreases |a|
  {
    hide Xor;
    if a == [] {
      assert a + b == b;
    } else {
      assert (a + b)[1..] == a[1..] + b;
      XorAllSplit(Xor(c, a[0]), a[1..], b);
    }
  }

  lemma XorLaws(a: Byte, b: Byte, c: Byte)
    ensures Xor(Xor(a, b), c) == Xor(a, Xor(b, c)) && Xor(a, b) == Xor(b, a) && Xor(a, a) == 0 && Xor(a, 0) == a
  {
    hide XorBits;
    XorBitsAssociates(a, b, c, 8);
    XorBitsLaws(a, b, 8);
    XorZero(a, 8);
    XorBelow(a, b, 8);
  }

  /** The running value is carried through unchanged. */
  lemma {:induction false} XorAllCarries(c: Byte, x: Byte, data: Bytes)
    ensures XorAll(Xor(c, x), data) == Xor(XorAll(c, data), x)
    decreases |data|
  {
    hide Xor;
    if data != [] {
      XorLaws(c, x, data[0]);
      XorLaws(c, data[0], x);
      XorLaws(x, data[0], c);
      XorAllCarries(Xor(c, data[0]), x, data[1..]);
    }
  }

  /** The checksum byte enters the sum once. */
  lemma XorWithByte(primary: Bytes, functionCode: Byte, x: Byte, payload: Bytes)
    ensures XorAll(0xFF, primary + [functionCode, x] + payload) ==
            Xor(XorAll(0xFF, primary + [functionCode, 0] + payload), x)
  {
    hide Xor;
    var c := Xor(XorAll(0xFF, primary), functionCode);
    XorTwo(primary, functionCode, x);
    XorTwo(primary, functionCode, 0);
    XorAllSplit(0xFF, primary + [functionCode, x], payload);
    XorAllSplit(0xFF, primary + [functionCode, 0], payload);
    hide XorAll;
    XorLaws(c, 0, 0);
    XorAllCarries(c, x, payload);
  }

  lemma XorTwo(primary: Bytes, functionCode: Byte, x: Byte)
    ensures XorAll(0xFF, primary + [functionCode, x]) == Xor(Xor(XorAll(0xFF, primary), functionCode), x)
  {
    hide Xor;
    XorAllSplit(0xFF, primary, [functionCode, x]);
    var c := Xor(XorAll(0xFF, primary), functionCode);
    assert [functionCode, x][1..] == [x] && [x][1..] == [];
    assert XorAll(c, [x]) == XorAll(Xor(c, x), []);
  }

  /** A built command is one packet, and its checksum recomputes to zero. */
  lemma CommandCloses(mid: nat, functionCode: Byte, payload: Bytes)
    requires mid < 0x1_0000 && 2 + |payload| - 1 < 0x1_0000
    ensures var packet := Command(mid, functionCode, XorAll(0xFF, Command(mid, functionCode, 0, payload)), payload);
            XorAll(0xFF, packet) == 0 && IsPacket(packet) && Packets(packet) == [packet]
  {
    hide Xor;
    hide XorAll;
    hide Packets;
    var primary := Primary(mid, 2 + |payload| - 1);
    var checksum := XorAll(0xFF, Command(mid, functionCode, 0, payload));
    var packet := Command(mid, functionCode, checksum, payload);
    XorWithByte(primary, functionCode, checksum, payload);
    XorLaws(checksum, 0, 0);
    assert packet[4] == primary[4] && packet[5] == primary[5];
    hide Primary;
    assert IsPacket(packet);
    JoinedPackets([packet]);
    assert Join([packet]) == packet;
  }

  /** It is the packet with that message id, an unsegmented sequence control of 0, and the function
      code, the checksum and the payload as its data. */
  lemma CommandIsSpacePacket(mid: nat, functionCode: Byte, checksum: Byte, payload: Bytes)
    requires mid < 0x1_0000 && 2 + |payload| - 1 < 0x1_0000
    ensures Command(mid, functionCode, checksum, payload) ==
            SpacePacket(mid, 3 * 0x4000, [functionCode, checksum] + payload)
  {
    TwoOctets(mid);
    TwoOctets(0xC000);
    TwoOctets(2 + |payload| - 1);
    hide BE;
  }
}
