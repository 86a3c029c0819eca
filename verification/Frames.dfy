/** The telemetry frames of the ESP32 firmware (main.cpp) and of its simulator (esp32_sim.py): for
    the same raw readings the n-th frame of each is the same eighteen bytes, for every n.

    A mask x & (2^k - 1) is written x % 2^k, a shift as a product, and the or of disjoint fields as
    a sum. */
module Frames {
  import opened Bytes

  const APID: nat := 0x096
  const SYNC: Bytes := [0xAA, 0x55]

  type Int16 = x: int | -0x8000 <= x < 0x8000
  type Uint16 = x: int | 0 <= x < 0x1_0000

  /** Raw readings, in hundredths of a degree and of a percent. */
  datatype Reading = Reading(temperature: Int16, humidity: Uint16)

  // ------------------------------------------------------------------ the firmware

  /** build_PacketID, in 16 bits. */
  function BuildPacketID(version: nat, packetType: nat, secondaryHeaderFlag: nat, processID: nat): Uint16 {
    (version % 8 * 0x2000 + packetType % 2 * 0x1000 + secondaryHeaderFlag % 2 * 0x800 + processID % 0x800) % 0x1_0000
  }

  /** build_Sequence_Control, in 16 bits. */
  function BuildSequenceControl(sequenceFlags: nat, sequenceCountName: nat): Uint16 {
    (sequenceFlags % 4 * 0x4000 + sequenceCountName % 0x4000) % 0x1_0000
  }

  /** hton16: swaps the two bytes. */
  function Hton16(v: Uint16): Uint16 { v / 0x100 % 0x100 + v % 0x100 * 0x100 }

  /** How the little-endian processor lays out a uint16 in memory. */
  function Stored(v: Uint16): Bytes { [v % 0x100, v / 0x100 % 0x100] }

  /** The conversion of an int16 to a uint16. */
  function ToU16(v: Int16): Uint16 { v % 0x1_0000 }

  /** The packed struct the firmware fills, as it lies in memory. */
  function FirmwarePacket(count: Uint16, r: Reading): Bytes {
    Stored(Hton16(BuildPacketID(0, 0, 1, APID))) + Stored(Hton16(BuildSequenceControl(3, count)))
    + Stored(Hton16(8 - 1)) + Stored(Hton16(0)) + Stored(Hton16(0))
    + Stored(Hton16(ToU16(r.temperature))) + Stored(Hton16(r.humidity))
  }

  /** createPacketAndSend: the counter is a uint16 that wraps. */
  class Firmware {
    var sequenceCount: Uint16

    constructor ()
      ensures sequenceCount == 0
    {
      sequenceCount := 0;
    }

    /** One turn of the task: what goes out on the serial line. */
    method CreatePacketAndSend(r: Reading) returns (frame: Bytes)
      modifies this
      ensures sequenceCount == (old(sequenceCount) + 1) % 0x1_0000
      ensures frame == SYNC + Stored(14) + FirmwarePacket(old(sequenceCount), r)
    {
      var pid := BuildPacketID(0, 0, 1, APID);
      var packet := Stored(Hton16(pid));
      var seq_ := BuildSequenceControl(3, sequenceCount);
      sequenceCount := (sequenceCount + 1) % 0x1_0000;
      packet := packet + Stored(Hton16(seq_)) + Stored(Hton16(8 - 1)) + Stored(Hton16(0)) + Stored(Hton16(0));
      packet := packet + Stored(Hton16(ToU16(r.temperature))) + Stored(Hton16(r.humidity));
      frame := SYNC + Stored(14) + packet;
    }
  }

  // ------------------------------------------------------------------ the simulator

  /** struct.pack('>H'). */
  function PackBig(v: Uint16): (b: Bytes)
    ensures |b| == 2
  {
    [v / 0x100, v % 0x100]
  }

  /** build_packet, after the readings have been rounded to hundredths. */
  function BuildPacket(count: nat, r: Reading): (p: Bytes)
    ensures |p| == 14
  {
    PackBig(1 * 0x800 + APID % 0x800) + PackBig(3 * 0x4000 + count % 0x4000) + PackBig(8 - 1)
    + PackBig(0) + PackBig(0) + PackBig(ToU16(r.temperature)) + PackBig(r.humidity)
  }

  /** build_frame: the length is little-endian. */
  function BuildFrame(packet: Bytes): Bytes
    requires |packet| < 0x1_0000
  {
    SYNC + [|packet| % 0x100, |packet| / 0x100] + packet
  }

  // ------------------------------------------------------------------ the results

  /** Swapping and storing low byte first is packing high byte first. */
  lemma SwapThenStore(v: Uint16)
    ensures Stored(Hton16(v)) == PackBig(v)
  {
    var hi, lo := v / 0x100, v % 0x100;
    assert (hi + lo * 0x100) % 0x100 == hi && (hi + lo * 0x100) / 0x100 == lo;
  }

  /** The wrap of the counter cannot be seen in the fourteen bits that are sent. */
  lemma WrapKeepsSequence(n: nat)
    ensures BuildSequenceControl(3, n % 0x1_0000) == 3 * 0x4000 + n % 0x4000
  {
    assert n % 0x1_0000 % 0x4000 == n % 0x4000;
  }

  lemma SamePacket(n: nat, r: Reading)
    ensures FirmwarePacket(n % 0x1_0000, r) == BuildPacket(n, r)
  {
    assert BuildPacketID(0, 0, 1, APID) == 1 * 0x800 + APID % 0x800;
    hide Stored;
    hide Hton16;
    hide PackBig;
    hide BuildSequenceControl;
    hide BuildPacketID;
    hide ToU16;
    WrapKeepsSequence(n);
    SwapThenStore(1 * 0x800 + APID % 0x800);
    SwapThenStore(3 * 0x4000 + n % 0x4000);
    SwapThenStore(8 - 1);
    SwapThenStore(0);
    SwapThenStore(ToU16(r.temperature));
    SwapThenStore(r.humidity);
  }

  /** The n-th frames agree: two sync bytes, the length of the packet low byte first, and the packet. */
  lemma SameFrame(n: nat, r: Reading)
    ensures SYNC + Stored(14) + FirmwarePacket(n % 0x1_0000, r) == BuildFrame(BuildPacket(n, r))
    ensures var f := BuildFrame(BuildPacket(n, r));
            |f| == 18 && f[..4] == [0xAA, 0x55, 14, 0] && f[4..] == BuildPacket(n, r)
  {
    hide FirmwarePacket;
    hide BuildPacket;
    SamePacket(n, r);
  }

  /** The first frames the simulator writes for these readings. */
  function SimulatorFrames(rs: seq<Reading>): seq<Bytes>
  {
    seq(|rs|, i requires 0 <= i < |rs| => BuildFrame(BuildPacket(i, rs[i])))
  }

  /** A firmware fresh from reset sends frame by frame what the simulator sends, however long both
      run. */
  method RunFirmware(rs: seq<Reading>) returns (frames: seq<Bytes>)
    ensures frames == SimulatorFrames(rs)
  {
    frames := [];
    var firmware := new Firmware();
    hide BuildPacket;
    hide FirmwarePacket;
    hide BuildFrame;
    for n := 0 to |rs|
      invariant firmware.sequenceCount == n % 0x1_0000 && fresh(firmware)
      invariant |frames| == n && forall i :: 0 <= i < n ==> frames[i] == BuildFrame(BuildPacket(i, rs[i]))
    {
      SameFrame(n, rs[n]);
      Wraps(n);
      var frame := firmware.CreatePacketAndSend(rs[n]);
      frames := frames + [frame];
    }
  }

  lemma Wraps(n: nat)
    ensures (n % 0x1_0000 + 1) % 0x1_0000 == (n + 1) % 0x1_0000
  {}

  /** What the bridge reads back from a packet, high bytes first. */
  function Word(p: Bytes, i: nat): nat
    requires i + 1 < |p|
  {
    (p[i] as int) * 0x100 + p[i + 1]
  }

  function Signed(v: int): int { if v < 0x8000 then v else v - 0x1_0000 }

  /** Unpacking recovers every field: APID and flags, the count modulo 2^14, the length, an empty
      time, and both readings. */
  lemma Unpacks(n: nat, r: Reading)
    ensures var p := BuildPacket(n, r);
            && Word(p, 0) == 0x800 + APID && Word(p, 2) == 3 * 0x4000 + n % 0x4000 && Word(p, 4) + 7 == |p|
            && Word(p, 6) == 0 && Word(p, 8) == 0
            && Signed(Word(p, 10)) == r.temperature && Word(p, 12) == r.humidity
  {
    SignBack(r.temperature);
  }

  lemma SignBack(t: Int16)
    ensures Signed(ToU16(t)) == t
  {}
}
