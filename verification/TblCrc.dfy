/** The table-driven CRC-16 of tblCRCTool (cfe_ts_crc.c): what the signed 16-bit loop computes,
    against bit-by-bit division by the reflected polynomial 0x8005. */
module TblCrc {

  // ------------------------------------------------------------------ reference: one bit at a time

  /** One step of the division: shift out the lowest bit, subtract the polynomial if it was set. */
  function BitStep(c: bv16): bv16 {
    if c & 1 == 1 then (c >> 1) ^ 0xA001 else c >> 1
  }

  /** The sixteen bits in reverse order. */
  function Reflect(x: bv16): bv16 {
    ((x & 0x0001) << 15) | ((x & 0x0002) << 13) | ((x & 0x0004) << 11) | ((x & 0x0008) << 9)
    | ((x & 0x0010) << 7) | ((x & 0x0020) << 5) | ((x & 0x0040) << 3) | ((x & 0x0080) << 1)
    | ((x & 0x0100) >> 1) | ((x & 0x0200) >> 3) | ((x & 0x0400) >> 5) | ((x & 0x0800) >> 7)
    | ((x & 0x1000) >> 9) | ((x & 0x2000) >> 11) | ((x & 0x4000) >> 13) | ((x & 0x8000) >> 15)
  }

  lemma TestMirrored(c: bv16)
    ensures c & 1 == 1 <==> Reflect(c) & 0x8000 != 0
  {}

  lemma ShiftMirrored(c: bv16)
    ensures Reflect(c >> 1) == Reflect(c) << 1
  {}

  lemma PolynomialMirrored(x: bv16)
    ensures Reflect(x ^ 0xA001) == Reflect(x) ^ 0x8005
  {}

  /** The step is that of division by 0x8005 with the highest bit first, seen in a mirror: it tests
      the mirrored bit, shifts the mirrored way and subtracts the mirrored polynomial. */
  lemma StepIsMirrored(c: bv16)
    ensures c & 1 == 1 <==> Reflect(c) & 0x8000 != 0
    ensures Reflect(c >> 1) == Reflect(c) << 1
    ensures Reflect((c >> 1) ^ 0xA001) == Reflect(c >> 1) ^ 0x8005
  {
    TestMirrored(c);
    ShiftMirrored(c);
    PolynomialMirrored(c >> 1);
    hide Reflect;
  }

  /** The remainder register of the division. */
  datatype Word = Word(v: bv16)

  function Step(c: Word): Word { Word(BitStep(c.v)) }
  function Plus(x: Word, y: Word): Word { Word(Xor(x.v, y.v)) }
  function Bit(b: bool): Word { if b then Word(1) else Word(0) }

  /** Division of a bit string, first bit first. */
  function RunBits(c: Word, bits: seq<bool>): Word
    decreases |bits|
  {
    if bits == [] then c else RunBits(Step(Plus(c, Bit(bits[0]))), bits[1..])
  }

  /** The n lowest bits of a byte, lowest first. */
  function BitsFrom(b: bv8, n: nat): (bits: seq<bool>)
    ensures |bits| == n
    decreases n
  {
    if n == 0 then [] else [b & 1 == 1] + BitsFrom(b >> 1, n - 1)
  }

  function ByteBits(b: bv8): (bits: seq<bool>)
    ensures |bits| == 8
  {
    BitsFrom(b, 8)
  }

  function Bits(data: seq<bv8>): (bits: seq<bool>)
    ensures |bits| == 8 * |data|
  {
    if data == [] then [] else ByteBits(data[0]) + Bits(data[1..])
  }

  // ------------------------------------------------------------------ the table

  function Row0(i: bv16): bv16 {
    match i
    case 0x00 => 0x0000 case 0x01 => 0xC0C1 case 0x02 => 0xC181 case 0x03 => 0x0140
    case 0x04 => 0xC301 case 0x05 => 0x03C0 case 0x06 => 0x0280 case 0x07 => 0xC241
    case 0x08 => 0xC601 case 0x09 => 0x06C0 case 0x0A => 0x0780 case 0x0B => 0xC741
    case 0x0C => 0x0500 case 0x0D => 0xC5C1 case 0x0E => 0xC481 case _ => 0x0440
  }

  function Row1(i: bv16): bv16 {
    match i
    case 0x10 => 0xCC01 case 0x11 => 0x0CC0 case 0x12 => 0x0D80 case 0x13 => 0xCD41
    case 0x14 => 0x0F00 case 0x15 => 0xCFC1 case 0x16 => 0xCE81 case 0x17 => 0x0E40
    case 0x18 => 0x0A00 case 0x19 => 0xCAC1 case 0x1A => 0xCB81 case 0x1B => 0x0B40
    case 0x1C => 0xC901 case 0x1D => 0x09C0 case 0x1E => 0x0880 case _ => 0xC841
  }

  function Row2(i: bv16): bv16 {
    match i
    case 0x20 => 0xD801 case 0x21 => 0x18C0 case 0x22 => 0x1980 case 0x23 => 0xD941
    case 0x24 => 0x1B00 case 0x25 => 0xDBC1 case 0x26 => 0xDA81 case 0x27 => 0x1A40
    case 0x28 => 0x1E00 case 0x29 => 0xDEC1 case 0x2A => 0xDF81 case 0x2B => 0x1F40
    case 0x2C => 0xDD01 case 0x2D => 0x1DC0 case 0x2E => 0x1C80 case _ => 0xDC41
  }

  function Row3(i: bv16): bv16 {
    match i
    case 0x30 => 0x1400 case 0x31 => 0xD4C1 case 0x32 => 0xD581 case 0x33 => 0x1540
    case 0x34 => 0xD701 case 0x35 => 0x17C0 case 0x36 => 0x1680 case 0x37 => 0xD641
    case 0x38 => 0xD201 case 0x39 => 0x12C0 case 0x3A => 0x1380 case 0x3B => 0xD341
    case 0x3C => 0x1100 case 0x3D => 0xD1C1 case 0x3E => 0xD081 case _ => 0x1040
  }

  function Row4(i: bv16): bv16 {
    match i
    case 0x40 => 0xF001 case 0x41 => 0x30C0 case 0x42 => 0x3180 case 0x43 => 0xF141
    case 0x44 => 0x3300 case 0x45 => 0xF3C1 case 0x46 => 0xF281 case 0x47 => 0x3240
    case 0x48 => 0x3600 case 0x49 => 0xF6C1 case 0x4A => 0xF781 case 0x4B => 0x3740
    case 0x4C => 0xF501 case 0x4D => 0x35C0 case 0x4E => 0x3480 case _ => 0xF441
  }

  function Row5(i: bv16): bv16 {
    match i
    case 0x50 => 0x3C00 case 0x51 => 0xFCC1 case 0x52 => 0xFD81 case 0x53 => 0x3D40
    case 0x54 => 0xFF01 case 0x55 => 0x3FC0 case 0x56 => 0x3E80 case 0x57 => 0xFE41
    case 0x58 => 0xFA01 case 0x59 => 0x3AC0 case 0x5A => 0x3B80 case 0x5B => 0xFB41
    case 0x5C => 0x3900 case 0x5D => 0xF9C1 case 0x5E => 0xF881 case _ => 0x3840
  }

  function Row6(i: bv16): bv16 {
    match i
    case 0x60 => 0x2800 case 0x61 => 0xE8C1 case 0x62 => 0xE981 case 0x63 => 0x2940
    case 0x64 => 0xEB01 case 0x65 => 0x2BC0 case 0x66 => 0x2A80 case 0x67 => 0xEA41
    case 0x68 => 0xEE01 case 0x69 => 0x2EC0 case 0x6A => 0x2F80 case 0x6B => 0xEF41
    case 0x6C => 0x2D00 case 0x6D => 0xEDC1 case 0x6E => 0xEC81 case _ => 0x2C40
  }

  function Row7(i: bv16): bv16 {
    match i
    case 0x70 => 0xE401 case 0x71 => 0x24C0 case 0x72 => 0x2580 case 0x73 => 0xE541
    case 0x74 => 0x2700 case 0x75 => 0xE7C1 case 0x76 => 0xE681 case 0x77 => 0x2640
    case 0x78 => 0x2200 case 0x79 => 0xE2C1 case 0x7A => 0xE381 case 0x7B => 0x2340
    case 0x7C => 0xE101 case 0x7D => 0x21C0 case 0x7E => 0x2080 case _ => 0xE041
  }

  function Row8(i: bv16): bv16 {
    match i
    case 0x80 => 0xA001 case 0x81 => 0x60C0 case 0x82 => 0x6180 case 0x83 => 0xA141
    case 0x84 => 0x6300 case 0x85 => 0xA3C1 case 0x86 => 0xA281 case 0x87 => 0x6240
    case 0x88 => 0x6600 case 0x89 => 0xA6C1 case 0x8A => 0xA781 case 0x8B => 0x6740
    case 0x8C => 0xA501 case 0x8D => 0x65C0 case 0x8E => 0x6480 case _ => 0xA441
  }

  function Row9(i: bv16): bv16 {
    match i
    case 0x90 => 0x6C00 case 0x91 => 0xACC1 case 0x92 => 0xAD81 case 0x93 => 0x6D40
    case 0x94 => 0xAF01 case 0x95 => 0x6FC0 case 0x96 => 0x6E80 case 0x97 => 0xAE41
    case 0x98 => 0xAA01 case 0x99 => 0x6AC0 case 0x9A => 0x6B80 case 0x9B => 0xAB41
    case 0x9C => 0x6900 case 0x9D => 0xA9C1 case 0x9E => 0xA881 case _ => 0x6840
  }

  function RowA(i: bv16): bv16 {
    match i
    case 0xA0 => 0x7800 case 0xA1 => 0xB8C1 case 0xA2 => 0xB981 case 0xA3 => 0x7940
    case 0xA4 => 0xBB01 case 0xA5 => 0x7BC0 case 0xA6 => 0x7A80 case 0xA7 => 0xBA41
    case 0xA8 => 0xBE01 case 0xA9 => 0x7EC0 case 0xAA => 0x7F80 case 0xAB => 0xBF41
    case 0xAC => 0x7D00 case 0xAD => 0xBDC1 case 0xAE => 0xBC81 case _ => 0x7C40
  }

  function RowB(i: bv16): bv16 {
    match i
    case 0xB0 => 0xB401 case 0xB1 => 0x74C0 case 0xB2 => 0x7580 case 0xB3 => 0xB541
    case 0xB4 => 0x7700 case 0xB5 => 0xB7C1 case 0xB6 => 0xB681 case 0xB7 => 0x7640
    case 0xB8 => 0x7200 case 0xB9 => 0xB2C1 case 0xBA => 0xB381 case 0xBB => 0x7340
    case 0xBC => 0xB101 case 0xBD => 0x71C0 case 0xBE => 0x7080 case _ => 0xB041
  }

  function RowC(i: bv16): bv16 {
    match i
    case 0xC0 => 0x5000 case 0xC1 => 0x90C1 case 0xC2 => 0x9181 case 0xC3 => 0x5140
    case 0xC4 => 0x9301 case 0xC5 => 0x53C0 case 0xC6 => 0x5280 case 0xC7 => 0x9241
    case 0xC8 => 0x9601 case 0xC9 => 0x56C0 case 0xCA => 0x5780 case 0xCB => 0x9741
    case 0xCC => 0x5500 case 0xCD => 0x95C1 case 0xCE => 0x9481 case _ => 0x5440
  }

  function RowD(i: bv16): bv16 {
    match i
    case 0xD0 => 0x9C01 case 0xD1 => 0x5CC0 case 0xD2 => 0x5D80 case 0xD3 => 0x9D41
    case 0xD4 => 0x5F00 case 0xD5 => 0x9FC1 case 0xD6 => 0x9E81 case 0xD7 => 0x5E40
    case 0xD8 => 0x5A00 case 0xD9 => 0x9AC1 case 0xDA => 0x9B81 case 0xDB => 0x5B40
    case 0xDC => 0x9901 case 0xDD => 0x59C0 case 0xDE => 0x5880 case _ => 0x9841
  }

  function RowE(i: bv16): bv16 {
    match i
    case 0xE0 => 0x8801 case 0xE1 => 0x48C0 case 0xE2 => 0x4980 case 0xE3 => 0x8941
    case 0xE4 => 0x4B00 case 0xE5 => 0x8BC1 case 0xE6 => 0x8A81 case 0xE7 => 0x4A40
    case 0xE8 => 0x4E00 case 0xE9 => 0x8EC1 case 0xEA => 0x8F81 case 0xEB => 0x4F40
    case 0xEC => 0x8D01 case 0xED => 0x4DC0 case 0xEE => 0x4C80 case _ => 0x8C41
  }

  function RowF(i: bv16): bv16 {
    match i
    case 0xF0 => 0x4400 case 0xF1 => 0x84C1 case 0xF2 => 0x8581 case 0xF3 => 0x4540
    case 0xF4 => 0x8701 case 0xF5 => 0x47C0 case 0xF6 => 0x4680 case 0xF7 => 0x8641
    case 0xF8 => 0x8201 case 0xF9 => 0x42C0 case 0xFA => 0x4380 case 0xFB => 0x8341
    case 0xFC => 0x4100 case 0xFD => 0x81C1 case 0xFE => 0x8081 case _ => 0x4040
  }

  /** CrcTable of CalculateCRC. */
  function Table(i: bv16): bv16
    requires i < 0x100
  {
    if i < 0x10 then Row0(i)
    else if i < 0x20 then Row1(i)
    else if i < 0x30 then Row2(i)
    else if i < 0x40 then Row3(i)
    else if i < 0x50 then Row4(i)
    else if i < 0x60 then Row5(i)
    else if i < 0x70 then Row6(i)
    else if i < 0x80 then Row7(i)
    else if i < 0x90 then Row8(i)
    else if i < 0xA0 then Row9(i)
    else if i < 0xB0 then RowA(i)
    else if i < 0xC0 then RowB(i)
    else if i < 0xD0 then RowC(i)
    else if i < 0xE0 then RowD(i)
    else if i < 0xF0 then RowE(i)
    else RowF(i)
  }

  function EightSteps(c: bv16): bv16 {
    BitStep(BitStep(BitStep(BitStep(BitStep(BitStep(BitStep(BitStep(c))))))))
  }

  lemma Row0Divides(i: bv16)
    requires 0x00 <= i < 0x10
    ensures Row0(i) == EightSteps(i)
  {}

  lemma Row1Divides(i: bv16)
    requires 0x10 <= i < 0x20
    ensures Row1(i) == EightSteps(i)
  {}

  lemma Row2Divides(i: bv16)
    requires 0x20 <= i < 0x30
    ensures Row2(i) == EightSteps(i)
  {}

  lemma Row3Divides(i: bv16)
    requires 0x30 <= i < 0x40
    ensures Row3(i) == EightSteps(i)
  {}

  lemma Row4Divides(i: bv16)
    requires 0x40 <= i < 0x50
    ensures Row4(i) == EightSteps(i)
  {}

  lemma Row5Divides(i: bv16)
    requires 0x50 <= i < 0x60
    ensures Row5(i) == EightSteps(i)
  {}

  lemma Row6Divides(i: bv16)
    requires 0x60 <= i < 0x70
    ensures Row6(i) == EightSteps(i)
  {}

  lemma Row7Divides(i: bv16)
    requires 0x70 <= i < 0x80
    ensures Row7(i) == EightSteps(i)
  {}

  lemma Row8Divides(i: bv16)
    requires 0x80 <= i < 0x90
    ensures Row8(i) == EightSteps(i)
  {}

  lemma Row9Divides(i: bv16)
    requires 0x90 <= i < 0xA0
    ensures Row9(i) == EightSteps(i)
  {}

  lemma RowADivides(i: bv16)
    requires 0xA0 <= i < 0xB0
    ensures RowA(i) == EightSteps(i)
  {}

  lemma RowBDivides(i: bv16)
    requires 0xB0 <= i < 0xC0
    ensures RowB(i) == EightSteps(i)
  {}

  lemma RowCDivides(i: bv16)
    requires 0xC0 <= i < 0xD0
    ensures RowC(i) == EightSteps(i)
  {}

  lemma RowDDivides(i: bv16)
    requires 0xD0 <= i < 0xE0
    ensures RowD(i) == EightSteps(i)
  {}

  lemma RowEDivides(i: bv16)
    requires 0xE0 <= i < 0xF0
    ensures RowE(i) == EightSteps(i)
  {}

  lemma RowFDivides(i: bv16)
    requires 0xF0 <= i < 0x100
    ensures RowF(i) == EightSteps(i)
  {}

  /** Every entry of the table is eight steps of the division. */
  lemma TableDivides(i: bv16)
    requires i < 0x100
    ensures Table(i) == EightSteps(i)
  {
    hide EightSteps;
    hide Row0;
    hide Row1;
    hide Row2;
    hide Row3;
    hide Row4;
    hide Row5;
    hide Row6;
    hide Row7;
    hide Row8;
    hide Row9;
    hide RowA;
    hide RowB;
    hide RowC;
    hide RowD;
    hide RowE;
    hide RowF;
    if i < 0x10 {
      Row0Divides(i);
    } else if i < 0x20 {
      Row1Divides(i);
    } else if i < 0x30 {
      Row2Divides(i);
    } else if i < 0x40 {
      Row3Divides(i);
    } else if i < 0x50 {
      Row4Divides(i);
    } else if i < 0x60 {
      Row5Divides(i);
    } else if i < 0x70 {
      Row6Divides(i);
    } else if i < 0x80 {
      Row7Divides(i);
    } else if i < 0x90 {
      Row8Divides(i);
    } else if i < 0xA0 {
      Row9Divides(i);
    } else if i < 0xB0 {
      RowADivides(i);
    } else if i < 0xC0 {
      RowBDivides(i);
    } else if i < 0xD0 {
      RowCDivides(i);
    } else if i < 0xE0 {
      RowDDivides(i);
    } else if i < 0xF0 {
      RowEDivides(i);
    } else {
      RowFDivides(i);
    }
  }

  // ------------------------------------------------------------------ the loop of CalculateCRC

  /** An int16 promoted to a 32-bit int, with its sign bits. */
  function Sign(c: bv16): bv32 { if c & 0x8000 != 0 then 0xFFFF_0000 else 0 }
  function Promote(c: bv16): bv32 { Sign(c) | (c as bv32) }

  /** x >> 8 on a signed 32-bit int, which repeats the sign. */
  function ArithShift8(x: bv32): bv32 {
    if x & 0x8000_0000 != 0 then (x >> 8) | 0xFF00_0000 else x >> 8
  }

  /** What the assignment of a 32-bit int to an int16 keeps. */
  function Low16(x: bv32): bv16 { (x & 0xFFFF) as bv16 }

  /** Index = ((Crc ^ *BufPtr) & 0x00FF). */
  function TableIndex(c: bv16, b: bv8): (i: bv16)
    ensures i < 0x100
  {
    Low16((Promote(c) ^ (b as bv32)) & 0x00FF)
  }

  /** The two bytes of a CRC, and exclusive or. */
  function High(c: bv16): bv16 { c >> 8 }
  function Low(c: bv16): (l: bv16)
    ensures l < 0x100
  {
    c & 0xFF
  }
  function Xor(x: bv16, y: bv16): bv16 { x ^ y }
  function Mix(c: bv16, b: bv8): bv16 { c ^ (b as bv16) }

  /** (Crc >> 8) & 0x00FF. */
  function HighByte(c: bv16): bv32 { ArithShift8(Promote(c)) & 0x00FF }

  /** ((Crc >> 8) & 0x00FF) ^ entry, assigned back to Crc. */
  function ShiftAndXor(c: bv16, entry: bv16): bv16 {
    Low16(HighByte(c) ^ (entry as bv32))
  }

  /** Crc = ((Crc >> 8) & 0x00FF) ^ CrcTable[Index]. */
  function TableStep(c: bv16, b: bv8): bv16 {
    ShiftAndXor(c, Table(TableIndex(c, b)))
  }

  function RunBytes(c: bv16, data: seq<bv8>): bv16
    decreases |data|
  {
    if data == [] then c else RunBytes(TableStep(c, data[0]), data[1..])
  }

  /** The sign never matters. */
  lemma PromotedIndex(c: bv16, b: bv8)
    ensures (Promote(c) ^ (b as bv32)) & 0x00FF == Low(Mix(c, b)) as bv32
  {}

  lemma Low16Inverse(x: bv32, y: bv16)
    requires x == y as bv32
    ensures Low16(x) == y
  {}

  lemma IndexUnsigned(c: bv16, b: bv8)
    ensures TableIndex(c, b) == Low(Mix(c, b))
  {
    hide Low16;
    hide Promote;
    hide Low;
    hide Mix;
    PromotedIndex(c, b);
    Low16Inverse((Promote(c) ^ (b as bv32)) & 0x00FF, Low(Mix(c, b)));
  }

  lemma ShiftedUnsigned(c: bv16)
    ensures HighByte(c) == High(c) as bv32
  {}

  lemma XoredUnsigned(x: bv32, u: bv16, v: bv16)
    requires x == u as bv32
    ensures Low16(x ^ (v as bv32)) == Xor(u, v)
  {}

  lemma ShiftUnsigned(c: bv16, entry: bv16)
    ensures ShiftAndXor(c, entry) == Xor(High(c), entry)
  {
    hide Low16;
    hide HighByte;
    hide High;
    hide Xor;
    ShiftedUnsigned(c);
    XoredUnsigned(HighByte(c), High(c), entry);
  }

  /** Eight steps shift out the low byte and leave the high byte shifted down. */
  lemma EightStepsSplit(c: bv16)
    ensures EightSteps(c) == Xor(High(c), EightSteps(Low(c)))
  {
    hide BitStep;
    hide Twice;
    hide Xor;
    hide High;
    hide Low;
    var h, l := High(c), Low(c);
    var h1 := Twice(h);
    var h2 := Twice(h1);
    var h3 := Twice(h2);
    var h4 := Twice(h3);
    var h5 := Twice(h4);
    var h6 := Twice(h5);
    var h7 := Twice(h6);
    HighSmall(c);
    HighAndLow(c);
    var l1 := BitStep(l);
    var l2 := BitStep(l1);
    var l3 := BitStep(l2);
    var l4 := BitStep(l3);
    var l5 := BitStep(l4);
    var l6 := BitStep(l5);
    var l7 := BitStep(l6);
    BitStepUnder(l, h7);
    BitStepUnder(l1, h6);
    BitStepUnder(l2, h5);
    BitStepUnder(l3, h4);
    BitStepUnder(l4, h3);
    BitStepUnder(l5, h2);
    BitStepUnder(l6, h1);
    BitStepUnder(l7, h);
    XorSwaps(BitStep(l7), h);
  }

  lemma XorSwaps(x: bv16, y: bv16)
    ensures Xor(x, y) == Xor(y, x)
  {}

  /** The high byte stays inside fifteen bits seven places up. */
  lemma HighSmall(c: bv16)
    ensures High(c) < 0x8000 && Twice(High(c)) < 0x8000 && Twice(Twice(High(c))) < 0x8000
    ensures Twice(Twice(Twice(High(c)))) < 0x8000 && Twice(Twice(Twice(Twice(High(c))))) < 0x8000
    ensures Twice(Twice(Twice(Twice(Twice(High(c)))))) < 0x8000
    ensures Twice(Twice(Twice(Twice(Twice(Twice(High(c))))))) < 0x8000
    ensures Twice(Twice(Twice(Twice(Twice(Twice(Twice(High(c)))))))) < 0x8000
  {}

  /** Eight places up it is the high byte again. */
  lemma HighAndLow(c: bv16)
    ensures c == Xor(Low(c), Twice(Twice(Twice(Twice(Twice(Twice(Twice(Twice(High(c))))))))))
  {}

  lemma MixKeepsHigh(c: bv16, b: bv8)
    ensures High(Mix(c, b)) == High(c)
  {}

  /** One turn of the loop is eight steps of the division. */
  lemma TableStepDivides(c: bv16, b: bv8)
    ensures TableStep(c, b) == EightSteps(Mix(c, b))
  {
    hide Table;
    hide EightSteps;
    hide TableIndex;
    hide ShiftAndXor;
    hide High;
    hide Low;
    hide Xor;
    hide Mix;
    IndexUnsigned(c, b);
    TableDivides(Low(Mix(c, b)));
    ShiftUnsigned(c, Table(TableIndex(c, b)));
    MixKeepsHigh(c, b);
    EightStepsSplit(Mix(c, b));
  }

  // ------------------------------------------------------------------ bit strings as words

  /** x with y mixed in one place up. */
  function Push(x: Word, y: Word): Word { Word(Xor(x.v, Twice(y.v))) }

  predicate Small(p: Word) { p.v < 0x8000 }

  /** A bit string as a number, first bit lowest. */
  function Pack(w: seq<bool>): Word
    decreases |w|
  {
    if w == [] then Word(0) else Push(Bit(w[0]), Pack(w[1..]))
  }

  /** 2^n. */
  function Limit(n: nat): Word
    requires n < 16
  {
    match n
    case 0 => Word(0x0001) case 1 => Word(0x0002) case 2 => Word(0x0004) case 3 => Word(0x0008)
    case 4 => Word(0x0010) case 5 => Word(0x0020) case 6 => Word(0x0040) case 7 => Word(0x0080)
    case 8 => Word(0x0100) case 9 => Word(0x0200) case 10 => Word(0x0400) case 11 => Word(0x0800)
    case 12 => Word(0x1000) case 13 => Word(0x2000) case 14 => Word(0x4000) case 15 => Word(0x8000)
  }

  predicate Below(x: Word, y: Word) { x.v < y.v }
  predicate Doubles(l: Word, m: Word) { l.v <= 0x4000 && m.v == l.v << 1 }

  lemma PushBelow(b: bool, p: Word, l: Word, m: Word)
    requires Below(p, l) && Doubles(l, m)
    ensures Below(Push(Bit(b), p), m)
  {}

  lemma LimitDoubles(n: nat)
    requires n < 15
    ensures Doubles(Limit(n), Limit(n + 1))
  {}

  lemma {:induction false} PackBelow(w: seq<bool>)
    requires |w| < 16
    ensures Below(Pack(w), Limit(|w|))
    decreases |w|
  {
    if w != [] {
      hide Below;
      hide Doubles;
      hide Limit;
      hide Push;
      hide Bit;
      PackBelow(w[1..]);
      LimitDoubles(|w| - 1);
      PushBelow(w[0], Pack(w[1..]), Limit(|w| - 1), Limit(|w|));
    }
  }

  lemma BelowLimitSmall(p: Word, n: nat)
    requires n < 16 && Below(p, Limit(n))
    ensures Small(p)
  {}

  lemma PackSmall(w: seq<bool>)
    requires |w| < 16
    ensures Small(Pack(w))
  {
    hide Below;
    hide Limit;
    hide Pack;
    hide Small;
    PackBelow(w);
    BelowLimitSmall(Pack(w), |w|);
  }

  lemma PushInjective(a: bool, p: Word, b: bool, q: Word)
    requires Small(p) && Small(q) && Push(Bit(a), p) == Push(Bit(b), q)
    ensures a == b && p == q
  {}

  lemma {:induction false} PackInjective(v: seq<bool>, w: seq<bool>)
    requires |v| == |w| <= 16 && Pack(v) == Pack(w)
    ensures v == w
    decreases |v|
  {
    if v != [] {
      hide Push;
      hide Small;
      hide Bit;
      PackSmall(v[1..]);
      PackSmall(w[1..]);
      PushInjective(v[0], Pack(v[1..]), w[0], Pack(w[1..]));
      PackInjective(v[1..], w[1..]);
      assert v == [v[0]] + v[1..] && w == [w[0]] + w[1..];
    }
  }

  // ------------------------------------------------------------------ runs as words

  function Steps(c: Word, n: nat): Word
    decreases n
  {
    if n == 0 then c else Steps(Step(c), n - 1)
  }

  lemma StepInjective(c: Word, d: Word)
    requires Step(c) == Step(d)
    ensures c == d
  {}

  lemma {:induction false} StepsInjective(c: Word, d: Word, n: nat)
    requires Steps(c, n) == Steps(d, n)
    ensures c == d
    decreases n
  {
    hide Step;
    if n > 0 {
      StepsInjective(Step(c), Step(d), n - 1);
      StepInjective(c, d);
    }
  }

  function Odd(c: bv16): bool { c & 1 == 1 }
  function Half(c: bv16): bv16 { c >> 1 }
  function Twice(c: bv16): bv16 { c << 1 }
  function Subtract(c: bv16): bv16 { c ^ 0xA001 }

  lemma BitStepIs(c: bv16)
    ensures BitStep(c) == if Odd(c) then Subtract(Half(c)) else Half(c)
  {}

  lemma OddUnder(d: bv16, p: bv16)
    ensures Odd(Xor(d, Twice(p))) == Odd(d)
  {}

  lemma HalfUnder(d: bv16, p: bv16)
    requires p < 0x8000
    ensures Half(Xor(d, Twice(p))) == Xor(Half(d), p)
  {}

  lemma SubtractUnder(x: bv16, p: bv16)
    ensures Subtract(Xor(x, p)) == Xor(Subtract(x), p)
  {}

  lemma BitStepUnder(d: bv16, p: bv16)
    requires p < 0x8000
    ensures BitStep(Xor(d, Twice(p))) == Xor(BitStep(d), p)
  {
    hide BitStep;
    hide Odd;
    hide Half;
    hide Twice;
    hide Subtract;
    hide Xor;
    BitStepIs(Xor(d, Twice(p)));
    BitStepIs(d);
    OddUnder(d, p);
    HalfUnder(d, p);
    SubtractUnder(Half(d), p);
  }

  /** Bits not yet reached only shift down. */
  lemma StepUnder(d: Word, p: Word)
    requires Small(p)
    ensures Step(Push(d, p)) == Plus(Step(d), p)
  {
    hide BitStep;
    hide Xor;
    hide Twice;
    BitStepUnder(d.v, p.v);
  }

  lemma PlusPush(c: Word, bit: Word, p: Word)
    ensures Plus(c, Push(bit, p)) == Push(Plus(c, bit), p)
  {}

  lemma PlusZero(c: Word)
    ensures Plus(c, Word(0)) == c
  {}

  /** Dividing up to sixteen bits is mixing them in at once and stepping as often. */
  lemma {:induction false} RunBitsIsSteps(c: Word, w: seq<bool>)
    requires |w| <= 16
    ensures RunBits(c, w) == Steps(Plus(c, Pack(w)), |w|)
    decreases |w|
  {
    if w == [] {
      PlusZero(c);
    } else {
      hide Step;
      hide Bit;
      hide Plus;
      hide Push;
      hide Small;
      PackSmall(w[1..]);
      RunBitsIsSteps(Step(Plus(c, Bit(w[0]))), w[1..]);
      PlusPush(c, Bit(w[0]), Pack(w[1..]));
      StepUnder(Plus(c, Bit(w[0])), Pack(w[1..]));
    }
  }

  lemma PlusCancels(c: Word, d: Word, x: Word)
    requires Plus(c, x) == Plus(d, x) || Plus(x, c) == Plus(x, d)
    ensures c == d
  {}

  /** The division loses nothing: for the same bits, different registers stay different. */
  lemma {:induction false} RunBitsInjective(c: Word, d: Word, w: seq<bool>)
    requires RunBits(c, w) == RunBits(d, w)
    ensures c == d
    decreases |w|
  {
    if w != [] {
      hide Step;
      hide Bit;
      hide Plus;
      var b := Bit(w[0]);
      RunBitsInjective(Step(Plus(c, b)), Step(Plus(d, b)), w[1..]);
      StepInjective(Plus(c, b), Plus(d, b));
      PlusCancels(c, d, b);
    }
  }

  lemma {:induction false} RunBitsConcat(c: Word, v: seq<bool>, w: seq<bool>)
    ensures RunBits(c, v + w) == RunBits(RunBits(c, v), w)
    decreases |v|
  {
    hide Step;
    hide Bit;
    hide Plus;
    if v == [] {
      assert v + w == w;
    } else {
      assert (v + w)[1..] == v[1..] + w;
      RunBitsConcat(Step(Plus(c, Bit(v[0]))), v[1..], w);
    }
  }

  /** Two different strings of up to sixteen bits never leave the same remainder. */
  lemma ShortRunsDiffer(c: Word, v: seq<bool>, w: seq<bool>)
    requires |v| == |w| <= 16 && v != w
    ensures RunBits(c, v) != RunBits(c, w)
  {
    hide Plus;
    hide Pack;
    RunBitsIsSteps(c, v);
    RunBitsIsSteps(c, w);
    if RunBits(c, v) == RunBits(c, w) {
      StepsInjective(Plus(c, Pack(v)), Plus(c, Pack(w)), |v|);
      PlusCancels(Pack(v), Pack(w), c);
      PackInjective(v, w);
    }
  }

  // ------------------------------------------------------------------ the table loop divides

  /** What is left of a byte after n shifts. */
  function Rest(b: bv8, n: nat): bv8
    decreases n
  {
    if n == 0 then b else Rest(b >> 1, n - 1)
  }

  lemma RestOfByte(b: bv8)
    ensures Rest(b, 8) == 0
  {
    assert Rest(b, 8) == Rest(b >> 1 >> 1 >> 1 >> 1, 4);
  }

  lemma PushByte(b: bv8)
    ensures Push(Bit(b & 1 == 1), Word((b >> 1) as bv16)) == Word(b as bv16)
  {}

  lemma {:induction false} PackBitsFrom(b: bv8, n: nat)
    requires Rest(b, n) == 0
    ensures Pack(BitsFrom(b, n)) == Word(b as bv16)
    decreases n
  {
    if n > 0 {
      hide Push;
      hide Bit;
      PackBitsFrom(b >> 1, n - 1);
      PushByte(b);
      assert BitsFrom(b, n)[1..] == BitsFrom(b >> 1, n - 1);
    }
  }

  lemma StepsOfEight(c: Word)
    ensures Steps(c, 8) == Word(EightSteps(c.v))
  {
    hide BitStep;
    var c2 := Step(Step(c));
    var c4 := Step(Step(c2));
    var c6 := Step(Step(c4));
    assert Steps(c, 8) == Steps(c2, 6) && Steps(c2, 6) == Steps(c4, 4) && Steps(c4, 4) == Steps(c6, 2);
  }

  lemma PlusByte(c: bv16, b: bv8)
    ensures Plus(Word(c), Word(b as bv16)).v == Mix(c, b)
  {}

  /** One turn of the loop is the division of the eight bits of the byte. */
  lemma TableStepRuns(c: bv16, b: bv8)
    ensures RunBits(Word(c), ByteBits(b)) == Word(TableStep(c, b))
  {
    RestOfByte(b);
    hide EightSteps;
    hide Rest;
    hide Plus;
    hide Mix;
    hide TableStep;
    hide BitsFrom;
    RunBitsIsSteps(Word(c), ByteBits(b));
    PackBitsFrom(b, 8);
    StepsOfEight(Plus(Word(c), Word(b as bv16)));
    PlusByte(c, b);
    TableStepDivides(c, b);
  }

  /** The table loop computes the bit-by-bit division of the whole buffer. */
  lemma {:induction false} RunBytesDivides(c: bv16, data: seq<bv8>)
    ensures Word(RunBytes(c, data)) == RunBits(Word(c), Bits(data))
    decreases |data|
  {
    if data != [] {
      hide TableStep;
      hide ByteBits;
      RunBytesDivides(TableStep(c, data[0]), data[1..]);
      TableStepRuns(c, data[0]);
      RunBitsConcat(Word(c), ByteBits(data[0]), Bits(data[1..]));
    }
  }

  // ------------------------------------------------------------------ CalculateCRC

  /** CalculateCRC: the input is masked to 16 bits, the int16 result is widened with its sign. */
  function CrcOf(data: seq<bv8>, input: bv32): bv32 {
    Promote(RunBytes(Low16(input), data))
  }

  lemma SignMasked(c: bv16)
    ensures Sign(c) & 0xFFFF == 0
  {}

  lemma Low16OfSigned(sign: bv32, c: bv16)
    requires sign & 0xFFFF == 0
    ensures Low16(sign | (c as bv32)) == c
  {}

  lemma PromoteLow16(c: bv16)
    ensures Low16(Promote(c)) == c
  {
    hide Low16;
    hide Sign;
    SignMasked(c);
    Low16OfSigned(Sign(c), c);
  }

  /** For every buffer and input: the division, sign-extended. */
  lemma CrcIsDivision(data: seq<bv8>, input: bv32)
    ensures CrcOf(data, input) == Promote(RunBits(Word(Low16(input)), Bits(data)).v)
    ensures Low16(CrcOf(data, input)) == RunBits(Word(Low16(input)), Bits(data)).v
  {
    hide RunBytes;
    hide RunBits;
    hide Promote;
    hide Low16;
    RunBytesDivides(Low16(input), data);
    PromoteLow16(RunBytes(Low16(input), data));
  }

  lemma {:induction false} RunBytesConcat(c: bv16, a: seq<bv8>, b: seq<bv8>)
    ensures RunBytes(c, a + b) == RunBytes(RunBytes(c, a), b)
    decreases |a|
  {
    hide TableStep;
    if a == [] {
      assert a + b == b;
    } else {
      assert (a + b)[1..] == a[1..] + b;
      RunBytesConcat(TableStep(c, a[0]), a[1..], b);
    }
  }

  /** Feeding the result of one call into the next is one call on the concatenation: the masking
      undoes the sign extension. */
  lemma Chaining(a: seq<bv8>, b: seq<bv8>, input: bv32)
    ensures CrcOf(a + b, input) == CrcOf(b, CrcOf(a, input))
  {
    hide RunBytes;
    hide Promote;
    hide Low16;
    RunBytesConcat(Low16(input), a, b);
    PromoteLow16(RunBytes(Low16(input), a));
  }

  /** For the same data, inputs that differ in their low 16 bits give different results. */
  lemma InputInjective(data: seq<bv8>, c: bv32, d: bv32)
    requires Low16(c) != Low16(d)
    ensures Low16(CrcOf(data, c)) != Low16(CrcOf(data, d))
  {
    hide RunBits;
    hide Low16;
    hide CrcOf;
    CrcIsDivision(data, c);
    CrcIsDivision(data, d);
    WordsDiffer(RunBits(Word(Low16(c)), Bits(data)), RunBits(Word(Low16(d)), Bits(data)));
    if RunBits(Word(Low16(c)), Bits(data)) == RunBits(Word(Low16(d)), Bits(data)) {
      RunBitsInjective(Word(Low16(c)), Word(Low16(d)), Bits(data));
    }
  }

  lemma WordsDiffer(x: Word, y: Word)
    ensures x == y <==> x.v == y.v
  {}

  // ------------------------------------------------------------------ burst detection

  /** Two bit strings of the same length agree outside the window [from, from + 16). */
  predicate AgreeOutside(v: seq<bool>, w: seq<bool>, from: nat) {
    |v| == |w| && forall i :: 0 <= i < |v| && !(from <= i < from + 16) ==> v[i] == w[i]
  }

  /** Any error burst of up to sixteen bits changes the remainder, for every register, prefix and
      suffix. */
  lemma BurstDetected(c: Word, v: seq<bool>, w: seq<bool>, from: nat)
    requires AgreeOutside(v, w, from) && v != w
    ensures RunBits(c, v) != RunBits(c, w)
  {
    hide RunBits;
    var start := if from < |v| then from else |v|;
    var end := if from + 16 < |v| then from + 16 else |v|;
    var v0, v1, v2 := v[..start], v[start..end], v[end..];
    var w0, w1, w2 := w[..start], w[start..end], w[end..];
    assert v0 == w0 && v2 == w2;
    assert v == v0 + v1 + v2 && w == w0 + w1 + w2;
    RunBitsConcat(c, v0 + v1, v2);
    RunBitsConcat(c, w0 + w1, w2);
    RunBitsConcat(c, v0, v1);
    RunBitsConcat(c, w0, w1);
    var c0 := RunBits(c, v0);
    ShortRunsDiffer(c0, v1, w1);
    if RunBits(c, v) == RunBits(c, w) {
      RunBitsInjective(RunBits(c0, v1), RunBits(c0, w1), v2);
    }
  }

  lemma {:induction false} ByteBitsInjective(a: bv8, b: bv8, n: nat)
    requires BitsFrom(a, n) == BitsFrom(b, n) && Rest(a, n) == 0 && Rest(b, n) == 0
    ensures a == b
    decreases n
  {
    if n > 0 {
      assert BitsFrom(a, n)[1..] == BitsFrom(a >> 1, n - 1) && BitsFrom(b, n)[1..] == BitsFrom(b >> 1, n - 1);
      assert BitsFrom(a, n)[0] == BitsFrom(b, n)[0];
      ByteBitsInjective(a >> 1, b >> 1, n - 1);
      SameHalves(a, b);
    }
  }

  lemma SameHalves(a: bv8, b: bv8)
    requires a >> 1 == b >> 1 && (a & 1 == 1 <==> b & 1 == 1)
    ensures a == b
  {}

  lemma {:induction false} BitsInjective(a: seq<bv8>, b: seq<bv8>)
    requires |a| == |b| && Bits(a) == Bits(b)
    ensures a == b
    decreases |a|
  {
    if a != [] {
      hide Bits;
      hide ByteBits;
      hide BitsFrom;
      hide Rest;
      BitsCons(a);
      BitsCons(b);
      SplitEqual(ByteBits(a[0]), Bits(a[1..]), ByteBits(b[0]), Bits(b[1..]));
      SameByte(a[0], b[0]);
      BitsInjective(a[1..], b[1..]);
      assert a == [a[0]] + a[1..] && b == [b[0]] + b[1..];
    }
  }

  lemma BitsCons(a: seq<bv8>)
    requires a != []
    ensures Bits(a) == ByteBits(a[0]) + Bits(a[1..]) && |ByteBits(a[0])| == 8
  {
    hide BitsFrom;
  }

  lemma SplitEqual(v: seq<bool>, w: seq<bool>, x: seq<bool>, y: seq<bool>)
    requires v + w == x + y && |v| == |x|
    ensures v == x && w == y
  {
    assert v == (v + w)[..|v|] && w == (v + w)[|v|..];
    assert x == (x + y)[..|x|] && y == (x + y)[|x|..];
  }

  lemma SameByte(a: bv8, b: bv8)
    requires ByteBits(a) == ByteBits(b)
    ensures a == b
  {
    hide BitsFrom;
    hide Rest;
    RestOfByte(a);
    RestOfByte(b);
    ByteBitsInjective(a, b, 8);
  }

  /** Two different buffers of the same length that agree outside sixteen consecutive bits have
      results that differ in their low 16 bits. */
  lemma BurstChangesCrc(a: seq<bv8>, b: seq<bv8>, input: bv32, from: nat)
    requires |a| == |b| && a != b && AgreeOutside(Bits(a), Bits(b), from)
    ensures Low16(CrcOf(a, input)) != Low16(CrcOf(b, input))
  {
    hide RunBits;
    hide Low16;
    hide CrcOf;
    hide AgreeOutside;
    var c := Word(Low16(input));
    if Bits(a) == Bits(b) {
      BitsInjective(a, b);
    }
    BurstDetected(c, Bits(a), Bits(b), from);
    CrcIsDivision(a, input);
    CrcIsDivision(b, input);
    WordsDiffer(RunBits(c, Bits(a)), RunBits(c, Bits(b)));
  }

  lemma WindowAgrees(p: seq<bool>, a: seq<bool>, b: seq<bool>, s: seq<bool>)
    requires |a| == |b| <= 16
    ensures AgreeOutside(p + (a + s), p + (b + s), |p|)
  {}

  /** In particular when two adjacent bytes are all that differs. */
  lemma AdjacentBytes(p: seq<bv8>, a: seq<bv8>, b: seq<bv8>, s: seq<bv8>, input: bv32)
    requires |a| == |b| <= 2 && a != b
    ensures Low16(CrcOf(p + (a + s), input)) != Low16(CrcOf(p + (b + s), input))
  {
    hide Bits;
    hide CrcOf;
    hide Low16;
    hide AgreeOutside;
    BitsConcat(p, a + s);
    BitsConcat(p, b + s);
    BitsConcat(a, s);
    BitsConcat(b, s);
    WindowAgrees(Bits(p), Bits(a), Bits(b), Bits(s));
    var i :| 0 <= i < |a| && a[i] != b[i];
    assert (p + (a + s))[|p| + i] == a[i] && (p + (b + s))[|p| + i] == b[i];
    BurstChangesCrc(p + (a + s), p + (b + s), input, 8 * |p|);
  }

  lemma {:induction false} BitsConcat(a: seq<bv8>, b: seq<bv8>)
    ensures Bits(a + b) == Bits(a) + Bits(b)
    decreases |a|
  {
    hide ByteBits;
    if a == [] {
      assert a + b == b;
    } else {
      assert (a + b)[1..] == a[1..] + b;
      BitsConcat(a[1..], b);
    }
  }

  // ------------------------------------------------------------------ the program

  /** CalculateCRC. */
  method CalculateCRC(data: array<bv8>, dataLength: nat, inputCRC: bv32) returns (r: bv32)
    requires dataLength <= data.Length
    ensures r == CrcOf(data[..dataLength], inputCRC)
  {
    hide Promote;
    hide TableStep;
    hide Low16;
    var crc := Low16(inputCRC);
    for i := 0 to dataLength
      invariant crc == RunBytes(Low16(inputCRC), data[..i])
    {
      RunBytesLast(Low16(inputCRC), data[..i + 1]);
      assert data[..i + 1][..i] == data[..i];
      crc := TableStep(crc, data[i]);
    }
    r := Promote(crc);
  }

  lemma {:induction false} RunBytesLast(c: bv16, data: seq<bv8>)
    requires data != []
    ensures RunBytes(c, data) == TableStep(RunBytes(c, data[..|data| - 1]), data[|data| - 1])
  {
    var n := |data| - 1;
    RunBytesConcat(c, data[..n], data[n..]);
    assert data == data[..n] + data[n..];
    var before := RunBytes(c, data[..n]);
    assert RunBytes(before, data[n..]) == RunBytes(TableStep(before, data[n]), data[n..][1..]);
    hide TableStep;
  }

  /** Both headers of a table file together. */
  const HEADER: nat := 116

  /** What one read delivers: an error, or some of what is left, nothing only at the end. */
  datatype ReadResult = Broken | Delivers(atMost: nat)

  function Payload(file: seq<bv8>): seq<bv8> {
    if |file| <= HEADER then [] else file[HEADER..]
  }

  /** The loop of main: reads of up to 100 bytes, in whatever pieces they come, until one delivers
      nothing.  A failed read ends the run. */
  method ChecksumFile(file: seq<bv8>, results: seq<ReadResult>) returns (ok: bool, fileSize: nat, fileCRC: bv32)
    ensures ok ==> fileSize == |Payload(file)| && fileCRC == CrcOf(Payload(file), 0)
    ensures !ok ==> Broken in results
  {
    hide CrcOf;
    var payload := Payload(file);
    var buffer := new bv8[100];
    ok, fileSize, fileCRC := true, 0, 0;
    CrcOfNothing();
    assert payload[..0] == [];
    var readSize, k := 1, 0;
    while readSize > 0
      invariant 0 <= fileSize <= |payload| && 0 <= k <= |results|
      invariant fileCRC == CrcOf(payload[..fileSize], 0)
      invariant readSize == 0 ==> fileSize == |payload|
      decreases |payload| - fileSize, readSize
    {
      if k < |results| && results[k].Broken? {
        ok := false;
        return;
      }
      var left := |payload| - fileSize;
      var most := if k < |results| && results[k].atMost > 0 then results[k].atMost else 100;
      readSize := if left < most then left else most;
      if readSize > 100 {
        readSize := 100;
      }
      k := if k < |results| then k + 1 else k;
      var piece := payload[fileSize..fileSize + readSize];
      forall i | 0 <= i < readSize {
        buffer[i] := piece[i];
      }
      assert buffer[..readSize] == piece;
      fileCRC := CalculateCRC(buffer, readSize, fileCRC);
      Chaining(payload[..fileSize], piece, 0);
      assert payload[..fileSize] + piece == payload[..fileSize + readSize];
      fileSize := fileSize + readSize;
    }
    assert payload[..fileSize] == payload;
  }

  lemma CrcOfNothing()
    ensures CrcOf([], 0) == 0
  {}
}
