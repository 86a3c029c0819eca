/** How elf2cfetbl.c reads the multi-byte fields of an ELF structure: the structure is copied from
    the file into memory as it is, its fields are reversed in place when the host and the target
    disagree on byte order, and the host then loads them. */
module ElfBytes {
  import opened Bytes

  datatype Order = Little | Big

  function LittleEndian(b: Bytes): nat {
    if b == [] then 0 else b[0] + 0x100 * LittleEndian(b[1..])
  }

  /** The integer that bytes stand for in a byte order. */
  function Decode(order: Order, b: Bytes): nat {
    match order case Little => LittleEndian(b) case Big => BigEndian(b)
  }

  function Reversed(b: Bytes): (r: Bytes)
    ensures |r| == |b|
  {
    seq(|b|, i requires 0 <= i < |b| => b[|b| - 1 - i])
  }

  lemma ReversedTwice(b: Bytes)
    ensures Reversed(Reversed(b)) == b
  {}

  lemma {:induction false} LittleIsReversedBig(b: Bytes)
    ensures LittleEndian(b) == BigEndian(Reversed(b))
  {
    if b != [] {
      LittleIsReversedBig(b[1..]);
      assert Reversed(b)[..|b| - 1] == Reversed(b[1..]);
    }
  }

  /** Reversing the bytes and reading them in the other order changes nothing. */
  lemma ReversedDecodes(order: Order, b: Bytes)
    ensures Decode(if order.Little? then Big else Little, Reversed(b)) == Decode(order, b)
  {
    hide LittleEndian;
    hide BigEndian;
    LittleIsReversedBig(b);
    LittleIsReversedBig(Reversed(b));
    ReversedTwice(b);
  }

  // ------------------------------------------------------------------ fields of a structure

  datatype Field = Field(at: nat, width: nat)

  predicate Inside(f: Field, m: Bytes) { f.at + f.width <= |m| }

  function Slice(m: Bytes, f: Field): Bytes
    requires Inside(f, m)
  {
    m[f.at..f.at + f.width]
  }

  /** The structure with one field reversed. */
  function SwapOne(m: Bytes, f: Field): (s: Bytes)
    requires Inside(f, m)
    ensures |s| == |m|
  {
    m[..f.at] + Reversed(Slice(m, f)) + m[f.at + f.width..]
  }

  predicate AllInside(fs: seq<Field>, n: nat) {
    forall i :: 0 <= i < |fs| ==> fs[i].at + fs[i].width <= n
  }

  predicate Disjoint(f: Field, g: Field) { f.at + f.width <= g.at || g.at + g.width <= f.at }

  predicate Apart(fs: seq<Field>) {
    forall i, j :: 0 <= i < j < |fs| ==> Disjoint(fs[i], fs[j])
  }

  function SwapAll(m: Bytes, fs: seq<Field>): (s: Bytes)
    requires AllInside(fs, |m|)
    ensures |s| == |m|
  {
    if fs == [] then m
    else SwapOne(SwapAll(m, fs[..|fs| - 1]), fs[|fs| - 1])
  }

  lemma SwapAllSingle(m: Bytes, f: Field)
    requires Inside(f, m)
    ensures AllInside([f], |m|) && SwapAll(m, [f]) == SwapOne(m, f)
  {
    hide SwapOne;
    assert [f][..0] == [];
    assert SwapAll(m, []) == m;
  }

  lemma SwapOneField(m: Bytes, f: Field)
    requires Inside(f, m)
    ensures Slice(SwapOne(m, f), f) == Reversed(Slice(m, f))
  {}

  lemma SwapOneElsewhere(m: Bytes, f: Field, g: Field)
    requires Inside(f, m) && Inside(g, m) && Disjoint(f, g)
    ensures Slice(SwapOne(m, f), g) == Slice(m, g)
  {}

  lemma {:induction false} SwapAllElsewhere(m: Bytes, fs: seq<Field>, g: Field)
    requires AllInside(fs, |m|) && Inside(g, m)
    requires forall i :: 0 <= i < |fs| ==> Disjoint(fs[i], g)
    ensures Slice(SwapAll(m, fs), g) == Slice(m, g)
  {
    hide SwapOne;
    if fs != [] {
      var n := |fs| - 1;
      SwapAllElsewhere(m, fs[..n], g);
      SwapOneElsewhere(SwapAll(m, fs[..n]), fs[n], g);
    }
  }

  /** Swapping fields that do not overlap reverses each of them once. */
  lemma {:induction false} SwapAllField(m: Bytes, fs: seq<Field>, k: nat)
    requires AllInside(fs, |m|) && Apart(fs) && k < |fs|
    ensures Slice(SwapAll(m, fs), fs[k]) == Reversed(Slice(m, fs[k]))
  {
    hide SwapOne;
    var n := |fs| - 1;
    if k == n {
      SwapOneField(SwapAll(m, fs[..n]), fs[n]);
      SwapAllElsewhere(m, fs[..n], fs[n]);
    } else {
      SwapAllField(m, fs[..n], k);
      SwapOneElsewhere(SwapAll(m, fs[..n]), fs[n], fs[k]);
    }
  }

  /** What a host finds in a structure it has read and, if need be, swapped. */
  function Loaded(host: Order, target: Order, m: Bytes, fs: seq<Field>): (s: Bytes)
    requires AllInside(fs, |m|)
    ensures |s| == |m|
  {
    if host == target then m else SwapAll(m, fs)
  }

  /** Every host loads from every field it swaps the value the field has in the order of the target. */
  lemma HostIndependentField(host: Order, target: Order, m: Bytes, fs: seq<Field>, f: Field)
    requires AllInside(fs, |m|) && Apart(fs) && f in fs
    ensures Inside(f, m)
    ensures Decode(host, Slice(Loaded(host, target, m, fs), f)) == Decode(target, Slice(m, f))
  {
    hide Decode;
    hide SwapAll;
    hide Reversed;
    var k :| 0 <= k < |fs| && fs[k] == f;
    if host != target {
      SwapAllField(m, fs, k);
      ReversedDecodes(target, Slice(m, f));
    }
  }

  // ------------------------------------------------------------------ the swaps in place

  lemma ReversedTwo(m: Bytes, s: Bytes, at: nat)
    requires at + 2 <= |m| == |s|
    requires forall k :: 0 <= k < |m| ==> k < at || at + 2 <= k ==> s[k] == m[k]
    requires s[at] == m[at + 1] && s[at + 1] == m[at]
    ensures s == SwapOne(m, Field(at, 2))
  {
    var r := SwapOne(m, Field(at, 2));
    forall k | 0 <= k < |m|
      ensures s[k] == r[k]
    {
      if at <= k < at + 2 {
        assert r[k] == Reversed(m[at..at + 2])[k - at] == m[at + 1 - (k - at)];
      }
    }
  }

  lemma ReversedFour(m: Bytes, s: Bytes, at: nat)
    requires at + 4 <= |m| == |s|
    requires forall k :: 0 <= k < |m| ==> k < at || at + 4 <= k ==> s[k] == m[k]
    requires s[at] == m[at + 3] && s[at + 1] == m[at + 2] && s[at + 2] == m[at + 1] && s[at + 3] == m[at]
    ensures s == SwapOne(m, Field(at, 4))
  {
    var r := SwapOne(m, Field(at, 4));
    forall k | 0 <= k < |m|
      ensures s[k] == r[k]
    {
      if at <= k < at + 4 {
        assert r[k] == Reversed(m[at..at + 4])[k - at] == m[at + 3 - (k - at)];
      }
    }
  }

  lemma ReversedEight(m: Bytes, s: Bytes, at: nat)
    requires at + 8 <= |m| == |s|
    requires forall k :: 0 <= k < |m| ==> k < at || at + 8 <= k ==> s[k] == m[k]
    requires s[at] == m[at + 7] && s[at + 1] == m[at + 6] && s[at + 2] == m[at + 5] && s[at + 3] == m[at + 4]
    requires s[at + 4] == m[at + 3] && s[at + 5] == m[at + 2] && s[at + 6] == m[at + 1] && s[at + 7] == m[at]
    ensures s == SwapOne(m, Field(at, 8))
  {
    var r := SwapOne(m, Field(at, 8));
    forall k | 0 <= k < |m|
      ensures s[k] == r[k]
    {
      if at <= k < at + 8 {
        assert r[k] == Reversed(m[at..at + 8])[k - at] == m[at + 7 - (k - at)];
      }
    }
  }

  method SwapUInt16(a: array<Byte>, at: nat)
    requires at + 2 <= a.Length
    modifies a
    ensures a[..] == SwapOne(old(a[..]), Field(at, 2))
  {
    var tempByte := a[at + 1];
    a[at + 1] := a[at];
    a[at] := tempByte;
    ReversedTwo(old(a[..]), a[..], at);
  }

  method SwapUInt32(a: array<Byte>, at: nat)
    requires at + 4 <= a.Length
    modifies a
    ensures a[..] == SwapOne(old(a[..]), Field(at, 4))
  {
    var tempByte := a[at + 3];
    a[at + 3] := a[at];
    a[at] := tempByte;
    tempByte := a[at + 2];
    a[at + 2] := a[at + 1];
    a[at + 1] := tempByte;
    ReversedFour(old(a[..]), a[..], at);
  }

  method SwapUInt64(a: array<Byte>, at: nat)
    requires at + 8 <= a.Length
    modifies a
    ensures a[..] == SwapOne(old(a[..]), Field(at, 8))
  {
    var tempByte := a[at + 7];
    a[at + 7] := a[at];
    a[at] := tempByte;
    tempByte := a[at + 6];
    a[at + 6] := a[at + 1];
    a[at + 1] := tempByte;
    tempByte := a[at + 5];
    a[at + 5] := a[at + 2];
    a[at + 2] := tempByte;
    tempByte := a[at + 4];
    a[at + 4] := a[at + 3];
    a[at + 3] := tempByte;
    ReversedEight(old(a[..]), a[..], at);
  }

  /** The calls of SwapElfHeader, SwapSectionHeader or SwapSymbol, in their order. */
  method SwapFields(a: array<Byte>, fs: seq<Field>)
    requires AllInside(fs, a.Length)
    requires forall i :: 0 <= i < |fs| ==> fs[i].width in {2, 4, 8}
    modifies a
    ensures a[..] == SwapAll(old(a[..]), fs)
  {
    hide SwapOne;
    ghost var m := a[..];
    for i := 0 to |fs|
      invariant a[..] == SwapAll(m, fs[..i])
    {
      var f := fs[i];
      assert fs[..i + 1][..i] == fs[..i];
      match f.width
      case 2 => SwapUInt16(a, f.at);
      case 4 => SwapUInt32(a, f.at);
      case _ => SwapUInt64(a, f.at);
      assert a[..] == SwapOne(SwapAll(m, fs[..i]), f);
    }
    assert fs[..|fs|] == fs;
  }

  // ------------------------------------------------------------------ the ELF structures

  const SIZE_HEADER_32: nat := 52
  const SIZE_HEADER_64: nat := 64
  const SIZE_SECTION_32: nat := 40
  const SIZE_SECTION_64: nat := 64
  const SIZE_SYMBOL_32: nat := 16
  const SIZE_SYMBOL_64: nat := 24

  function HeaderSize(word32: bool): nat { if word32 then SIZE_HEADER_32 else SIZE_HEADER_64 }
  function SectionSize(word32: bool): nat { if word32 then SIZE_SECTION_32 else SIZE_SECTION_64 }
  function SymbolSize(word32: bool): nat { if word32 then SIZE_SYMBOL_32 else SIZE_SYMBOL_64 }

  /** What SwapElfHeader swaps. */
  function HeaderFields(word32: bool): seq<Field> {
    if word32 then
      [Field(16, 2), Field(18, 2), Field(20, 4), Field(24, 4), Field(28, 4), Field(32, 4), Field(36, 4),
       Field(40, 2), Field(42, 2), Field(44, 2), Field(46, 2), Field(48, 2), Field(50, 2)]
    else
      [Field(16, 2), Field(18, 2), Field(20, 4), Field(24, 8), Field(32, 8), Field(40, 8), Field(48, 4),
       Field(52, 2), Field(54, 2), Field(56, 2), Field(58, 2), Field(60, 2), Field(62, 2)]
  }

  /** What SwapSectionHeader swaps: sh_addralign and sh_entsize before sh_link and sh_info. */
  function SectionFields(word32: bool): seq<Field> {
    if word32 then
      [Field(0, 4), Field(4, 4), Field(8, 4), Field(12, 4), Field(16, 4), Field(20, 4), Field(32, 4),
       Field(36, 4), Field(24, 4), Field(28, 4)]
    else
      [Field(0, 4), Field(4, 4), Field(8, 8), Field(16, 8), Field(24, 8), Field(32, 8), Field(48, 8),
       Field(56, 8), Field(40, 4), Field(44, 4)]
  }

  /** What SwapSymbol swaps; st_info and st_other are single bytes. */
  function SymbolFields(word32: bool): seq<Field> {
    if word32 then [Field(0, 4), Field(4, 4), Field(8, 4), Field(14, 2)]
    else [Field(0, 4), Field(8, 8), Field(16, 8), Field(6, 2)]
  }

  predicate Layout(fs: seq<Field>, size: nat) {
    && AllInside(fs, size)
    && Apart(fs)
    && (forall i :: 0 <= i < |fs| ==> fs[i].width in {2, 4, 8})
  }

  lemma HeaderLayout(word32: bool)
    ensures Layout(HeaderFields(word32), HeaderSize(word32))
  {
    if word32 {
      HeaderLayout32();
    } else {
      HeaderLayout64();
    }
  }

  lemma HeaderLayout32()
    ensures Layout(HeaderFields(true), HeaderSize(true))
  {}

  lemma HeaderLayout64()
    ensures Layout(HeaderFields(false), HeaderSize(false))
  {}

  lemma SectionLayout(word32: bool)
    ensures Layout(SectionFields(word32), SectionSize(word32))
  {}

  lemma SymbolLayout(word32: bool)
    ensures Layout(SymbolFields(word32), SymbolSize(word32))
  {}
}
