/** The ELF structures as their C declarations lay them out: the members one after the other, each in
    its width and in the byte order of the file.  What the tool reads from such a structure are the
    members it means to read. */
module ElfLayout {
  import opened Bytes
  import opened ElfBytes
  import opened ElfSpec
  import opened Wrappers

  datatype Member = Member(value: nat, width: nat)

  function Encode(order: Order, m: Member): (b: Bytes)
    ensures |b| == m.width
  {
    if order.Big? then BE(m.value, m.width) else Reversed(BE(m.value, m.width))
  }

  function Image(order: Order, ms: seq<Member>): Bytes {
    if ms == [] then [] else Encode(order, ms[0]) + Image(order, ms[1..])
  }

  /** Where member k starts. */
  function Offset(ms: seq<Member>, k: nat): nat
    requires k <= |ms|
  {
    if k == 0 then 0 else Offset(ms, k - 1) + ms[k - 1].width
  }

  predicate InRange(ms: seq<Member>) { forall i :: 0 <= i < |ms| ==> ms[i].value < Pow256(ms[i].width) }

  lemma EncodeDecodes(order: Order, m: Member)
    requires m.value < Pow256(m.width)
    ensures Decode(order, Encode(order, m)) == m.value
  {
    hide BE;
    hide BigEndian;
    hide LittleEndian;
    hide Pow256;
    BERoundTrip(m.value, m.width);
    var b := BE(m.value, m.width);
    LittleIsReversedBig(Reversed(b));
    ReversedTwice(b);
  }

  lemma {:induction false} ImageSize(order: Order, ms: seq<Member>)
    ensures |Image(order, ms)| == Offset(ms, |ms|)
    decreases |ms|
  {
    if ms != [] {
      hide Encode;
      ImageSize(order, ms[1..]);
      OffsetTail(ms, |ms|);
    }
  }

  lemma {:induction false} OffsetTail(ms: seq<Member>, k: nat)
    requires 0 < k <= |ms|
    ensures Offset(ms, k) == ms[0].width + Offset(ms[1..], k - 1)
    decreases k
  {
    if k > 1 {
      OffsetTail(ms, k - 1);
    }
  }

  lemma {:induction false} OffsetWithin(ms: seq<Member>, k: nat)
    requires k < |ms|
    ensures Offset(ms, k) + ms[k].width <= Offset(ms, |ms|)
    decreases |ms| - k
  {
    if k + 1 < |ms| {
      OffsetWithin(ms, k + 1);
      assert Offset(ms, k + 1) == Offset(ms, k) + ms[k].width;
    }
  }

  lemma Shifted(a: Bytes, b: Bytes, at: nat, n: nat)
    requires at + n <= |b|
    ensures (a + b)[|a| + at..|a| + at + n] == b[at..at + n]
  {}

  /** The bytes of a member stand at its offset. */
  lemma {:induction false} MemberBytes(order: Order, ms: seq<Member>, k: nat)
    requires k < |ms|
    ensures Offset(ms, k) + ms[k].width <= |Image(order, ms)|
    ensures Image(order, ms)[Offset(ms, k)..Offset(ms, k) + ms[k].width] == Encode(order, ms[k])
    decreases |ms|
  {
    hide Encode;
    ImageSize(order, ms);
    OffsetWithin(ms, k);
    var a, rest := Encode(order, ms[0]), Image(order, ms[1..]);
    if k > 0 {
      hide Offset;
      MemberBytes(order, ms[1..], k - 1);
      OffsetTail(ms, k);
      Shifted(a, rest, Offset(ms[1..], k - 1), ms[k].width);
    } else {
      assert Offset(ms, 0) == 0;
    }
  }

  /** A field that is where member k is reads its value. */
  lemma MemberRead(order: Order, ms: seq<Member>, k: nat, f: Field)
    requires InRange(ms) && k < |ms| && f == Field(Offset(ms, k), ms[k].width)
    ensures Inside(f, Image(order, ms)) && FieldOf(order, Image(order, ms), f) == ms[k].value
  {
    hide Encode;
    hide Image;
    hide Offset;
    hide Decode;
    hide Pow256;
    MemberBytes(order, ms, k);
    EncodeDecodes(order, ms[k]);
  }

  // ------------------------------------------------------------------ the ELF header

  function Address(word32: bool): nat { if word32 then 4 else 8 }

  /** Elf32_Ehdr and Elf64_Ehdr behind e_ident. */
  datatype Ehdr = Ehdr(
    typ: nat, machine: nat, version: nat, entry: nat, phoff: nat, shoff: nat, flags: nat, ehsize: nat,
    phentsize: nat, phnum: nat, shentsize: nat, shnum: nat, shstrndx: nat)
  {
    function Members(word32: bool): seq<Member> {
      var a := Address(word32);
      [Member(typ, 2), Member(machine, 2), Member(version, 4), Member(entry, a), Member(phoff, a), Member(shoff, a),
       Member(flags, 4), Member(ehsize, 2), Member(phentsize, 2), Member(phnum, 2), Member(shentsize, 2),
       Member(shnum, 2), Member(shstrndx, 2)]
    }
  }

  lemma EhdrOffsets(word32: bool, e: Ehdr)
    ensures var ms, a := e.Members(word32), Address(word32);
            && Offset(ms, 0) == 0 && Offset(ms, 1) == 2 && Offset(ms, 2) == 4 && Offset(ms, 5) == 8 + 2 * a
            && Offset(ms, 10) == 18 + 3 * a && Offset(ms, 11) == 20 + 3 * a && Offset(ms, 12) == 22 + 3 * a
            && Offset(ms, 13) == 24 + 3 * a
  {
    var ms, a := e.Members(word32), Address(word32);
    assert Offset(ms, 0) == 0 && Offset(ms, 1) == 2 && Offset(ms, 2) == 4 && Offset(ms, 3) == 8;
    assert Offset(ms, 4) == 8 + a && Offset(ms, 5) == 8 + 2 * a && Offset(ms, 6) == 8 + 3 * a;
    assert Offset(ms, 7) == 12 + 3 * a && Offset(ms, 8) == 14 + 3 * a && Offset(ms, 9) == 16 + 3 * a;
    assert Offset(ms, 10) == 18 + 3 * a && Offset(ms, 11) == 20 + 3 * a && Offset(ms, 12) == 22 + 3 * a;
  }

  lemma Behind(order: Order, pre: Bytes, b: Bytes, f: Field, g: Field)
    requires Inside(f, b) && g == Field(|pre| + f.at, f.width)
    ensures Inside(g, pre + b) && FieldOf(order, pre + b, g) == FieldOf(order, b, f)
  {
    hide Decode;
    assert Slice(pre + b, g) == Slice(b, f);
  }

  /** A member of the structure that follows the identification. */
  lemma EhdrRead(order: Order, ident: Bytes, ms: seq<Member>, k: nat, f: Field)
    requires |ident| == 16 && InRange(ms) && k < |ms| && f == Field(16 + Offset(ms, k), ms[k].width)
    ensures Inside(f, ident + Image(order, ms)) && FieldOf(order, ident + Image(order, ms), f) == ms[k].value
  {
    hide Image;
    hide Offset;
    hide FieldOf;
    MemberRead(order, ms, k, Field(Offset(ms, k), ms[k].width));
    Behind(order, ident, Image(order, ms), Field(Offset(ms, k), ms[k].width), f);
  }

  /** The numbers up to its last entry that e_machine_Map leaves out. */
  predicate NoMachine(v: nat) {
    v in
    {6, 11, 12, 13, 14, 16, 24, 25, 26, 27, 28, 29, 30, 31, 32, 33, 34, 35,
     121, 122, 123, 124, 125, 126, 127, 128, 129, 130,
     145, 146, 147, 148, 149, 150, 151, 152, 153, 154, 155, 156, 157, 158, 159, 172, 182, 184,
     225, 226, 227, 228, 229, 230, 231, 232, 233, 234, 235, 236, 237, 238, 239, 240, 241, 242}
  }

  lemma MachinesKnown(v: nat)
    ensures KnownMachine(v) <==> v <= 243 && !NoMachine(v)
    ensures KnownType(v) <==> v in {0, 1, 2, 3, 4}
  {}

  /** What the tool makes of the members it reads. */
  function HeaderOf(word32: bool, order: Order, e: Ehdr): Checked<Header> {
    if KnownType(e.typ) && KnownMachine(e.machine) && e.version == 1
    then Ok(Header(word32, order, e.shoff, e.shentsize, e.shnum, e.shstrndx))
    else Failed
  }

  /** In both word sizes and byte orders, the header that is read is the one that was laid out. */
  lemma HeaderInIs(word32: bool, order: Order, ident: Bytes, e: Ehdr)
    requires |ident| == 16 && InRange(e.Members(word32))
    ensures |ident + Image(order, e.Members(word32))| == HeaderSize(word32)
    ensures HeaderIn(word32, order, order, ident + Image(order, e.Members(word32))) == HeaderOf(word32, order, e)
  {
    var ms := e.Members(word32);
    EhdrOffsets(word32, e);
    ImageSize(order, ms);
    hide Image;
    hide Offset;
    hide FieldOf;
    hide InRange;
    hide KnownMachine;
    EhdrRead(order, ident, ms, 0, E_TYPE);
    EhdrRead(order, ident, ms, 1, E_MACHINE);
    EhdrRead(order, ident, ms, 2, E_VERSION);
    EhdrRead(order, ident, ms, 5, EShoff(word32));
    EhdrRead(order, ident, ms, 10, EShentsize(word32));
    EhdrRead(order, ident, ms, 11, EShnum(word32));
    EhdrRead(order, ident, ms, 12, EShstrndx(word32));
  }

  /** e_ident: the magic number, the word size, the byte order, the version and nine bytes the tool does
      not look at. */
  function Ident(word32: bool, order: Order, pad: Bytes): (b: Bytes)
    requires |pad| == 9
    ensures |b| == 16
  {
    [0x7F, 0x45, 0x4C, 0x46, if word32 then 1 else 2, if order.Little? then 1 else 2, 1] + pad
  }

  lemma IdentIsGood(word32: bool, order: Order, pad: Bytes, rest: Bytes)
    requires |pad| == 9
    ensures var file := Ident(word32, order, pad) + rest;
            GoodIdent(file) && (file[4] == 1 <==> word32) && (file[5] == 1 <==> order.Little?)
  {
    var ident := Ident(word32, order, pad);
    var file := ident + rest;
    assert file[..16] == ident && file[..4] == ident[..4] == ELF_MAGIC;
    assert file[4] == ident[4] && file[5] == ident[5] && file[6] == ident[6];
  }

  /** A file that begins with anything else is rejected. */
  lemma OtherIdentsFail(file: Bytes)
    ensures ReadHeader(file).Failed? || exists word32, order, pad | |pad| == 9 :: Ident(word32, order, pad) <= file
  {
    if GoodIdent(file) {
      var word32, order := file[4] == 1, if file[5] == 1 then Little else Big;
      assert file[..4] == ELF_MAGIC;
      assert file[0] == ELF_MAGIC[0] && file[1] == ELF_MAGIC[1] && file[2] == ELF_MAGIC[2] && file[3] == ELF_MAGIC[3];
      assert Ident(word32, order, file[7..16]) <= file;
    }
  }

  /** A part of the file. */
  predicate Holds(file: Bytes, at: int, b: Bytes) { 0 <= at && at + |b| <= |file| && file[at..at + |b|] == b }

  lemma Reads(file: Bytes, at: int, b: Bytes)
    requires Holds(file, at, b)
    ensures ReadAt(file, at, |b|) == Ok(b)
  {}

  lemma HeaderFrom(file: Bytes, m: Bytes)
    requires GoodIdent(file) && |m| == HeaderSize(file[4] == 1) && Holds(file, 0, m)
    ensures var order := if file[5] == 1 then Little else Big;
            ReadHeader(file) == HeaderIn(file[4] == 1, order, order, m)
  {
    Reads(file, 0, m);
    hide ReadAt;
    hide Holds;
    hide HeaderIn;
  }

  lemma HeaderBehind(word32: bool, order: Order, pad: Bytes, image: Bytes, rest: Bytes)
    requires |pad| == 9 && 16 + |image| == HeaderSize(word32)
    ensures |Ident(word32, order, pad) + image| == HeaderSize(word32)
    ensures ReadHeader(Ident(word32, order, pad) + image + rest) ==
            HeaderIn(word32, order, order, Ident(word32, order, pad) + image)
  {
    var m := Ident(word32, order, pad) + image;
    var file := m + rest;
    IdentIsGood(word32, order, pad, image + rest);
    hide HeaderIn;
    hide Ident;
    hide GoodIdent;
    hide ReadHeader;
    assert file == Ident(word32, order, pad) + (image + rest);
    assert file[0..|m|] == m;
    HeaderFrom(file, m);
  }

  /** The file begins with such a header. */
  lemma HeaderIsRead(word32: bool, order: Order, pad: Bytes, e: Ehdr, rest: Bytes)
    requires |pad| == 9 && InRange(e.Members(word32))
    ensures ReadHeader(Ident(word32, order, pad) + Image(order, e.Members(word32)) + rest) == HeaderOf(word32, order, e)
  {
    HeaderInIs(word32, order, Ident(word32, order, pad), e);
    hide Image;
    hide HeaderIn;
    hide HeaderOf;
    hide Ident;
    hide ReadHeader;
    hide InRange;
    HeaderBehind(word32, order, pad, Image(order, e.Members(word32)), rest);
  }

  // ------------------------------------------------------------------ section headers

  /** Elf32_Shdr and Elf64_Shdr. */
  datatype Shdr = Shdr(
    name: nat, typ: nat, flags: nat, addr: nat, offset: nat, size: nat, link: nat, info: nat, addralign: nat,
    entsize: nat)
  {
    function Members(word32: bool): seq<Member> {
      var a := Address(word32);
      [Member(name, 4), Member(typ, 4), Member(flags, a), Member(addr, a), Member(offset, a), Member(size, a),
       Member(link, 4), Member(info, 4), Member(addralign, a), Member(entsize, a)]
    }
  }

  lemma ShdrOffsets(word32: bool, s: Shdr)
    ensures var ms, a := s.Members(word32), Address(word32);
            && Offset(ms, 0) == 0 && Offset(ms, 1) == 4 && Offset(ms, 4) == 8 + 2 * a && Offset(ms, 5) == 8 + 3 * a
            && Offset(ms, 9) == 16 + 5 * a && Offset(ms, 10) == 16 + 6 * a
  {
    var ms, a := s.Members(word32), Address(word32);
    assert Offset(ms, 0) == 0 && Offset(ms, 1) == 4 && Offset(ms, 2) == 8 && Offset(ms, 3) == 8 + a;
    assert Offset(ms, 4) == 8 + 2 * a && Offset(ms, 5) == 8 + 3 * a && Offset(ms, 6) == 8 + 4 * a;
    assert Offset(ms, 7) == 12 + 4 * a && Offset(ms, 8) == 16 + 4 * a && Offset(ms, 9) == 16 + 5 * a;
  }

  lemma SectionInIs(word32: bool, order: Order, s: Shdr, name: Option<Bytes>)
    requires InRange(s.Members(word32))
    ensures var m := Image(order, s.Members(word32));
            && |m| == SectionSize(word32) && FieldOf(order, m, SH_NAME) == s.name
            && SectionIn(word32, order, m, name) == Section(s.typ, s.offset, s.size, s.entsize, name)
  {
    var ms := s.Members(word32);
    ShdrOffsets(word32, s);
    ImageSize(order, ms);
    hide Image;
    hide Offset;
    hide FieldOf;
    hide InRange;
    MemberRead(order, ms, 0, SH_NAME);
    MemberRead(order, ms, 1, SH_TYPE);
    MemberRead(order, ms, 4, ShOffset(word32));
    MemberRead(order, ms, 5, ShSize(word32));
    MemberRead(order, ms, 9, ShEntsize(word32));
  }

  /** A C string short enough for the tool's buffer. */
  predicate HoldsName(file: Bytes, at: int, text: Bytes) {
    |text| < NAME_BUFFER && 0 !in text && Holds(file, at, text + [0])
  }

  lemma {:induction false} NameLengthIs(file: Bytes, at: nat, text: Bytes, n: nat)
    requires HoldsName(file, at, text) && n <= |text|
    ensures NameLength(file, at, n) == Ok(|text|)
    decreases |text| - n
  {
    assert file[at + n] == (text + [0])[n];
    if n < |text| {
      assert text[n] in text;
      NameLengthIs(file, at, text, n + 1);
    }
  }

  lemma NameIsRead(file: Bytes, at: int, text: Bytes, after: nat)
    requires HoldsName(file, at, text)
    ensures NameAt(file, at, after) == Ok(text)
  {
    NameLengthIs(file, at, text, 0);
    hide NameLength;
    assert file[at..at + |text|] == file[at..at + |text| + 1][..|text|];
    assert (text + [0])[..|text|] == text;
  }

  /** A name whose position is negative is the string behind the structure read last. */
  lemma NameMissed(file: Bytes, at: int, after: nat, text: Bytes)
    requires at < 0 && HoldsName(file, after, text)
    ensures NameAt(file, at, after) == Ok(text)
  {
    NameIsRead(file, after, text, after);
  }

  lemma SectionFrom(file: Bytes, h: Header, names: int, i: nat, m: Bytes, text: Bytes)
    requires |m| == SectionSize(h.word32) && i * h.shentsize < TWO_31 && Holds(file, SectionPlace(h, i), m)
    requires names != 0 && FieldOf(h.order, m, SH_NAME) != 0 ==>
               HoldsName(file, ToInt64(names + FieldOf(h.order, m, SH_NAME)), text)
    ensures SectionAt(file, h, names, i) ==
            Ok(SectionIn(h.word32, h.order, m,
                         if names == 0 || FieldOf(h.order, m, SH_NAME) == 0 then None else Some(text)))
  {
    hide HoldsName;
    hide ReadAt;
    hide SectionIn;
    hide FieldOf;
    hide NameAt;
    hide ToInt64;
    Reads(file, SectionPlace(h, i), m);
    if names != 0 && FieldOf(h.order, m, SH_NAME) != 0 {
      NameIsRead(file, ToInt64(names + FieldOf(h.order, m, SH_NAME)), text, SectionPlace(h, i) + |m|);
    }
  }

  /** Section header i of a file that has the structure at its place in the table: its type, offset, size
      and entry size, and its name once the names are known. */
  lemma SectionIsRead(file: Bytes, h: Header, names: int, i: nat, s: Shdr, text: Bytes)
    requires InRange(s.Members(h.word32)) && i * h.shentsize < TWO_31
    requires Holds(file, SectionPlace(h, i), Image(h.order, s.Members(h.word32)))
    requires names != 0 && s.name != 0 ==> HoldsName(file, ToInt64(names + s.name), text)
    ensures SectionAt(file, h, names, i) ==
            Ok(Section(s.typ, s.offset, s.size, s.entsize, if names == 0 || s.name == 0 then None else Some(text)))
  {
    var name := if names == 0 || s.name == 0 then None else Some(text);
    SectionInIs(h.word32, h.order, s, name);
    hide Image;
    hide SectionIn;
    hide FieldOf;
    hide SectionAt;
    hide Holds;
    hide HoldsName;
    SectionFrom(file, h, names, i, Image(h.order, s.Members(h.word32)), text);
  }

  lemma SectionBehind(file: Bytes, h: Header, names: int, i: nat, m: Bytes, text: Bytes)
    requires |m| == SectionSize(h.word32) && i * h.shentsize < TWO_31 && Holds(file, SectionPlace(h, i), m)
    requires names != 0 && FieldOf(h.order, m, SH_NAME) != 0 && ToInt64(names + FieldOf(h.order, m, SH_NAME)) < 0
    requires HoldsName(file, SectionPlace(h, i) + |m|, text)
    ensures SectionAt(file, h, names, i) == Ok(SectionIn(h.word32, h.order, m, Some(text)))
  {
    hide HoldsName;
    hide ReadAt;
    hide SectionIn;
    hide FieldOf;
    hide NameAt;
    hide ToInt64;
    Reads(file, SectionPlace(h, i), m);
    NameMissed(file, ToInt64(names + FieldOf(h.order, m, SH_NAME)), SectionPlace(h, i) + |m|, text);
  }

  /** A name index that, added to the start of the names, overflows: the seek fails unnoticed and the
      name is what stands behind section header i. */
  lemma SectionMisnamed(file: Bytes, h: Header, names: int, i: nat, s: Shdr, text: Bytes)
    requires InRange(s.Members(h.word32)) && i * h.shentsize < TWO_31
    requires Holds(file, SectionPlace(h, i), Image(h.order, s.Members(h.word32)))
    requires names != 0 && s.name != 0 && ToInt64(names + s.name) < 0
    requires HoldsName(file, SectionPlace(h, i) + SectionSize(h.word32), text)
    ensures SectionAt(file, h, names, i) == Ok(Section(s.typ, s.offset, s.size, s.entsize, Some(text)))
  {
    hide *;
    SectionInIs(h.word32, h.order, s, Some(text));
    SectionBehind(file, h, names, i, Image(h.order, s.Members(h.word32)), text);
  }

  /** The conversions to signed integers keep the value modulo the width and land in its range. */
  lemma Conversions(v: int)
    ensures -TWO_31 <= ToInt32(v) < TWO_31 && (ToInt32(v) - v) % TWO_32 == 0
    ensures -TWO_63 <= ToInt64(v) < TWO_63 && (ToInt64(v) - v) % TWO_64 == 0
  {}

  // ------------------------------------------------------------------ symbols

  /** Elf32_Sym and Elf64_Sym, whose members stand in different orders. */
  datatype Sym = Sym(name: nat, value: nat, size: nat, info: nat, other: nat, shndx: nat) {
    function Members(word32: bool): seq<Member> {
      if word32 then
        [Member(name, 4), Member(value, 4), Member(size, 4), Member(info, 1), Member(other, 1), Member(shndx, 2)]
      else
        [Member(name, 4), Member(info, 1), Member(other, 1), Member(shndx, 2), Member(value, 8), Member(size, 8)]
    }
  }

  lemma SymOffsets(word32: bool, s: Sym)
    ensures var ms := s.Members(word32);
            && Offset(ms, 0) == 0
            && if word32 then Offset(ms, 1) == 4 && Offset(ms, 2) == 8 && Offset(ms, 5) == 14 && Offset(ms, 6) == 16
               else Offset(ms, 3) == 6 && Offset(ms, 4) == 8 && Offset(ms, 5) == 16 && Offset(ms, 6) == 24
  {
    var ms := s.Members(word32);
    if word32 {
      assert Offset(ms, 1) == 4 && Offset(ms, 2) == 8 && Offset(ms, 3) == 12 && Offset(ms, 4) == 13;
      assert Offset(ms, 5) == 14;
    } else {
      assert Offset(ms, 1) == 4 && Offset(ms, 2) == 5 && Offset(ms, 3) == 6 && Offset(ms, 4) == 8;
      assert Offset(ms, 5) == 16;
    }
  }

  lemma SymbolInIs(word32: bool, order: Order, s: Sym, name: Bytes)
    requires InRange(s.Members(word32))
    ensures var m := Image(order, s.Members(word32));
            && |m| == SymbolSize(word32) && FieldOf(order, m, ST_NAME) == s.name
            && SymbolIn(word32, order, m, name) == Symbol(s.value, s.size, s.shndx, name)
  {
    var ms := s.Members(word32);
    SymOffsets(word32, s);
    ImageSize(order, ms);
    hide Image;
    hide Offset;
    hide FieldOf;
    hide InRange;
    MemberRead(order, ms, 0, ST_NAME);
    MemberRead(order, ms, if word32 then 1 else 4, StValue(word32));
    MemberRead(order, ms, if word32 then 2 else 5, StSize(word32));
    MemberRead(order, ms, if word32 then 5 else 3, StShndx(word32));
  }

  lemma SymbolFrom(file: Bytes, h: Header, scan: Scan, i: nat, m: Bytes, text: Bytes)
    requires |m| == SymbolSize(h.word32) && SymbolPlace(scan, i) < TWO_31 && Holds(file, SymbolPlace(scan, i), m)
    requires HoldsName(file, ToInt32(scan.strings + FieldOf(h.order, m, ST_NAME)), text)
    ensures SymbolAt(file, h, scan, i) == Ok(SymbolIn(h.word32, h.order, m, text))
  {
    hide Holds;
    hide HoldsName;
    hide ReadAt;
    hide SymbolIn;
    hide FieldOf;
    hide NameAt;
    hide ToInt32;
    hide SymbolPlace;
    Reads(file, SymbolPlace(scan, i), m);
    NameIsRead(file, ToInt32(scan.strings + FieldOf(h.order, m, ST_NAME)), text, SymbolPlace(scan, i) + |m|);
  }

  /** Symbol i of a file that has the structure where the tool looks for it, and its name among the
      strings. */
  lemma SymbolIsRead(file: Bytes, h: Header, scan: Scan, i: nat, s: Sym, text: Bytes)
    requires InRange(s.Members(h.word32)) && SymbolPlace(scan, i) < TWO_31
    requires Holds(file, SymbolPlace(scan, i), Image(h.order, s.Members(h.word32)))
    requires HoldsName(file, ToInt32(scan.strings + s.name), text)
    ensures SymbolAt(file, h, scan, i) == Ok(Symbol(s.value, s.size, s.shndx, text))
  {
    hide Image;
    hide InRange;
    hide SymbolIn;
    hide SymbolAt;
    hide SymbolPlace;
    hide FieldOf;
    hide ToInt32;
    hide Holds;
    hide HoldsName;
    SymbolInIs(h.word32, h.order, s, text);
    SymbolFrom(file, h, scan, i, Image(h.order, s.Members(h.word32)), text);
  }

  lemma SymbolBehind(file: Bytes, h: Header, scan: Scan, i: nat, m: Bytes, text: Bytes)
    requires |m| == SymbolSize(h.word32) && SymbolPlace(scan, i) < TWO_31 && Holds(file, SymbolPlace(scan, i), m)
    requires ToInt32(scan.strings + FieldOf(h.order, m, ST_NAME)) < 0
    requires HoldsName(file, SymbolPlace(scan, i) + |m|, text)
    ensures SymbolAt(file, h, scan, i) == Ok(SymbolIn(h.word32, h.order, m, text))
  {
    hide Holds;
    hide HoldsName;
    hide ReadAt;
    hide SymbolIn;
    hide FieldOf;
    hide NameAt;
    hide ToInt32;
    hide SymbolPlace;
    Reads(file, SymbolPlace(scan, i), m);
    NameMissed(file, ToInt32(scan.strings + FieldOf(h.order, m, ST_NAME)), SymbolPlace(scan, i) + |m|, text);
  }

  /** The same of a symbol, whose name's position is cut to 32 bits. */
  lemma SymbolMisnamed(file: Bytes, h: Header, scan: Scan, i: nat, s: Sym, text: Bytes)
    requires InRange(s.Members(h.word32)) && SymbolPlace(scan, i) < TWO_31
    requires Holds(file, SymbolPlace(scan, i), Image(h.order, s.Members(h.word32)))
    requires ToInt32(scan.strings + s.name) < 0
    requires HoldsName(file, SymbolPlace(scan, i) + SymbolSize(h.word32), text)
    ensures SymbolAt(file, h, scan, i) == Ok(Symbol(s.value, s.size, s.shndx, text))
  {
    hide *;
    SymbolInIs(h.word32, h.order, s, text);
    SymbolBehind(file, h, scan, i, Image(h.order, s.Members(h.word32)), text);
  }

  // ------------------------------------------------------------------ the table definition

  /** A C string in an array of its type: the text, its terminator and anything behind. */
  predicate IsText(b: Bytes, text: Bytes) { 0 !in text && text + [0] <= b }

  lemma {:induction false} TextIs(b: Bytes, text: Bytes)
    requires IsText(b, text)
    ensures TextOf(b) == text
    decreases |text|
  {
    assert b[0] == (text + [0])[0];
    if text != [] {
      assert text[0] in text;
      assert (text + [0])[1..] == text[1..] + [0];
      forall x | x in text[1..]
        ensures x in text
      {
      }
      TextIs(b[1..], text[1..]);
    }
  }

  /** A text of less than n bytes in an array of n is not touched by the terminator set at its end. */
  lemma TextCut(b: Bytes, text: Bytes)
    requires IsText(b, text)
    ensures TextOf(b[..|b| - 1]) == text
  {
    TextIs(b, text);
    if |text| + 1 < |b| {
      assert text + [0] <= b[..|b| - 1];
      TextIs(b[..|b| - 1], text);
    } else {
      assert b[..|b| - 1] == text;
      WholeText(text);
    }
  }

  lemma {:induction false} WholeText(text: Bytes)
    requires 0 !in text
    ensures TextOf(text) == text
    decreases |text|
  {
    if text != [] {
      assert text[0] in text;
      forall x | x in text[1..]
        ensures x in text
      {
      }
      WholeText(text[1..]);
    }
  }

  /** CFE_TBL_FileDef_t: ObjectName[64], TableName[40], Description[32], TgtFilename[20], ObjectSize. */
  datatype FileDef = FileDef(objectName: Bytes, tableName: Bytes, description: Bytes, target: Bytes, objectSize: nat) {
    predicate Sized() {
      |objectName| == 64 && |tableName| == 40 && |description| == 32 && |target| == 20 && objectSize < TWO_32
    }

    function Laid(order: Order): Bytes {
      objectName + tableName + description + target + Encode(order, Member(objectSize, 4))
    }
  }

  /** Its texts, where they fit into their arrays, and the object's size are what the tool reads. */
  lemma DefInIs(order: Order, d: FileDef, name: Bytes, table: Bytes, description: Bytes)
    requires d.Sized() && IsText(d.objectName, name) && IsText(d.tableName, table)
    requires IsText(d.description, description)
    ensures |d.Laid(order)| == DEF_SIZE && DefIn(order, d.Laid(order)) == Def(name, table, description, d.objectSize)
  {
    var m := d.Laid(order);
    var size := Member(d.objectSize, 4);
    EncodeDecodes(order, size);
    TextCut(d.objectName, name);
    TextCut(d.tableName, table);
    TextCut(d.description, description);
    hide Encode;
    hide Decode;
    hide TextOf;
    hide IsText;
    assert m[..63] == d.objectName[..63];
    assert m[64..103] == d.tableName[..39];
    assert m[104..135] == d.description[..31];
    assert Slice(m, DEF_OBJECT_SIZE) == Encode(order, size);
  }

  /** The table definition of a file that holds one where its symbol points. */
  lemma DefIsRead(file: Bytes, h: Header, scan: Scan, s: Symbol, d: FileDef,
                  name: Bytes, table: Bytes, description: Bytes)
    requires d.Sized() && IsText(d.objectName, name) && IsText(d.tableName, table)
    requires IsText(d.description, description)
    requires s.size in {0, DEF_SIZE} && s.shndx < |scan.sections| && DataPlace(scan, s) < TWO_32
    requires Holds(file, DataPlace(scan, s), d.Laid(h.order))
    ensures ReadDef(file, h, scan, s).Ok?
    ensures ReadDef(file, h, scan, s).value == Def(name, table, description, d.objectSize)
  {
    DefInIs(h.order, d, name, table, description);
    Reads(file, DataPlace(scan, s), d.Laid(h.order));
    hide Holds;
    hide ReadAt;
    hide DefIn;
    hide DataPlace;
    hide IsText;
  }
}
