/** What ElfSpec.TableFile means: which tables of the ELF file are used, what the table file holds,
    and that the CRC tool checksums exactly its payload. */
module ElfTables {
  import opened Bytes
  import opened ElfBytes
  import opened ElfSpec
  import opened Wrappers
  import TblCrc

  // ------------------------------------------------------------------ the section scan

  function ScanOf(h: Header, ss: seq<Section>): (scan: Scan)
    ensures scan.sections == ss
  {
    if ss == [] then NO_SCAN
    else
      var n := |ss| - 1;
      assert ss[..n] + [ss[n]] == ss;
      Note(ScanOf(h, ss[..n]), h, ss[n])
  }

  /** The loop over the section headers is a fold over the headers it reads. */
  lemma {:induction false} ScanIsFold(file: Bytes, h: Header, names: int, n: nat)
    requires ScanSections(file, h, names, n).Ok?
    ensures ScanSections(file, h, names, n).value == ScanOf(h, ScanSections(file, h, names, n).value.sections)
  {
    hide SectionAt;
    if n > 0 {
      ScanIsFold(file, h, names, n - 1);
      var before := ScanSections(file, h, names, n - 1).value;
      var after := ScanSections(file, h, names, n).value;
      assert after.sections[..n - 1] == before.sections;
    }
  }

  predicate StringTable(s: Section) { s.name.Some? && s.typ == SHT_STRTAB }

  predicate Preferred(s: Section) { StringTable(s) && s.name.value == STRTAB }

  predicate NonePreferred(ss: seq<Section>) { forall i :: 0 <= i < |ss| ==> !Preferred(ss[i]) }

  predicate LastPreferred(ss: seq<Section>, k: nat) {
    k < |ss| && Preferred(ss[k]) && forall i :: k < i < |ss| ==> !Preferred(ss[i])
  }

  /** The first string table that does not hold the section names. */
  predicate FirstOther(h: Header, ss: seq<Section>, k: nat) {
    && k < |ss| && StringTable(ss[k]) && k != h.shstrndx
    && forall i :: 0 <= i < k ==> StringTable(ss[i]) ==> i == h.shstrndx
  }

  predicate NoOther(h: Header, ss: seq<Section>) {
    forall i :: 0 <= i < |ss| ==> StringTable(ss[i]) ==> i == h.shstrndx
  }

  predicate PlacedStrings(ss: seq<Section>) {
    forall i :: 0 <= i < |ss| ==> StringTable(ss[i]) ==> ss[i].offset != 0
  }

  lemma {:induction false} PreferredWins(h: Header, ss: seq<Section>, k: nat)
    requires PlacedStrings(ss) && LastPreferred(ss, k)
    ensures ScanOf(h, ss).strings == ss[k].offset
  {
    var n := |ss| - 1;
    if k < n {
      PreferredWins(h, ss[..n], k);
    }
  }

  lemma {:induction false} NoStrings(h: Header, ss: seq<Section>)
    requires NonePreferred(ss) && NoOther(h, ss)
    ensures ScanOf(h, ss).strings == 0
  {
    if ss != [] {
      NoStrings(h, ss[..|ss| - 1]);
    }
  }

  /** What one more header does to the string table. */
  lemma StringsStep(h: Header, ss: seq<Section>)
    requires ss != []
    ensures var n := |ss| - 1;
            var before := ScanOf(h, ss[..n]).strings;
            ScanOf(h, ss).strings ==
            if Preferred(ss[n]) || (StringTable(ss[n]) && before == 0 && n != h.shstrndx) then ss[n].offset else before
  {
    var n := |ss| - 1;
    assert ScanOf(h, ss) == Note(ScanOf(h, ss[..n]), h, ss[n]);
    hide ScanOf;
    hide CountSymbols;
    hide ToInt32;
  }

  lemma {:induction false} OtherWins(h: Header, ss: seq<Section>, k: nat)
    requires PlacedStrings(ss) && NonePreferred(ss) && FirstOther(h, ss, k)
    ensures ScanOf(h, ss).strings == ss[k].offset
  {
    hide ScanOf;
    hide Preferred;
    hide StringTable;
    var n := |ss| - 1;
    StringsStep(h, ss);
    if k < n {
      OtherWins(h, ss[..n], k);
    } else {
      NoStrings(h, ss[..n]);
    }
  }

  /** Symbol names come from the last .strtab; without one, from the first string table that is not
      the section names'; without that either, none is found. */
  lemma StringsChosen(h: Header, ss: seq<Section>)
    requires PlacedStrings(ss)
    ensures forall k: nat :: LastPreferred(ss, k) ==> ScanOf(h, ss).strings == ss[k].offset
    ensures NonePreferred(ss) ==> forall k: nat :: FirstOther(h, ss, k) ==> ScanOf(h, ss).strings == ss[k].offset
    ensures NonePreferred(ss) && NoOther(h, ss) ==> ScanOf(h, ss).strings == 0
  {
    hide ScanOf;
    forall k: nat | LastPreferred(ss, k)
      ensures ScanOf(h, ss).strings == ss[k].offset
    {
      PreferredWins(h, ss, k);
    }
    if NonePreferred(ss) {
      forall k: nat | FirstOther(h, ss, k)
        ensures ScanOf(h, ss).strings == ss[k].offset
      {
        OtherWins(h, ss, k);
      }
      if NoOther(h, ss) {
        NoStrings(h, ss);
      }
    }
  }

  // ------------------------------------------------------------------ the symbol loop

  predicate SymbolTable(s: Section) { s.name.Some? && s.typ == SHT_SYMTAB }

  predicate LastSymbolTable(ss: seq<Section>, k: nat) {
    k < |ss| && SymbolTable(ss[k]) && forall i :: k < i < |ss| ==> !SymbolTable(ss[i])
  }

  lemma {:induction false} SymbolsChosen(h: Header, ss: seq<Section>, k: nat)
    requires LastSymbolTable(ss, k)
    ensures ScanOf(h, ss).symbols == ToInt32(ss[k].offset + SymbolSize(h.word32))
    ensures ScanOf(h, ss).entsize == ss[k].entsize && ScanOf(h, ss).count == CountSymbols(ss[k])
  {
    var n := |ss| - 1;
    assert ScanOf(h, ss) == Note(ScanOf(h, ss[..n]), h, ss[n]);
    if k < n {
      SymbolsChosen(h, ss[..n], k);
    }
  }

  /** A symbol table whose entries have no size, or that holds the null symbol only, has no symbols for
      the tool, which then fails. */
  lemma NoSymbols(file: Bytes, h: Header, scan: Scan, k: nat)
    requires scan == ScanOf(h, scan.sections) && LastSymbolTable(scan.sections, k)
    requires var s := scan.sections[k]; s.entsize == 0 || s.size == s.entsize
    ensures ReadSymbols(file, h, scan).Failed?
  {
    hide ScanOf;
    SymbolsChosen(h, scan.sections, k);
  }

  lemma {:induction false} SymbolsInOrder(file: Bytes, h: Header, scan: Scan, n: nat, i: nat)
    requires ScanSymbols(file, h, scan, n).Ok? && i < n
    ensures SymbolAt(file, h, scan, i) == Ok(ScanSymbols(file, h, scan, n).value.list[i])
  {
    hide SymbolAt;
    if i < n - 1 {
      SymbolsInOrder(file, h, scan, n - 1, i);
    }
  }

  /** Where the record of ELF symbol k of a symbol table stands. */
  function RecordPlace(h: Header, s: Section, k: nat): nat { s.offset + k * SymbolSize(h.word32) }

  /** A section whose contents lie in a file of less than 2^31 bytes. */
  predicate InFile(file: Bytes, s: Section) { s.offset + s.size <= |file| < TWO_31 }

  lemma SymbolPlaceIs(file: Bytes, h: Header, scan: Scan, s: Section, i: nat)
    requires scan.symbols == ToInt32(s.offset + SymbolSize(h.word32)) && scan.entsize == SymbolSize(h.word32)
    requires InFile(file, s) && RecordPlace(h, s, i + 2) <= s.offset + s.size
    ensures SymbolPlace(scan, i) == RecordPlace(h, s, i + 1) < TWO_31
  {
    var z := SymbolSize(h.word32);
    assert (i + 2) * z == i * z + 2 * z && (i + 1) * z == i * z + z;
    assert s.offset + z < TWO_31;
    assert ToInt32(s.offset + z) == s.offset + z;
  }

  lemma SymbolAtIs(file: Bytes, h: Header, scan: Scan, i: nat)
    requires SymbolAt(file, h, scan, i).Ok?
    ensures var at, s := SymbolPlace(scan, i), SymbolAt(file, h, scan, i).value;
            && at + SymbolSize(h.word32) <= |file|
            && s == SymbolIn(h.word32, h.order, file[at..at + SymbolSize(h.word32)], s.name)
  {
    hide SymbolIn;
    hide SymbolPlace;
    hide NameAt;
  }

  /** With entries of the structure's size, symbol i of the tool is ELF symbol i + 1 of the last
      symbol table: each one but the null symbol, once and in order. */
  lemma SymbolsAreRead(file: Bytes, h: Header, scan: Scan, k: nat, i: nat)
    requires scan == ScanOf(h, scan.sections) && LastSymbolTable(scan.sections, k)
    requires var s := scan.sections[k]; InFile(file, s) && s.entsize == SymbolSize(h.word32) <= s.size
    requires ScanSymbols(file, h, scan, scan.count).Ok? && i < scan.count
    ensures var s := scan.sections[k];
            var list := ScanSymbols(file, h, scan, scan.count).value.list;
            var at := RecordPlace(h, s, i + 1);
            && |list| == s.size / s.entsize - 1
            && at + s.entsize <= s.offset + s.size
            && list[i] == SymbolIn(h.word32, h.order, file[at..at + s.entsize], list[i].name)
  {
    hide ScanSymbols;
    hide SymbolPlace;
    hide SymbolAt;
    hide ScanOf;
    hide SymbolIn;
    hide ToInt32;
    hide RecordPlace;
    hide CountSymbols;
    var s := scan.sections[k];
    SymbolsChosen(h, scan.sections, k);
    CountIs(s);
    PlacesFit(h, s, i);
    SymbolPlaceIs(file, h, scan, s, i);
    SymbolsInOrder(file, h, scan, scan.count, i);
    SymbolAtIs(file, h, scan, i);
  }

  lemma {:induction false} TimesGrows(q: nat, b: nat)
    requires 0 < b
    ensures q <= q * b
  {
    if q > 0 {
      TimesGrows(q - 1, b);
      assert q * b == (q - 1) * b + b;
    }
  }

  lemma QuotientBounds(a: nat, b: nat)
    requires 0 < b <= a
    ensures 1 <= a / b <= a
  {
    var q := a / b;
    assert a == q * b + a % b;
    TimesGrows(q, b);
  }

  lemma CountIs(s: Section)
    requires 0 < s.entsize <= s.size < TWO_31
    ensures CountSymbols(s) == s.size / s.entsize - 1
  {
    QuotientBounds(s.size, s.entsize);
    var n := s.size / s.entsize - 1;
    assert n % TWO_64 == n;
  }

  lemma PlacesFit(h: Header, s: Section, i: nat)
    requires 0 < s.entsize == SymbolSize(h.word32) && i < s.size / s.entsize - 1
    ensures RecordPlace(h, s, i + 2) <= s.offset + s.size
    ensures RecordPlace(h, s, i + 1) + s.entsize == RecordPlace(h, s, i + 2)
  {
    var z, q := s.entsize, s.size / s.entsize;
    assert (i + 2) * z <= q * z <= s.size;
    assert (i + 2) * z == (i + 1) * z + z;
  }

  // ------------------------------------------------------------------ the object chosen

  /** One character longer than the object's name and starting with it. */
  predicate Extends(wanted: Bytes, name: Bytes) { wanted < name && |name| == |wanted| + 1 }

  lemma MatchesCases(wanted: Bytes, name: Bytes)
    ensures Matches(wanted, name) <==> name == wanted || Extends(wanted, name)
  {
    if wanted <= name && |name| == |wanted| {
      assert name == name[..|wanted|] == wanted;
    }
  }

  /** The object is found under its own name exactly when no earlier symbol is named after it with
      one more character. */
  lemma ObjectFoundIff(list: seq<Symbol>, wanted: Bytes, k: nat)
    requires k < |list| && list[k].name == wanted
    requires forall j :: 0 <= j < k ==> list[j].name != wanted
    ensures FindObject(list, wanted, 0) == k <==> forall j :: 0 <= j < k ==> !Extends(wanted, list[j].name)
  {
    forall j | 0 <= j <= k
      ensures Matches(wanted, list[j].name) <==> list[j].name == wanted || Extends(wanted, list[j].name)
    {
      MatchesCases(wanted, list[j].name);
    }
  }

  /** The symbol "T2" before the symbol "T" is taken for the object "T". */
  lemma WrongObjectFound()
    ensures var list := [Symbol(0, 4, 1, [0x54, 0x32]), Symbol(4, 4, 1, [0x54])];
            FindObject(list, [0x54], 0) == 0 && list[1].name == [0x54] && list[0].name != [0x54]
  {
    var list := [Symbol(0, 4, 1, [0x54, 0x32]), Symbol(4, 4, 1, [0x54])];
    ObjectFoundIff(list, [0x54], 1);
    assert Extends([0x54], list[0].name);
  }

  // ------------------------------------------------------------------ the table file

  /** The stages behind a table file. */
  lemma Stages(file: Bytes, o: Settings) returns (h: Header, scan: Scan, table: Symbols, def: Def, c: Contents)
    requires o.Valid() && TableFile(file, o).Ok?
    ensures ReadHeader(file) == Ok(h) && ReadSections(file, h) == Ok(scan)
    ensures ReadSymbols(file, h, scan) == Ok(table)
    ensures ReadDef(file, h, scan, table.list[table.def]) == Ok(def)
    ensures LocateObject(scan, table, def) == Ok(c)
    ensures |DescriptionOf(o, def)| < 32 && |NameOf(o, def)| < 40
    ensures TableFile(file, o) == Ok(Output(file, o, def, c))
  {
    hide ReadHeader;
    hide ReadSections;
    hide ReadSymbols;
    hide ReadDef;
    hide LocateObject;
    hide Output;
    h := ReadHeader(file).value;
    scan := ReadSections(file, h).value;
    table := ReadSymbols(file, h, scan).value;
    def := ReadDef(file, h, scan, table.list[table.def]).value;
    c := LocateObject(scan, table, def).value;
  }

  /** A 32-bit field of a header, as the flight software reads it. */
  function Word(out: Bytes, k: nat): nat
    requires 4 * k + 4 <= |out|
  {
    BigEndian(out[4 * k..4 * k + 4])
  }

  lemma WordOf(a: Bytes, v: Uint32, b: Bytes, k: nat)
    requires |a| == 4 * k
    ensures Word(a + BE(v, 4) + b, k) == v
  {
    BERoundTrip(v, 4);
    assert Pow256(4) == TWO_32;
    hide BigEndian;
    hide BE;
    assert (a + BE(v, 4) + b)[4 * k..4 * k + 4] == BE(v, 4);
  }

  /** The words of the file header. */
  lemma FileHeaderWords(o: Settings, def: Def)
    requires |DescriptionOf(o, def)| < 32
    ensures var b := FileHeader(o, def);
            && Word(b, 0) == CONTENT_TYPE && Word(b, 1) == TBL_IMG && Word(b, 2) == FS_HEADER_SIZE
            && Word(b, 3) == o.spacecraft && Word(b, 4) == o.processor && Word(b, 5) == o.application
            && Word(b, 6) == o.time && Word(b, 7) == 0
            && b[32..] == Padded(DescriptionOf(o, def), 32)
  {
    hide BE;
    hide Word;
    hide Padded;
    var text := Padded(DescriptionOf(o, def), 32);
    var t7 := BE(0, 4) + text;
    var t6 := BE(o.time, 4) + t7;
    var t5 := BE(o.application, 4) + t6;
    var t4 := BE(o.processor, 4) + t5;
    var t3 := BE(o.spacecraft, 4) + t4;
    var t2 := BE(FS_HEADER_SIZE, 4) + t3;
    var t1 := BE(TBL_IMG, 4) + t2;
    var a1 := BE(CONTENT_TYPE, 4);
    var a2 := a1 + BE(TBL_IMG, 4);
    var a3 := a2 + BE(FS_HEADER_SIZE, 4);
    var a4 := a3 + BE(o.spacecraft, 4);
    var a5 := a4 + BE(o.processor, 4);
    var a6 := a5 + BE(o.application, 4);
    var a7 := a6 + BE(o.time, 4);
    var b := FileHeader(o, def);
    assert b == a7 + BE(0, 4) + text;
    WordOf(a7, 0, text, 7);
    assert b == a6 + BE(o.time, 4) + t7;
    WordOf(a6, o.time, t7, 6);
    assert b == a5 + BE(o.application, 4) + t6;
    WordOf(a5, o.application, t6, 5);
    assert b == a4 + BE(o.processor, 4) + t5;
    WordOf(a4, o.processor, t5, 4);
    assert b == a3 + BE(o.spacecraft, 4) + t4;
    WordOf(a3, o.spacecraft, t4, 3);
    assert b == a2 + BE(FS_HEADER_SIZE, 4) + t3;
    WordOf(a2, FS_HEADER_SIZE, t3, 2);
    assert b == a1 + BE(TBL_IMG, 4) + t2;
    WordOf(a1, TBL_IMG, t2, 1);
    assert b == [] + BE(CONTENT_TYPE, 4) + t1;
    WordOf([], CONTENT_TYPE, t1, 0);
    assert b[32..] == text;
  }

  /** The table header announces the size of the payload that follows it. */
  lemma OutputShape(file: Bytes, o: Settings, def: Def, c: Contents)
    requires |DescriptionOf(o, def)| < 32 && |NameOf(o, def)| < 40 && c.size < TWO_32
    ensures var out := Output(file, o, def, c);
            && |out| == TblCrc.HEADER + c.size
            && out[..64] == FileHeader(o, def)
            && Word(out, 16) == 0 && Word(out, 17) == 0 && Word(out, 18) == c.size
            && out[76..116] == Padded(NameOf(o, def), 40)
            && out[TblCrc.HEADER..] == Payload(file, c)
  {
    hide BE;
    hide Word;
    hide Padded;
    hide FileHeader;
    var out, f, p := Output(file, o, def, c), FileHeader(o, def), Payload(file, c);
    var text := Padded(NameOf(o, def), 40);
    assert out == f + BE(0, 4) + (BE(0, 4) + BE(c.size, 4) + text + p);
    WordOf(f, 0, BE(0, 4) + BE(c.size, 4) + text + p, 16);
    assert out == (f + BE(0, 4)) + BE(0, 4) + (BE(c.size, 4) + text + p);
    WordOf(f + BE(0, 4), 0, BE(c.size, 4) + text + p, 17);
    assert out == (f + BE(0, 4) + BE(0, 4)) + BE(c.size, 4) + (text + p);
    WordOf(f + BE(0, 4) + BE(0, 4), c.size, text + p, 18);
    assert out == (f + BE(0, 4) + BE(0, 4) + BE(c.size, 4)) + text + p;
  }

  /** n bytes of a file from at on; beyond its end they read as 0xFF. */
  function BytesFrom(file: Bytes, at: nat, n: nat): Bytes {
    if at >= |file| then Ones(n)
    else if at + n <= |file| then file[at..at + n]
    else file[at..] + Ones(at + n - |file|)
  }

  function Ones(n: nat): (b: Bytes)
    ensures |b| == n && forall i :: 0 <= i < n ==> b[i] == 0xFF
  {
    seq(n, i requires i >= 0 => 0xFF)
  }

  lemma PayloadIsRead(file: Bytes, c: Contents)
    requires !c.zeros
    ensures Payload(file, c) == BytesFrom(file, c.at, c.size)
  {
    var p, q := Payload(file, c), BytesFrom(file, c.at, c.size);
    assert forall i :: 0 <= i < c.size ==> p[i] == ContentByte(file, c, i) == q[i];
  }

  /** What a table file must hold for a symbol: zeros for an object in .bss, else the bytes where
      its section and its value say, cut to the declared object size. */
  function ObjectBytes(file: Bytes, section: Section, s: Symbol, objectSize: nat): Bytes {
    if section.name == Some(BSS) then Zeros(s.size)
    else BytesFrom(file, (section.offset + s.value) % TWO_64, AssumedSize(s.size, objectSize))
  }

  /** The table file of an ELF file: a header of 116 bytes that announces the payload's length, and
      the bytes of the object whose name the table definition gives. */
  lemma TableHoldsObject(file: Bytes, o: Settings)
    returns (h: Header, scan: Scan, table: Symbols, def: Def, s: Symbol)
    requires o.Valid() && TableFile(file, o).Ok?
    ensures ReadHeader(file) == Ok(h) && ReadSections(file, h) == Ok(scan)
    ensures ReadSymbols(file, h, scan) == Ok(table) && ReadDef(file, h, scan, table.list[table.def]) == Ok(def)
    ensures s in table.list && Matches(def.objectName, s.name)
    ensures s.shndx < |scan.sections| && scan.sections[s.shndx].name.Some?
    ensures var out := TableFile(file, o).value;
            && |out| >= TblCrc.HEADER && Word(out, 18) == |out| - TblCrc.HEADER
            && out[TblCrc.HEADER..] == ObjectBytes(file, scan.sections[s.shndx], s, def.objectSize)
  {
    hide Word;
    hide Output;
    hide ReadHeader;
    hide ReadSections;
    hide ReadSymbols;
    hide ReadDef;
    hide TableFile;
    hide BytesFrom;
    var c: Contents;
    h, scan, table, def, c := Stages(file, o);
    s := table.list[FindObject(table.list, def.objectName, 0)];
    OutputShape(file, o, def, c);
    if c.zeros {
      assert Payload(file, c) == Zeros(c.size);
    } else {
      PayloadIsRead(file, c);
    }
  }

  // ------------------------------------------------------------------ the reader of table files

  function Octet(b: Byte): bv8 { b as bv8 }

  /** Bytes as the CRC tool sees them. */
  function Octets(b: Bytes): (s: seq<bv8>)
    ensures |s| == |b|
    ensures forall i :: 0 <= i < |b| ==> s[i] == Octet(b[i])
  {
    seq(|b|, i requires 0 <= i < |b| => Octet(b[i]))
  }

  /** What the CRC tool checksums in the table file of an ELF file is that object, nothing more and
      nothing less. */
  lemma CrcToolSeesPayload(file: Bytes, o: Settings)
    returns (scan: Scan, table: Symbols, def: Def, s: Symbol)
    requires o.Valid() && TableFile(file, o).Ok?
    ensures s in table.list && Matches(def.objectName, s.name) && s.shndx < |scan.sections|
    ensures var seen := TblCrc.Payload(Octets(TableFile(file, o).value));
            var named := ObjectBytes(file, scan.sections[s.shndx], s, def.objectSize);
            seen == Octets(named) && TblCrc.CrcOf(seen, 0) == TblCrc.CrcOf(Octets(named), 0)
  {
    hide Word;
    hide Octet;
    hide TableFile;
    hide ObjectBytes;
    hide TblCrc.CrcOf;
    var h: Header;
    h, scan, table, def, s := TableHoldsObject(file, o);
    var out := TableFile(file, o).value;
    assert Octets(out)[TblCrc.HEADER..] == Octets(out[TblCrc.HEADER..]);
  }
}
