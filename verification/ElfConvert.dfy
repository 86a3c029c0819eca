/** The conversion as a whole: for every relocatable object that holds a table definition and the
    object it names, laid out as the ELF structures say, the tool writes that object behind the two
    headers. */
module ElfConvert {
  import opened Bytes
  import opened ElfBytes
  import opened ElfSpec
  import opened ElfLayout
  import opened ElfTables
  import opened Wrappers

  /** An ELF object: its header, its section headers with their names, the entries of its symbol
      table, the null symbol included, with theirs. */
  datatype Elf = Elf(
    word32: bool, order: Order, pad: Bytes, e: Ehdr, sections: seq<Shdr>, names: seq<Bytes>,
    symbols: seq<Sym>, labels: seq<Bytes>)
  {
    predicate Sized() {
      && |pad| == 9 && |names| == |sections| == e.shnum && |labels| == |symbols| >= 2
      && e.shstrndx < |sections|
    }

    function Head(): Header { Header(word32, order, e.shoff, e.shentsize, e.shnum, e.shstrndx) }

    /** Where the section names start. */
    function NamesAt(): nat
      requires Sized()
    {
      sections[e.shstrndx].offset
    }

    /** What the tool keeps of a section header. */
    function Seen(i: nat): Section
      requires Sized() && i < |sections|
    {
      var s := sections[i];
      Section(s.typ, s.offset, s.size, s.entsize, if s.name == 0 then None else Some(names[i]))
    }

    function SeenAll(n: nat): (ss: seq<Section>)
      requires Sized() && n <= |sections|
      ensures |ss| == n && forall i :: 0 <= i < n ==> ss[i] == Seen(i)
    {
      seq(n, i requires 0 <= i < n => Seen(i))
    }

    /** What it keeps of a symbol. */
    function Known(k: nat): Symbol
      requires Sized() && k < |symbols|
    {
      Symbol(symbols[k].value, symbols[k].size, symbols[k].shndx, labels[k])
    }
  }

  lemma SmallIsSame(v: nat)
    ensures v < TWO_63 ==> ToInt64(v) == v
    ensures v < TWO_31 ==> ToInt32(v) == v && v % TWO_64 == v
  {}

  // ------------------------------------------------------------------ the object in the file

  predicate HeaderStands(file: Bytes, x: Elf)
    requires x.Sized()
  {
    && InRange(x.e.Members(x.word32))
    && KnownType(x.e.typ) && KnownMachine(x.e.machine) && x.e.version == 1
    && Ident(x.word32, x.order, x.pad) + Image(x.order, x.e.Members(x.word32)) <= file
    && |file| < TWO_31
  }

  /** Section header i in the table of section headers, and its name among the section names. */
  predicate SectionStands(file: Bytes, x: Elf, i: nat)
    requires x.Sized() && i < |x.sections|
  {
    var s := x.sections[i];
    && InRange(s.Members(x.word32))
    && Holds(file, x.e.shoff + i * x.e.shentsize, Image(x.order, s.Members(x.word32)))
    && (s.name != 0 ==> HoldsName(file, x.NamesAt() + s.name, x.names[i]))
  }

  predicate SectionsStand(file: Bytes, x: Elf)
    requires x.Sized()
  {
    && 0 < x.NamesAt() < TWO_31
    && forall i :: 0 <= i < |x.sections| ==> SectionStands(file, x, i)
  }

  /** Entry k of the symbol table in section y, and its name among the strings of section t. */
  predicate SymbolStands(file: Bytes, x: Elf, y: nat, t: nat, k: nat)
    requires x.Sized() && y < |x.sections| && t < |x.sections| && k < |x.symbols|
  {
    var s := x.symbols[k];
    && InRange(s.Members(x.word32))
    && Holds(file, x.sections[y].offset + k * SymbolSize(x.word32), Image(x.order, s.Members(x.word32)))
    && HoldsName(file, x.sections[t].offset + s.name, x.labels[k])
  }

  /** The symbol table is the last of the sections of its type, each symbol having the structure's
      size; the strings are those of the last .strtab, or without one of the first string table that
      is not the section names'. */
  predicate SymbolsStand(file: Bytes, x: Elf, y: nat, t: nat)
    requires x.Sized()
  {
    var ss := x.SeenAll(|x.sections|);
    && PlacedStrings(ss) && (LastPreferred(ss, t) || (NonePreferred(ss) && FirstOther(x.Head(), ss, t)))
    && LastSymbolTable(ss, y)
    && x.sections[y].entsize == SymbolSize(x.word32)
    && x.sections[y].size == |x.symbols| * SymbolSize(x.word32)
    && x.sections[y].offset + x.sections[y].size <= |file|
    && forall k :: 1 <= k < |x.symbols| ==> SymbolStands(file, x, y, t, k)
  }

  // ------------------------------------------------------------------ what is read of it

  lemma HeaderFound(file: Bytes, x: Elf)
    requires x.Sized() && HeaderStands(file, x)
    ensures ReadHeader(file) == Ok(x.Head())
  {
    hide ReadHeader;
    hide Image;
    hide Ident;
    hide InRange;
    hide KnownMachine;
    var front := Ident(x.word32, x.order, x.pad) + Image(x.order, x.e.Members(x.word32));
    var rest := file[|front|..];
    assert file == front + rest;
    HeaderIsRead(x.word32, x.order, x.pad, x.e, rest);
  }

  lemma PlaceIsSmall(file: Bytes, x: Elf, i: nat)
    requires x.Sized() && |file| < TWO_31 && i < |x.sections| && SectionStands(file, x, i)
    ensures i * x.e.shentsize < TWO_31
    ensures SectionPlace(x.Head(), i) == x.e.shoff + i * x.e.shentsize
  {
    hide Image;
    hide InRange;
    hide HoldsName;
    SmallIsSame(x.e.shoff);
  }

  lemma SectionFound(file: Bytes, x: Elf, i: nat)
    requires x.Sized() && |file| < TWO_31 && SectionsStand(file, x) && i < |x.sections|
    ensures SectionAt(file, x.Head(), x.NamesAt(), i) == Ok(x.Seen(i))
  {
    hide Image;
    hide InRange;
    hide SectionAt;
    hide SectionPlace;
    hide ToInt64;
    assert SectionStands(file, x, i);
    PlaceIsSmall(file, x, i);
    var s := x.sections[i];
    if s.name != 0 {
      assert x.NamesAt() + s.name < TWO_31;
      SmallIsSame(x.NamesAt() + s.name);
    }
    hide Holds;
    hide HoldsName;
    SectionIsRead(file, x.Head(), x.NamesAt(), i, s, x.names[i]);
  }

  /** The names' section, read before the names are known. */
  lemma NamesFound(file: Bytes, x: Elf)
    requires x.Sized() && |file| < TWO_31 && SectionsStand(file, x)
    ensures SectionAt(file, x.Head(), 0, x.e.shstrndx).Ok?
    ensures ToInt64(SectionAt(file, x.Head(), 0, x.e.shstrndx).value.offset) == x.NamesAt()
  {
    hide Image;
    hide InRange;
    hide SectionAt;
    hide SectionPlace;
    hide Holds;
    hide HoldsName;
    hide ToInt64;
    var i := x.e.shstrndx;
    assert SectionStands(file, x, i);
    PlaceIsSmall(file, x, i);
    SmallIsSame(x.NamesAt());
    SectionIsRead(file, x.Head(), 0, i, x.sections[i], x.names[i]);
  }

  lemma {:induction false} SectionsFound(file: Bytes, x: Elf, n: nat)
    requires x.Sized() && |file| < TWO_31 && SectionsStand(file, x) && n <= |x.sections|
    ensures ScanSections(file, x.Head(), x.NamesAt(), n).Ok?
    ensures ScanSections(file, x.Head(), x.NamesAt(), n).value.sections == x.SeenAll(n)
    decreases n
  {
    hide SectionsStand;
    hide SectionAt;
    hide Elf.Sized;
    hide Elf.Seen;
    if n > 0 {
      SectionsFound(file, x, n - 1);
      SectionFound(file, x, n - 1);
    }
  }

  /** What the tool knows once it has read the section headers. */
  function ScanOfAll(x: Elf): Scan
    requires x.Sized()
  {
    ScanOf(x.Head(), x.SeenAll(|x.sections|))
  }

  lemma TablesChosen(file: Bytes, x: Elf, y: nat, t: nat)
    requires x.Sized() && SymbolsStand(file, x, y, t)
    ensures y < |x.sections| && t < |x.sections|
    ensures ScanOfAll(x).strings == x.sections[t].offset != 0
    ensures ScanOfAll(x).symbols == ToInt32(x.sections[y].offset + SymbolSize(x.word32))
    ensures ScanOfAll(x).entsize == SymbolSize(x.word32)
    ensures ScanOfAll(x).count == CountSymbols(x.Seen(y))
  {
    hide ScanOf;
    hide ToInt32;
    hide CountSymbols;
    hide SymbolStands;
    hide StringTable;
    var ss := x.SeenAll(|x.sections|);
    assert ss[t] == x.Seen(t) && ss[y] == x.Seen(y);
    StringsChosen(x.Head(), ss);
    SymbolsChosen(x.Head(), ss, y);
  }

  lemma AllSectionsFound(file: Bytes, x: Elf, y: nat, t: nat)
    requires x.Sized() && HeaderStands(file, x) && SectionsStand(file, x) && SymbolsStand(file, x, y, t)
    ensures ReadSections(file, x.Head()) == Ok(ScanOfAll(x))
  {
    hide SectionsStand;
    hide SectionAt;
    hide ScanSections;
    hide ToInt64;
    hide InRange;
    hide Image;
    hide Ident;
    hide KnownMachine;
    NamesFound(file, x);
    SectionsFound(file, x, |x.sections|);
    ScanIsFold(file, x.Head(), x.NamesAt(), |x.sections|);
    TablesChosen(file, x, y, t);
    hide SymbolsStand;
    hide ScanOf;
  }

  // ------------------------------------------------------------------ the symbols

  lemma CountKnown(file: Bytes, x: Elf, y: nat, t: nat)
    requires x.Sized() && |file| < TWO_31 && SymbolsStand(file, x, y, t)
    ensures y < |x.sections| && CountSymbols(x.Seen(y)) == |x.symbols| - 1
  {
    hide SymbolStands;
    hide ScanOf;
    var s := x.Seen(y);
    TimesOver(|x.symbols|, SymbolSize(x.word32));
    CountIs(s);
  }

  lemma TimesOver(n: nat, z: nat)
    requires z == SIZE_SYMBOL_32 || z == SIZE_SYMBOL_64
    ensures n * z / z == n && (n > 0 ==> z <= n * z)
  {
    if z == SIZE_SYMBOL_32 {
      assert n * 16 / 16 == n;
    } else {
      assert n * 24 / 24 == n;
    }
  }

  lemma SymbolFound(file: Bytes, x: Elf, y: nat, t: nat, i: nat)
    requires x.Sized() && |file| < TWO_31 && SymbolsStand(file, x, y, t) && i + 1 < |x.symbols|
    ensures SymbolAt(file, x.Head(), ScanOfAll(x), i) == Ok(x.Known(i + 1))
  {
    hide ScanOfAll;
    hide SymbolAt;
    hide SymbolPlace;
    hide ToInt32;
    hide CountSymbols;
    hide Image;
    hide InRange;
    TablesChosen(file, x, y, t);
    var scan, section, s := ScanOfAll(x), x.Seen(y), x.symbols[i + 1];
    assert SymbolStands(file, x, y, t, i + 1);
    Rows(|x.symbols|, i, SymbolSize(x.word32));
    SymbolPlaceIs(file, x.Head(), scan, section, i);
    assert scan.strings + s.name < TWO_31;
    SmallIsSame(scan.strings + s.name);
    hide SymbolsStand;
    hide Holds;
    hide HoldsName;
    SymbolIsRead(file, x.Head(), scan, i, s, x.labels[i + 1]);
  }

  lemma Rows(n: nat, i: nat, z: nat)
    requires i + 2 <= n
    ensures (i + 2) * z <= n * z
  {}

  predicate Listed(x: Elf, list: seq<Symbol>)
    requires x.Sized()
  {
    |list| < |x.symbols| && forall i :: 0 <= i < |list| ==> list[i] == x.Known(i + 1)
  }

  lemma {:induction false} SymbolsFound(file: Bytes, x: Elf, y: nat, t: nat, n: nat)
    requires x.Sized() && |file| < TWO_31 && SymbolsStand(file, x, y, t) && n < |x.symbols|
    ensures ScanSymbols(file, x.Head(), ScanOfAll(x), n).Ok?
    ensures Listed(x, ScanSymbols(file, x.Head(), ScanOfAll(x), n).value.list)
    decreases n
  {
    hide SymbolsStand;
    hide SymbolAt;
    hide ScanOfAll;
    hide Elf.Known;
    hide NamesTblDef;
    if n > 0 {
      SymbolsFound(file, x, y, t, n - 1);
      SymbolFound(file, x, y, t, n - 1);
    }
  }

  /** The label of the table definition, at most one character before it. */
  predicate Defines(text: Bytes) {
    var n := |text| - |TBL_DEF_SYMBOL_NAME|;
    0 <= n <= 1 && text[n..] == TBL_DEF_SYMBOL_NAME
  }

  lemma EndsWith(text: Bytes, wanted: Bytes)
    ensures text == wanted || (text != [] && text[1..] == wanted) <==>
            var n := |text| - |wanted|; 0 <= n <= 1 && text[n..] == wanted
  {
    assert text[0..] == text;
  }

  lemma DefinesIs(text: Bytes)
    ensures Defines(text) <==> NamesTblDef(text)
  {
    var wanted := TBL_DEF_SYMBOL_NAME;
    EndsWith(text, wanted);
  }

  /** Entry d is the last with such a label. */
  predicate DefinedBy(x: Elf, d: nat)
    requires x.Sized()
  {
    1 <= d < |x.symbols| && Defines(x.labels[d]) && forall k :: d < k < |x.symbols| ==> !Defines(x.labels[k])
  }

  lemma {:induction false} DefFound(file: Bytes, x: Elf, d: nat, n: nat)
    requires x.Sized() && DefinedBy(x, d) && d <= n < |x.symbols|
    requires ScanSymbols(file, x.Head(), ScanOfAll(x), n).Ok?
    requires Listed(x, ScanSymbols(file, x.Head(), ScanOfAll(x), n).value.list)
    ensures ScanSymbols(file, x.Head(), ScanOfAll(x), n).value.def == d - 1
    decreases n
  {
    hide SymbolAt;
    hide ScanOfAll;
    hide Defines;
    hide NamesTblDef;
    var list := ScanSymbols(file, x.Head(), ScanOfAll(x), n).value.list;
    assert list[n - 1] == x.Known(n);
    DefinesIs(x.labels[n]);
    if d < n {
      var before := ScanSymbols(file, x.Head(), ScanOfAll(x), n - 1).value.list;
      assert before == list[..n - 1];
      DefFound(file, x, d, n - 1);
    }
  }

  lemma SymbolsDone(file: Bytes, h: Header, scan: Scan)
    requires 0 < scan.count < TWO_31 && ScanSymbols(file, h, scan, scan.count).Ok?
    requires ScanSymbols(file, h, scan, scan.count).value.def >= 0
    ensures ReadSymbols(file, h, scan) == ScanSymbols(file, h, scan, scan.count)
  {
    hide ScanSymbols;
  }

  lemma Counted(file: Bytes, x: Elf, y: nat, t: nat)
    requires x.Sized() && |file| < TWO_31 && SymbolsStand(file, x, y, t)
    ensures ScanOfAll(x).count == |x.symbols| - 1 < TWO_31
  {
    hide SymbolsStand;
    hide ScanOfAll;
    hide CountSymbols;
    hide ToInt32;
    TablesChosen(file, x, y, t);
    CountKnown(file, x, y, t);
    CountSmall(file, x, y, t);
  }

  lemma AllSymbolsFound(file: Bytes, x: Elf, y: nat, t: nat, d: nat)
    requires x.Sized() && |file| < TWO_31 && SymbolsStand(file, x, y, t) && DefinedBy(x, d)
    ensures ReadSymbols(file, x.Head(), ScanOfAll(x)).Ok?
    ensures var table := ReadSymbols(file, x.Head(), ScanOfAll(x)).value;
            Listed(x, table.list) && |table.list| == |x.symbols| - 1 && table.def == d - 1
  {
    hide SymbolsStand;
    hide ScanSymbols;
    hide ReadSymbols;
    hide ScanOfAll;
    hide Listed;
    hide Defines;
    var n := |x.symbols| - 1;
    Counted(file, x, y, t);
    SymbolsFound(file, x, y, t, n);
    DefFound(file, x, d, n);
    SymbolsDone(file, x.Head(), ScanOfAll(x));
  }

  lemma CountSmall(file: Bytes, x: Elf, y: nat, t: nat)
    requires x.Sized() && |file| < TWO_31 && SymbolsStand(file, x, y, t)
    ensures |x.symbols| < TWO_31
  {
    hide SymbolStands;
    hide ScanOf;
    TimesGrows(|x.symbols|, SymbolSize(x.word32));
  }

  // ------------------------------------------------------------------ the definition and the object

  /** The definition that entry d stands for, and its texts. */
  predicate DefStands(file: Bytes, x: Elf, d: nat, f: FileDef, name: Bytes, table: Bytes, description: Bytes)
    requires x.Sized() && d < |x.symbols|
  {
    var s := x.symbols[d];
    && f.Sized() && IsText(f.objectName, name) && IsText(f.tableName, table) && IsText(f.description, description)
    && s.size in {0, 160} && s.shndx < |x.sections|
    && Holds(file, x.sections[s.shndx].offset + s.value, f.Laid(x.order))
  }

  lemma DefinitionRead(file: Bytes, x: Elf, d: nat, f: FileDef, name: Bytes, table: Bytes, description: Bytes)
    requires x.Sized() && |file| < TWO_31 && d < |x.symbols|
    requires DefStands(file, x, d, f, name, table, description)
    ensures ReadDef(file, x.Head(), ScanOfAll(x), x.Known(d)) == Ok(Def(name, table, description, f.objectSize))
  {
    var s, scan := x.Known(d), ScanOfAll(x);
    assert scan.sections[s.shndx] == x.Seen(s.shndx);
    SmallIsSame(x.sections[s.shndx].offset + s.value);
    assert DataPlace(scan, s) == x.sections[s.shndx].offset + s.value;
    hide ScanOf;
    hide IsText;
    hide ReadDef;
    hide DataPlace;
    hide ToInt32;
    hide ToInt64;
    DefIsRead(file, x.Head(), scan, s, f, name, table, description);
  }

  /** Entry u is the first symbol that has the object's name, and none before it has a name one
      character longer that starts with it. */
  predicate NamedBy(x: Elf, u: nat, name: Bytes)
    requires x.Sized()
  {
    && 1 <= u < |x.symbols| && x.labels[u] == name
    && forall k :: 1 <= k < u ==> x.labels[k] != name && !Extends(name, x.labels[k])
  }

  lemma ObjectFound(x: Elf, u: nat, name: Bytes, list: seq<Symbol>)
    requires x.Sized() && NamedBy(x, u, name) && Listed(x, list) && |list| == |x.symbols| - 1
    ensures FindObject(list, name, 0) == u - 1
  {
    hide FindObject;
    hide Extends;
    assert list[u - 1].name == name;
    forall j | 0 <= j < u - 1
      ensures list[j].name != name && !Extends(name, list[j].name)
    {
      assert list[j] == x.Known(j + 1);
    }
    ObjectFoundIff(list, name, u - 1);
  }

  /** The contents of the object: zeros for one in .bss, else as many bytes as both its symbol, if
      that has a size, and the definition give it. */
  predicate ContentStands(file: Bytes, x: Elf, u: nat, objectSize: nat, content: Bytes)
    requires x.Sized() && u < |x.symbols|
  {
    var s := x.symbols[u];
    && s.shndx < |x.sections| && x.sections[s.shndx].name != 0 && |content| < TWO_31
    && if x.names[s.shndx] == BSS then |content| == s.size && (forall i :: 0 <= i < |content| ==> content[i] == 0)
       else
         && Holds(file, x.sections[s.shndx].offset + s.value, content)
         && (if s.size == 0 then |content| == objectSize
             else |content| <= s.size && |content| <= objectSize && |content| in {s.size as int, objectSize as int})
  }

  lemma ContentRead(file: Bytes, x: Elf, u: nat, def: Def, content: Bytes)
    requires x.Sized() && |file| < TWO_31 && u < |x.symbols|
    requires ContentStands(file, x, u, def.objectSize, content)
    ensures ContentsOf(ScanOfAll(x), def, x.Known(u)).Ok?
    ensures var c := ContentsOf(ScanOfAll(x), def, x.Known(u)).value;
            c.size == |content| && Payload(file, c) == content
  {
    var s, scan := x.Known(u), ScanOfAll(x);
    assert scan.sections[s.shndx] == x.Seen(s.shndx);
    SmallIsSame(x.sections[s.shndx].offset + s.value);
    hide ScanOf;
    hide ToInt32;
    hide ToInt64;
    var c := ContentsOf(scan, def, s).value;
    if !c.zeros {
      PayloadIsRead(file, c);
    }
  }

  // ------------------------------------------------------------------ the table file

  /** A table file: CFE_FS_Header_t, CFE_TBL_File_Hdr_t and the contents. */
  predicate IsTableFile(out: Bytes, o: Settings, table: Bytes, description: Bytes, content: Bytes)
    requires |table| <= 40 && |description| <= 32
  {
    && |out| == 116 + |content|
    && Word(out, 0) == 0x6346_4531 && Word(out, 1) == 8 && Word(out, 2) == 64
    && Word(out, 3) == o.spacecraft && Word(out, 4) == o.processor && Word(out, 5) == o.application
    && Word(out, 6) == o.time && Word(out, 7) == 0
    && out[32..64] == description + Zeros(32 - |description|)
    && Word(out, 16) == 0 && Word(out, 17) == 0 && Word(out, 18) == |content|
    && out[76..116] == table + Zeros(40 - |table|)
    && out[116..] == content
  }

  lemma WordIn(a: Bytes, b: Bytes, k: nat)
    requires 4 * k + 4 <= |a|
    ensures Word(a + b, k) == Word(a, k)
  {
    assert (a + b)[4 * k..4 * k + 4] == a[4 * k..4 * k + 4];
  }

  lemma OutputIs(file: Bytes, o: Settings, def: Def, c: Contents, content: Bytes)
    requires |DescriptionOf(o, def)| < 32 && |NameOf(o, def)| < 40
    requires c.size == |content| < TWO_31 && Payload(file, c) == content
    ensures IsTableFile(Output(file, o, def, c), o, NameOf(o, def), DescriptionOf(o, def), content)
  {
    hide Word;
    hide FileHeader;
    hide TableHeader;
    FileHeaderWords(o, def);
    OutputShape(file, o, def, c);
    hide Payload;
    var head, out := FileHeader(o, def), Output(file, o, def, c);
    hide Output;
    var rest := out[64..];
    assert out == head + rest;
    WordIn(head, rest, 0);
    WordIn(head, rest, 1);
    WordIn(head, rest, 2);
    WordIn(head, rest, 3);
    WordIn(head, rest, 4);
    WordIn(head, rest, 5);
    WordIn(head, rest, 6);
    WordIn(head, rest, 7);
    assert out[32..64] == head[32..];
  }

  lemma Bounds(file: Bytes, x: Elf, d: nat, u: nat, f: FileDef, name: Bytes, table: Bytes, description: Bytes,
               content: Bytes)
    requires x.Sized() && HeaderStands(file, x) && DefinedBy(x, d) && NamedBy(x, u, name)
    requires DefStands(file, x, d, f, name, table, description) && ContentStands(file, x, u, f.objectSize, content)
    ensures |file| < TWO_31 && |table| < 40 && |description| < 32 && |content| < TWO_31
  {
    hide Holds;
    hide Image;
    hide InRange;
    hide Ident;
    hide KnownMachine;
    hide Defines;
    hide Extends;
  }

  lemma Within(x: Elf, d: nat, u: nat, name: Bytes)
    requires x.Sized() && DefinedBy(x, d) && NamedBy(x, u, name)
    ensures 1 <= d < |x.symbols| && 1 <= u < |x.symbols|
  {}

  lemma ListedAt(x: Elf, list: seq<Symbol>, k: nat)
    requires x.Sized() && Listed(x, list) && 1 <= k <= |list|
    ensures list[k - 1] == x.Known(k)
  {}

  /** Every ELF object in a file, of either word size and byte order, whose table definition and
      object stand where their symbols say: the tool writes the table file with that object as its
      contents and the names of the definition, unless the command line gives others. */
  lemma ObjectIsConverted(
    file: Bytes, o: Settings, x: Elf, y: nat, t: nat, d: nat, u: nat, f: FileDef,
    name: Bytes, table: Bytes, description: Bytes, content: Bytes)
    requires o.Valid() && x.Sized() && HeaderStands(file, x) && SectionsStand(file, x)
    requires SymbolsStand(file, x, y, t)
    requires DefinedBy(x, d) && DefStands(file, x, d, f, name, table, description)
    requires NamedBy(x, u, name) && ContentStands(file, x, u, f.objectSize, content)
    ensures TableFile(file, o).Ok? && |table| < 40 && |description| < 32
    ensures IsTableFile(
              TableFile(file, o).value, o, if o.tableName.Some? then o.tableName.value else table,
              if o.description.Some? then o.description.value else description, content)
  {
    hide HeaderStands;
    hide SectionsStand;
    hide SymbolsStand;
    hide DefinedBy;
    hide DefStands;
    hide NamedBy;
    hide ContentStands;
    hide Listed;
    hide ReadHeader;
    hide ReadSections;
    hide ReadSymbols;
    hide ReadDef;
    hide FindObject;
    hide ContentsOf;
    hide ScanOfAll;
    hide IsTableFile;
    hide Output;
    hide Payload;
    Bounds(file, x, d, u, f, name, table, description, content);
    Within(x, d, u, name);
    HeaderFound(file, x);
    AllSectionsFound(file, x, y, t);
    AllSymbolsFound(file, x, y, t, d);
    var scan, def := ScanOfAll(x), Def(name, table, description, f.objectSize);
    var syms := ReadSymbols(file, x.Head(), scan).value;
    DefinitionRead(file, x, d, f, name, table, description);
    ListedAt(x, syms.list, d);
    ListedAt(x, syms.list, u);
    ObjectFound(x, u, name, syms.list);
    ContentRead(file, x, u, def, content);
    OutputIs(file, o, def, ContentsOf(scan, def, x.Known(u)).value, content);
  }

  // ------------------------------------------------------------------ objects that are rejected

  /** No string table but that of the section names: there is nothing to name the symbols with. */
  lemma NoStringsFails(file: Bytes, o: Settings, x: Elf)
    requires o.Valid() && x.Sized() && HeaderStands(file, x) && SectionsStand(file, x)
    requires NonePreferred(x.SeenAll(|x.sections|)) && NoOther(x.Head(), x.SeenAll(|x.sections|))
    ensures TableFile(file, o).Failed?
  {
    HeaderSmall(file, x);
    hide HeaderStands;
    hide SectionsStand;
    hide SectionAt;
    hide ScanSections;
    hide ReadHeader;
    hide FromSymbols;
    hide ToInt64;
    hide ScanOf;
    HeaderFound(file, x);
    NamesFound(file, x);
    SectionsFound(file, x, |x.sections|);
    ScanIsFold(file, x.Head(), x.NamesAt(), |x.sections|);
    NoStrings(x.Head(), x.SeenAll(|x.sections|));
  }

  lemma HeaderSmall(file: Bytes, x: Elf)
    requires x.Sized() && HeaderStands(file, x)
    ensures |file| < TWO_31
  {
    hide Image;
    hide InRange;
    hide Ident;
    hide KnownMachine;
  }

  predicate NoneDefines(x: Elf)
    requires x.Sized()
  {
    forall k :: 1 <= k < |x.symbols| ==> !Defines(x.labels[k])
  }

  lemma {:induction false} DefNotFound(file: Bytes, x: Elf, n: nat)
    requires x.Sized() && NoneDefines(x) && n < |x.symbols|
    requires ScanSymbols(file, x.Head(), ScanOfAll(x), n).Ok?
    requires Listed(x, ScanSymbols(file, x.Head(), ScanOfAll(x), n).value.list)
    ensures ScanSymbols(file, x.Head(), ScanOfAll(x), n).value.def == -1
    decreases n
  {
    hide SymbolAt;
    hide ScanOfAll;
    hide Defines;
    hide NamesTblDef;
    if n > 0 {
      var list := ScanSymbols(file, x.Head(), ScanOfAll(x), n).value.list;
      assert list[n - 1] == x.Known(n);
      DefinesIs(x.labels[n]);
      var before := ScanSymbols(file, x.Head(), ScanOfAll(x), n - 1).value.list;
      assert before == list[..n - 1];
      DefNotFound(file, x, n - 1);
    }
  }

  lemma SymbolsUndefined(file: Bytes, h: Header, scan: Scan)
    requires 0 < scan.count < TWO_31 && ScanSymbols(file, h, scan, scan.count).Ok?
    requires ScanSymbols(file, h, scan, scan.count).value.def == -1
    ensures ReadSymbols(file, h, scan).Failed?
  {
    hide ScanSymbols;
  }

  lemma NoDefinitionFound(file: Bytes, x: Elf, y: nat, t: nat)
    requires x.Sized() && |file| < TWO_31 && SymbolsStand(file, x, y, t) && NoneDefines(x)
    ensures ReadSymbols(file, x.Head(), ScanOfAll(x)).Failed?
  {
    hide SymbolsStand;
    hide NoneDefines;
    hide Listed;
    hide ScanSymbols;
    hide ReadSymbols;
    hide ScanOfAll;
    Counted(file, x, y, t);
    SymbolsFound(file, x, y, t, |x.symbols| - 1);
    DefNotFound(file, x, |x.symbols| - 1);
    SymbolsUndefined(file, x.Head(), ScanOfAll(x));
  }

  /** No symbol names a table definition. */
  lemma NoDefinitionFails(file: Bytes, o: Settings, x: Elf, y: nat, t: nat)
    requires o.Valid() && x.Sized() && HeaderStands(file, x) && SectionsStand(file, x)
    requires SymbolsStand(file, x, y, t) && NoneDefines(x)
    ensures TableFile(file, o).Failed?
  {
    HeaderSmall(file, x);
    hide HeaderStands;
    hide SectionsStand;
    hide SymbolsStand;
    hide NoneDefines;
    hide ReadSymbols;
    hide ScanOfAll;
    hide ReadHeader;
    hide ReadSections;
    HeaderFound(file, x);
    AllSectionsFound(file, x, y, t);
    NoDefinitionFound(file, x, y, t);
  }

  /** The definition's symbol has a size, and it is not that of the structure. */
  lemma WrongDefinitionFails(file: Bytes, o: Settings, x: Elf, y: nat, t: nat, d: nat)
    requires o.Valid() && x.Sized() && HeaderStands(file, x) && SectionsStand(file, x)
    requires SymbolsStand(file, x, y, t) && DefinedBy(x, d) && x.symbols[d].size !in {0, 160}
    ensures TableFile(file, o).Failed?
  {
    HeaderSmall(file, x);
    hide HeaderStands;
    hide SectionsStand;
    hide SymbolsStand;
    hide Listed;
    hide Defines;
    hide ScanOfAll;
    hide ReadHeader;
    hide ReadSections;
    hide ReadSymbols;
    HeaderFound(file, x);
    AllSectionsFound(file, x, y, t);
    AllSymbolsFound(file, x, y, t, d);
    ListedAt(x, ReadSymbols(file, x.Head(), ScanOfAll(x)).value.list, d);
  }

  /** No symbol has the name the definition gives, or that name and one character more. */
  lemma NoObjectFails(
    file: Bytes, o: Settings, x: Elf, y: nat, t: nat, d: nat, f: FileDef, name: Bytes, table: Bytes, description: Bytes)
    requires o.Valid() && x.Sized() && HeaderStands(file, x) && SectionsStand(file, x)
    requires SymbolsStand(file, x, y, t)
    requires DefinedBy(x, d) && DefStands(file, x, d, f, name, table, description)
    requires forall k :: 1 <= k < |x.symbols| ==> x.labels[k] != name && !Extends(name, x.labels[k])
    ensures TableFile(file, o).Failed?
  {
    HeaderSmall(file, x);
    TextsFit(file, x, d, f, name, table, description);
    hide HeaderStands;
    hide SectionsStand;
    hide SymbolsStand;
    hide DefStands;
    hide Defines;
    hide ScanOfAll;
    hide ReadHeader;
    hide ReadSections;
    hide ReadSymbols;
    hide ReadDef;
    hide Extends;
    hide Matches;
    HeaderFound(file, x);
    AllSectionsFound(file, x, y, t);
    AllSymbolsFound(file, x, y, t, d);
    var list := ReadSymbols(file, x.Head(), ScanOfAll(x)).value.list;
    ListedAt(x, list, d);
    DefinitionRead(file, x, d, f, name, table, description);
    var k := FindObject(list, name, 0);
    if k < |list| {
      ListedAt(x, list, k + 1);
      MatchesCases(name, list[k].name);
    }
    hide FindObject;
  }

  lemma TextsFit(file: Bytes, x: Elf, d: nat, f: FileDef, name: Bytes, table: Bytes, description: Bytes)
    requires x.Sized() && d < |x.symbols| && DefStands(file, x, d, f, name, table, description)
    ensures |table| < 40 && |description| < 32
  {
    hide Holds;
  }

  // ------------------------------------------------------------------ names

  function Ascii(s: string): (b: seq<int>)
    ensures |b| == |s| && forall i :: 0 <= i < |s| ==> b[i] == s[i] as int
  {
    seq(|s|, i requires 0 <= i < |s| => s[i] as int)
  }

  /** The names and section types the tool looks for. */
  lemma Names()
    ensures TBL_DEF_SYMBOL_NAME == Ascii("CFE_TBL_FileDef") && STRTAB == Ascii(".strtab") && BSS == Ascii(".bss")
    ensures SHT_SYMTAB == 2 && SHT_STRTAB == 3
  {}
}
