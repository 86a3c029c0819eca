/** What elf2cfetbl.c makes of an ELF file, with no mention of the machine it runs on: every field
    is decoded in the byte order the file declares. */
module ElfSpec {
  import opened Bytes
  import opened ElfBytes
  import opened Wrappers

  /** Undefined: the C code would then write past a buffer, read memory it never set, or overflow
      an int. */
  datatype Checked<+T> = Ok(value: T) | Failed | Undefined

  const TWO_31: int := 0x8000_0000
  const TWO_63: int := 0x8000_0000_0000_0000
  const TWO_64: int := 0x1_0000_0000_0000_0000

  /** Conversions to int32_t and int64_t. */
  function ToInt32(v: int): int {
    if v % TWO_32 < TWO_31 then v % TWO_32 else v % TWO_32 - TWO_32
  }

  function ToInt64(v: int): int {
    if v % TWO_64 < TWO_63 then v % TWO_64 else v % TWO_64 - TWO_64
  }

  // ------------------------------------------------------------------ reading the file

  /** fseek and fread of a whole record. */
  function ReadAt(file: Bytes, at: int, n: nat): (r: Checked<Bytes>)
    ensures r.Ok? ==> |r.value| == n
  {
    if 0 <= at && at + n <= |file| then Ok(file[at..at + n]) else Failed
  }

  /** The local buffer names are read into. */
  const NAME_BUFFER: nat := 60

  /** How many characters precede the terminator, n having been read already.  At the end of the
      file fgetc goes on delivering 0xFF. */
  function NameLength(file: Bytes, at: nat, n: nat): (r: Checked<nat>)
    requires n <= NAME_BUFFER
    ensures r.Ok? ==> n <= r.value < NAME_BUFFER && at + r.value < |file|
    decreases NAME_BUFFER - n
  {
    if n == NAME_BUFFER || at + n >= |file| then Undefined
    else if file[at + n] == 0 then Ok(n)
    else NameLength(file, at, n + 1)
  }

  /** A name at a position; when the position is negative the seek fails unnoticed and the name is
      read from where the file stands. */
  function NameAt(file: Bytes, at: int, after: nat): Checked<Bytes> {
    var start := if at < 0 then after else at;
    match NameLength(file, start, 0)
    case Ok(n) => Ok(file[start..start + n])
    case Failed => Failed
    case Undefined => Undefined
  }

  function FieldOf(order: Order, m: Bytes, f: Field): nat
    requires Inside(f, m)
  {
    Decode(order, Slice(m, f))
  }

  // ------------------------------------------------------------------ the ELF header

  datatype Header = Header(word32: bool, order: Order, shoff: nat, shentsize: nat, shnum: nat, shstrndx: nat)

  const E_TYPE := Field(16, 2)
  const E_MACHINE := Field(18, 2)
  const E_VERSION := Field(20, 4)

  function EShoff(word32: bool): Field { if word32 then Field(32, 4) else Field(40, 8) }
  function EShentsize(word32: bool): Field { if word32 then Field(46, 2) else Field(58, 2) }
  function EShnum(word32: bool): Field { if word32 then Field(48, 2) else Field(60, 2) }
  function EShstrndx(word32: bool): Field { if word32 then Field(50, 2) else Field(62, 2) }

  /** The values of e_machine_Map. */
  predicate KnownMachine(v: nat) {
    || v <= 5 || 7 <= v <= 10 || v == 15 || 17 <= v <= 23 || 36 <= v <= 120 || 131 <= v <= 144
    || 160 <= v <= 171 || 173 <= v <= 181 || v == 183 || 185 <= v <= 224 || v == 243
  }

  predicate KnownType(v: nat) { v <= 4 }

  const ELF_MAGIC: Bytes := [0x7F, 0x45, 0x4C, 0x46]

  predicate GoodIdent(file: Bytes) {
    && |file| >= 16
    && file[..4] == ELF_MAGIC
    && file[4] in {1, 2}
    && file[5] in {1, 2}
    && file[6] == 1
  }

  /** The header of a file of the given word size and order, its fields read in the order of the
      reader. */
  function HeaderIn(word32: bool, order: Order, reader: Order, m: Bytes): Checked<Header>
    requires |m| == HeaderSize(word32)
  {
    if KnownType(FieldOf(reader, m, E_TYPE)) && KnownMachine(FieldOf(reader, m, E_MACHINE)) &&
       FieldOf(reader, m, E_VERSION) == 1
    then Ok(Header(word32, order, FieldOf(reader, m, EShoff(word32)), FieldOf(reader, m, EShentsize(word32)),
                   FieldOf(reader, m, EShnum(word32)), FieldOf(reader, m, EShstrndx(word32))))
    else Failed
  }

  function ReadHeader(file: Bytes): Checked<Header> {
    if !GoodIdent(file) then Failed
    else
      var word32 := file[4] == 1;
      var order := if file[5] == 1 then Little else Big;
      match ReadAt(file, 0, HeaderSize(word32))
      case Ok(m) => HeaderIn(word32, order, order, m)
      case Failed => Failed
      case Undefined => Undefined
  }

  // ------------------------------------------------------------------ section headers

  /** A section header; the name is missing when the tool left the name's memory as it was. */
  datatype Section = Section(typ: nat, offset: nat, size: nat, entsize: nat, name: Option<Bytes>)

  const SH_NAME := Field(0, 4)
  const SH_TYPE := Field(4, 4)

  function ShOffset(word32: bool): Field { if word32 then Field(16, 4) else Field(24, 8) }
  function ShSize(word32: bool): Field { if word32 then Field(20, 4) else Field(32, 8) }
  function ShEntsize(word32: bool): Field { if word32 then Field(36, 4) else Field(56, 8) }

  const SHT_SYMTAB: nat := 2
  const SHT_STRTAB: nat := 3

  /** ".strtab" and ".bss" */
  const STRTAB: Bytes := [0x2E, 0x73, 0x74, 0x72, 0x74, 0x61, 0x62]
  const BSS: Bytes := [0x2E, 0x62, 0x73, 0x73]

  function SectionIn(word32: bool, reader: Order, m: Bytes, name: Option<Bytes>): (s: Section)
    requires |m| == SectionSize(word32)
    ensures s.name == name
  {
    Section(FieldOf(reader, m, SH_TYPE), FieldOf(reader, m, ShOffset(word32)), FieldOf(reader, m, ShSize(word32)),
            FieldOf(reader, m, ShEntsize(word32)), name)
  }

  /** Where section header i stands, SectionIndex * Shentsize being an int. */
  function SectionPlace(h: Header, i: nat): int { ToInt64(h.shoff) + i * h.shentsize }

  /** GetSectionHeader; names is where the section names start, 0 while that is not known. */
  function SectionAt(file: Bytes, h: Header, names: int, i: nat): Checked<Section> {
    if i * h.shentsize >= TWO_31 then Undefined
    else
      match ReadAt(file, SectionPlace(h, i), SectionSize(h.word32))
      case Ok(m) =>
        var nameIndex := FieldOf(h.order, m, SH_NAME);
        if names == 0 || nameIndex == 0 then Ok(SectionIn(h.word32, h.order, m, None))
        else
          (match NameAt(file, ToInt64(names + nameIndex), SectionPlace(h, i) + SectionSize(h.word32))
           case Ok(text) => Ok(SectionIn(h.word32, h.order, m, Some(text)))
           case Failed => Failed
           case Undefined => Undefined)
      case Failed => Failed
      case Undefined => Undefined
  }

  /** What the section headers read so far have set: the headers, StringTableDataOffset,
      SymbolTableDataOffset, SymbolTableEntrySize and NumSymbols. */
  datatype Scan = Scan(sections: seq<Section>, strings: nat, symbols: int, entsize: nat, count: nat)

  const NO_SCAN := Scan([], 0, 0, 0, 0)

  function CountSymbols(s: Section): nat {
    if s.entsize == 0 then 0 else (s.size / s.entsize - 1) % TWO_64
  }

  function Note(scan: Scan, h: Header, s: Section): Scan {
    var next := scan.(sections := scan.sections + [s]);
    if s.name.None? then next
    else if s.typ == SHT_SYMTAB then
      next.(symbols := ToInt32(s.offset + SymbolSize(h.word32)), entsize := s.entsize, count := CountSymbols(s))
    else if s.typ == SHT_STRTAB &&
            (s.name.value == STRTAB || (scan.strings == 0 && |scan.sections| != h.shstrndx)) then
      next.(strings := s.offset)
    else next
  }

  /** The scan of section headers 0 to n - 1. */
  function ScanSections(file: Bytes, h: Header, names: int, n: nat): (r: Checked<Scan>)
    ensures r.Ok? ==> |r.value.sections| == n
  {
    if n == 0 then Ok(NO_SCAN)
    else
      match ScanSections(file, h, names, n - 1)
      case Ok(scan) =>
        (match SectionAt(file, h, names, n - 1)
         case Ok(s) => Ok(Note(scan, h, s))
         case Failed => Failed
         case Undefined => Undefined)
      case Failed => Failed
      case Undefined => Undefined
  }

  /** main up to the symbols: the names' section first, then every section. */
  function ReadSections(file: Bytes, h: Header): Checked<Scan> {
    match SectionAt(file, h, 0, h.shstrndx)
    case Ok(s) =>
      if h.shnum == 0 then Failed
      else
        (match ScanSections(file, h, ToInt64(s.offset), h.shnum)
         case Ok(scan) => if scan.strings == 0 then Failed else Ok(scan)
         case Failed => Failed
         case Undefined => Undefined)
    case Failed => Failed
    case Undefined => Undefined
  }

  // ------------------------------------------------------------------ symbols

  datatype Symbol = Symbol(value: nat, size: nat, shndx: nat, name: Bytes)

  const ST_NAME := Field(0, 4)

  function StValue(word32: bool): Field { if word32 then Field(4, 4) else Field(8, 8) }
  function StSize(word32: bool): Field { if word32 then Field(8, 4) else Field(16, 8) }
  function StShndx(word32: bool): Field { if word32 then Field(14, 2) else Field(6, 2) }

  /** "CFE_TBL_FileDef" */
  const TBL_DEF_SYMBOL_NAME: Bytes :=
    [0x43, 0x46, 0x45, 0x5F, 0x54, 0x42, 0x4C, 0x5F, 0x46, 0x69, 0x6C, 0x65, 0x44, 0x65, 0x66]

  /** The name itself, or the name behind one more character. */
  predicate NamesTblDef(name: Bytes) {
    name == TBL_DEF_SYMBOL_NAME || (name != [] && name[1..] == TBL_DEF_SYMBOL_NAME)
  }

  function SymbolIn(word32: bool, reader: Order, m: Bytes, name: Bytes): (s: Symbol)
    requires |m| == SymbolSize(word32)
    ensures s.name == name
  {
    Symbol(FieldOf(reader, m, StValue(word32)), FieldOf(reader, m, StSize(word32)),
           FieldOf(reader, m, StShndx(word32)), name)
  }

  /** calculated_offset, in 64 bits. */
  function SymbolPlace(scan: Scan, i: nat): nat { (scan.symbols + i * scan.entsize) % TWO_64 }

  /** GetSymbol. */
  function SymbolAt(file: Bytes, h: Header, scan: Scan, i: nat): Checked<Symbol> {
    var at := SymbolPlace(scan, i);
    if at >= TWO_31 then Failed
    else
      match ReadAt(file, at, SymbolSize(h.word32))
      case Ok(m) =>
        (match NameAt(file, ToInt32(scan.strings + FieldOf(h.order, m, ST_NAME)), at + SymbolSize(h.word32))
         case Ok(text) => Ok(SymbolIn(h.word32, h.order, m, text))
         case Failed => Failed
         case Undefined => Undefined)
      case Failed => Failed
      case Undefined => Undefined
  }

  /** The symbols read so far and the last of them that names the table definition, or -1. */
  datatype Symbols = Symbols(list: seq<Symbol>, def: int)

  function NoteSymbol(table: Symbols, s: Symbol): Symbols {
    Symbols(table.list + [s], if NamesTblDef(s.name) then |table.list| else table.def)
  }

  function ScanSymbols(file: Bytes, h: Header, scan: Scan, n: nat): (r: Checked<Symbols>)
    ensures r.Ok? ==> |r.value.list| == n && -1 <= r.value.def < n
  {
    if n == 0 then Ok(Symbols([], -1))
    else
      match ScanSymbols(file, h, scan, n - 1)
      case Ok(table) =>
        (match SymbolAt(file, h, scan, n - 1)
         case Ok(s) => Ok(NoteSymbol(table, s))
         case Failed => Failed
         case Undefined => Undefined)
      case Failed => Failed
      case Undefined => Undefined
  }

  /** AllocateSymbols and the loop of main over the symbols. */
  function ReadSymbols(file: Bytes, h: Header, scan: Scan): (r: Checked<Symbols>)
    ensures r.Ok? ==> 0 <= r.value.def < |r.value.list|
  {
    if scan.count == 0 then Failed
    else if scan.count >= TWO_31 then Undefined
    else
      match ScanSymbols(file, h, scan, scan.count)
      case Ok(table) => if table.def == -1 then Failed else Ok(table)
      case Failed => Failed
      case Undefined => Undefined
  }

  // ------------------------------------------------------------------ the table definition

  /** CFE_TBL_FileDef_t without the target file name. */
  datatype Def = Def(objectName: Bytes, tableName: Bytes, description: Bytes, objectSize: nat)

  const DEF_SIZE: nat := 160
  const DEF_OBJECT_SIZE := Field(156, 4)

  /** A C string: the bytes before the first 0. */
  function TextOf(b: Bytes): (t: Bytes)
    ensures |t| <= |b|
  {
    if b == [] || b[0] == 0 then [] else [b[0]] + TextOf(b[1..])
  }

  /** The last byte of each text is set to 0. */
  function DefIn(reader: Order, m: Bytes): (d: Def)
    requires |m| == DEF_SIZE
    ensures |d.tableName| < 40 && |d.description| < 32
  {
    Def(TextOf(m[..63]), TextOf(m[64..103]), TextOf(m[104..135]), FieldOf(reader, m, DEF_OBJECT_SIZE))
  }

  /** The file offset of a symbol's data, in 64 bits. */
  function DataPlace(scan: Scan, s: Symbol): nat
    requires s.shndx < |scan.sections|
  {
    (scan.sections[s.shndx].offset + s.value) % TWO_64
  }

  /** GetTblDefInfo. */
  function ReadDef(file: Bytes, h: Header, scan: Scan, s: Symbol): (r: Checked<Def>)
    ensures r.Ok? ==> |r.value.tableName| < 40 && |r.value.description| < 32
  {
    if s.size != DEF_SIZE && s.size != 0 then Failed
    else if s.shndx >= |scan.sections| then Undefined
    else if DataPlace(scan, s) >= TWO_32 then Failed
    else
      match ReadAt(file, DataPlace(scan, s), DEF_SIZE)
      case Ok(m) => Ok(DefIn(h.order, m))
      case Failed => Failed
      case Undefined => Undefined
  }

  // ------------------------------------------------------------------ the user's object

  /** The test of LocateAndReadUserObject: the object's name, or the name and one more character.
      The character it tests for being printable is the terminator, which never is. */
  predicate Matches(wanted: Bytes, name: Bytes) {
    wanted <= name && |name| - |wanted| <= 1
  }

  function FindObject(list: seq<Symbol>, wanted: Bytes, i: nat): (k: nat)
    requires i <= |list|
    ensures i <= k <= |list|
    ensures forall j :: i <= j < k ==> !Matches(wanted, list[j].name)
    ensures k < |list| ==> Matches(wanted, list[k].name)
    decreases |list| - i
  {
    if i == |list| || Matches(wanted, list[i].name) then i else FindObject(list, wanted, i + 1)
  }

  /** Where the contents of the table come from. */
  datatype Contents = Contents(zeros: bool, at: nat, size: nat)

  function AssumedSize(st_size: nat, objectSize: nat): nat {
    if st_size == 0 || objectSize < st_size then objectSize else st_size
  }

  function ContentsOf(scan: Scan, def: Def, s: Symbol): Checked<Contents> {
    if s.shndx >= |scan.sections| || scan.sections[s.shndx].name.None? then Undefined
    else if scan.sections[s.shndx].name.value == BSS then
      if s.size >= TWO_31 then Undefined else Ok(Contents(true, 0, s.size))
    else if DataPlace(scan, s) >= TWO_32 then Failed
    else
      var size := AssumedSize(s.size, def.objectSize);
      if size >= TWO_31 then Undefined else Ok(Contents(false, DataPlace(scan, s), size))
  }

  /** LocateAndReadUserObject. */
  function LocateObject(scan: Scan, table: Symbols, def: Def): Checked<Contents> {
    var i := FindObject(table.list, def.objectName, 0);
    if i == |table.list| then Failed else ContentsOf(scan, def, table.list[i])
  }

  /** fgetc beyond the end of the file, cut to a byte, is 0xFF. */
  function ByteAt(file: Bytes, i: nat): Byte { if i < |file| then file[i] else 0xFF }

  function ContentByte(file: Bytes, c: Contents, i: nat): Byte { if c.zeros then 0 else ByteAt(file, c.at + i) }

  function Payload(file: Bytes, c: Contents): (p: Bytes)
    ensures |p| == c.size
    ensures forall i :: 0 <= i < c.size ==> p[i] == ContentByte(file, c, i)
  {
    seq(c.size, i requires i >= 0 => ContentByte(file, c, i))
  }

  // ------------------------------------------------------------------ the table file

  type Uint32 = x: int | 0 <= x < 0x1_0000_0000

  /** The command line: identifiers and time are 0 unless given. */
  datatype Settings = Settings(spacecraft: Uint32, processor: Uint32, application: Uint32, time: Uint32,
                              tableName: Option<Bytes>, description: Option<Bytes>)
  {
    predicate Valid() {
      && (tableName.Some? ==> |tableName.value| < 38)
      && (description.Some? ==> |description.value| < 32)
    }
  }

  function Padded(text: Bytes, n: nat): (p: Bytes)
    requires |text| <= n
    ensures |p| == n
  {
    text + Zeros(n - |text|)
  }

  function NameOf(o: Settings, def: Def): Bytes { if o.tableName.Some? then o.tableName.value else def.tableName }

  function DescriptionOf(o: Settings, def: Def): Bytes {
    if o.description.Some? then o.description.value else def.description
  }

  /** "cFE1" */
  const CONTENT_TYPE: Uint32 := 0x6346_4531
  const TBL_IMG: Uint32 := 8
  const FS_HEADER_SIZE: nat := 64
  const TBL_HEADER_SIZE: nat := 52

  /** CFE_FS_Header_t as it stands in the file. */
  function FileHeader(o: Settings, def: Def): (b: Bytes)
    requires |DescriptionOf(o, def)| < 32
    ensures |b| == FS_HEADER_SIZE
  {
    BE(CONTENT_TYPE, 4) + BE(TBL_IMG, 4) + BE(FS_HEADER_SIZE, 4) + BE(o.spacecraft, 4) + BE(o.processor, 4) +
    BE(o.application, 4) + BE(o.time, 4) + BE(0, 4) + Padded(DescriptionOf(o, def), 32)
  }

  /** CFE_TBL_File_Hdr_t as it stands in the file. */
  function TableHeader(o: Settings, def: Def, size: nat): (b: Bytes)
    requires |NameOf(o, def)| < 40
    ensures |b| == TBL_HEADER_SIZE
  {
    BE(0, 4) + BE(0, 4) + BE(size, 4) + Padded(NameOf(o, def), 40)
  }

  function Output(file: Bytes, o: Settings, def: Def, c: Contents): Bytes
    requires |DescriptionOf(o, def)| < 32 && |NameOf(o, def)| < 40
  {
    FileHeader(o, def) + TableHeader(o, def, c.size) + Payload(file, c)
  }

  /** From the definition of the table to the file. */
  function Finish(file: Bytes, o: Settings, scan: Scan, table: Symbols, def: Def): Checked<Bytes>
    requires o.Valid() && |def.tableName| < 40 && |def.description| < 32
  {
    match LocateObject(scan, table, def)
    case Ok(c) => Ok(Output(file, o, def, c))
    case Failed => Failed
    case Undefined => Undefined
  }

  function FromSymbols(file: Bytes, o: Settings, h: Header, scan: Scan): Checked<Bytes>
    requires o.Valid()
  {
    match ReadSymbols(file, h, scan)
    case Ok(table) =>
      (match ReadDef(file, h, scan, table.list[table.def])
       case Ok(def) => Finish(file, o, scan, table, def)
       case Failed => Failed
       case Undefined => Undefined)
    case Failed => Failed
    case Undefined => Undefined
  }

  /** The table file that elf2cfetbl makes of an ELF file. */
  function TableFile(file: Bytes, o: Settings): Checked<Bytes>
    requires o.Valid()
  {
    match ReadHeader(file)
    case Ok(h) =>
      (match ReadSections(file, h)
       case Ok(scan) => FromSymbols(file, o, h, scan)
       case Failed => Failed
       case Undefined => Undefined)
    case Failed => Failed
    case Undefined => Undefined
  }
}
