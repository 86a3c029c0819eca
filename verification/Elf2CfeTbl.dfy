/** elf2cfetbl.c itself: its global variables, its position in the source file, and the machine it
    runs on.  Every step is proved to leave what ElfSpec says, which knows neither the machine nor
    the Verbose switch. */
module Elf2CfeTbl {
  import opened Bytes
  import opened ElfBytes
  import opened ElfHost
  import opened ElfSpec
  import opened Wrappers

  class Tool {
    const host: Order
    const verbose: bool
    const src: Bytes
    const settings: Settings
    var pos: nat
    var byteSwapRequired: bool
    var header: Header
    var sectionNamesOffset: int
    var sections: seq<Section>
    var stringTableDataOffset: nat
    var symbolTableDataOffset: int
    var symbolTableEntrySize: nat
    var numSymbols: nat
    var symbols: seq<Symbol>
    var tblDefSymbolIndex: int
    var def: Def
    var userObjSymbolIndex: nat
    var tableDataIsAllZeros: bool
    var out: Bytes

    constructor (host: Order, verbose: bool, src: Bytes, settings: Settings)
      ensures this.host == host && this.verbose == verbose && this.src == src && this.settings == settings
      ensures pos == 0 && !byteSwapRequired && ScanView() == NO_SCAN && TableView() == Symbols([], -1)
      ensures sectionNamesOffset == 0 && !tableDataIsAllZeros && out == []
    {
      this.host, this.verbose, this.src, this.settings := host, verbose, src, settings;
      pos, byteSwapRequired, header := 0, false, Header(true, Little, 0, 0, 0, 0);
      sectionNamesOffset, sections, stringTableDataOffset := 0, [], 0;
      symbolTableDataOffset, symbolTableEntrySize, numSymbols := 0, 0, 0;
      symbols, tblDefSymbolIndex, def := [], -1, Def([], [], [], 0);
      userObjSymbolIndex, tableDataIsAllZeros, out := 0, false, [];
    }

    ghost function ScanView(): Scan
      reads this
    {
      Scan(sections, stringTableDataOffset, symbolTableDataOffset, symbolTableEntrySize, numSymbols)
    }

    ghost function TableView(): Symbols
      reads this
    {
      Symbols(symbols, tblDefSymbolIndex)
    }

    /** The swap decision matches the header. */
    ghost predicate Ready()
      reads this
    {
      byteSwapRequired == (host != header.order)
    }

    // -------------------------------------------------------------- the C library

    method Fseek(at: int)
      modifies `pos
      ensures pos == if at < 0 then old(pos) else at
    {
      if at >= 0 {
        pos := at;
      }
    }

    method Fgetc() returns (c: Byte)
      modifies `pos
      ensures c == ByteAt(src, old(pos))
      ensures pos == if old(pos) < |src| then old(pos) + 1 else old(pos)
    {
      if pos < |src| {
        c := src[pos];
        pos := pos + 1;
      } else {
        c := 0xFF;
      }
    }

    /** Seeks to a record, copies it into memory and swaps its fields if ByteSwapRequired. */
    method ReadRecord(at: int, n: nat, fields: seq<Field>) returns (r: Checked<Bytes>)
      requires Layout(fields, n)
      modifies `pos
      ensures ReadAt(src, at, n).Ok? ==>
                var m := ReadAt(src, at, n).value;
                && r == Ok(if byteSwapRequired then SwapAll(m, fields) else m)
                && pos == at + n
      ensures !ReadAt(src, at, n).Ok? ==> r == Failed
    {
      Fseek(at);
      if at < 0 || at + n > |src| {
        return Failed;
      }
      var image := new Byte[n];
      for i := 0 to n
        invariant image[..i] == src[at..at + i]
      {
        image[i] := src[at + i];
      }
      assert image[..] == src[at..at + n];
      pos := at + n;
      if byteSwapRequired {
        SwapFields(image, fields);
      }
      r := Ok(image[..]);
    }

    /** Reads a name into a buffer, up to its terminator. */
    method ReadName() returns (r: Checked<Bytes>)
      modifies `pos
      ensures r == NameAt(src, old(pos), 0)
    {
      var verboseStr := new Byte[NAME_BUFFER];
      ghost var start := pos;
      var i := 0;
      var c: Byte := 0xFF;
      while i < NAME_BUFFER && c != 0
        invariant 0 <= i <= NAME_BUFFER
        invariant start <= pos
        invariant c != 0 ==> NameLength(src, start, 0) == NameLength(src, start, i)
        invariant c != 0 ==> pos == start + i || (|src| <= pos <= start + i)
        invariant c != 0 && start + i <= |src| ==> verboseStr[..i] == src[start..start + i]
        invariant c == 0 ==> NameLength(src, start, 0) == Ok(i) && start + i <= |src|
        invariant c == 0 ==> verboseStr[..i] == src[start..start + i]
        decreases NAME_BUFFER - i, c
      {
        c := Fgetc();
        if c != 0 {
          verboseStr[i] := c;
          i := i + 1;
        }
      }
      r := if c == 0 then Ok(verboseStr[..i]) else Undefined;
    }

    // -------------------------------------------------------------- the steps of main

    method GetElfHeader() returns (ok: bool)
      requires pos == 0 && !byteSwapRequired
      modifies `pos, `byteSwapRequired, `header
      ensures ok == ReadHeader(src).Ok?
      ensures ok ==> header == ReadHeader(src).value && Ready()
    {
      if !GoodIdent(src) {
        return false;
      }
      var word32 := src[4] == 1;
      var order := if src[5] == 1 then Little else Big;
      if order != host {
        byteSwapRequired := true;
      }
      HeaderLayout(word32);
      var r := ReadRecord(0, HeaderSize(word32), HeaderFields(word32));
      if r.Failed? {
        return false;
      }
      ghost var m := ReadAt(src, 0, HeaderSize(word32)).value;
      HeaderHostIndependent(host, order, word32, m);
      assert r.value == Loaded(host, order, m, HeaderFields(word32));
      var h := HeaderIn(word32, order, host, r.value);
      ok := h.Ok?;
      if ok {
        header := h.value;
      }
    }

    /** A header of a section; unless it only looks for the names' section, what it says of the
        string and symbol tables is kept. */
    method GetSectionHeader(sectionIndex: nat) returns (r: Checked<Section>)
      requires Ready()
      requires sectionNamesOffset == 0 || sectionIndex == |sections|
      modifies `pos, `stringTableDataOffset, `symbolTableDataOffset, `symbolTableEntrySize, `numSymbols
      ensures r == SectionAt(src, header, sectionNamesOffset, sectionIndex)
      ensures r.Ok? ==>
                ScanView().(sections := sections + [r.value]) ==
                if r.value.name.None? then old(ScanView()).(sections := sections + [r.value])
                else Note(old(ScanView()), header, r.value)
    {
      hide SectionIn;
      hide NameAt;
      hide FieldOf;
      hide Note;
      hide Layout;
      hide SwapAll;
      if sectionIndex * header.shentsize >= TWO_31 {
        return Undefined;
      }
      var word32 := header.word32;
      var seekOffset := ToInt64(header.shoff) + sectionIndex * header.shentsize;
      SectionLayout(word32);
      var read := ReadRecord(seekOffset, SectionSize(word32), SectionFields(word32));
      if read.Failed? {
        return Failed;
      }
      ghost var m := ReadAt(src, seekOffset, SectionSize(word32)).value;
      var image := read.value;
      SectionHostIndependent(host, header.order, word32, m, None);
      assert image == Loaded(host, header.order, m, SectionFields(word32));
      var nameIndex := FieldOf(host, image, SH_NAME);
      if sectionNamesOffset == 0 || nameIndex == 0 {
        return Ok(SectionIn(word32, host, image, None));
      }
      NameAfterSeek(src, ToInt64(sectionNamesOffset + nameIndex), pos);
      Fseek(ToInt64(sectionNamesOffset + nameIndex));
      var text := ReadName();
      if !text.Ok? {
        return if text.Failed? then Failed else Undefined;
      }
      SectionHostIndependent(host, header.order, word32, m, Some(text.value));
      var s := SectionIn(word32, host, image, Some(text.value));
      RecordTables(s);
      r := Ok(s);
    }

    /** The switch of GetSectionHeader over the type of a named section. */
    method RecordTables(s: Section)
      requires s.name.Some?
      modifies `stringTableDataOffset, `symbolTableDataOffset, `symbolTableEntrySize, `numSymbols
      ensures ScanView().(sections := sections + [s]) == Note(old(ScanView()), header, s)
    {
      if s.typ == SHT_SYMTAB {
        symbolTableDataOffset := ToInt32(s.offset + SymbolSize(header.word32));
        symbolTableEntrySize := s.entsize;
        numSymbols := CountSymbols(s);
      } else if s.typ == SHT_STRTAB {
        if s.name.value == STRTAB || (stringTableDataOffset == 0 && |sections| != header.shstrndx) {
          stringTableDataOffset := s.offset;
        }
      }
    }

    method GetSections() returns (r: Checked<Scan>)
      requires Ready() && sectionNamesOffset == 0 && ScanView() == NO_SCAN
      modifies `pos, `sectionNamesOffset, `sections
      modifies `stringTableDataOffset, `symbolTableDataOffset, `symbolTableEntrySize, `numSymbols
      ensures r == ReadSections(src, header)
      ensures r.Ok? ==> ScanView() == r.value
    {
      hide SectionAt;
      var names := GetSectionHeader(header.shstrndx);
      NamelessBefore(src, header, header.shstrndx);
      if !names.Ok? {
        return if names.Failed? then Failed else Undefined;
      }
      sectionNamesOffset := ToInt64(names.value.offset);
      if header.shnum == 0 {
        return Failed;
      }
      var problem := ScanLoop();
      if !problem.Ok? {
        return if problem.Failed? then Failed else Undefined;
      }
      r := if stringTableDataOffset == 0 then Failed
           else Ok(Scan(sections, stringTableDataOffset, symbolTableDataOffset, symbolTableEntrySize, numSymbols));
    }

    method ScanLoop() returns (r: Checked<nat>)
      requires Ready() && ScanView() == NO_SCAN
      modifies `pos, `sections
      modifies `stringTableDataOffset, `symbolTableDataOffset, `symbolTableEntrySize, `numSymbols
      ensures r.Ok? ==> ScanSections(src, header, sectionNamesOffset, header.shnum) == Ok(ScanView())
      ensures r.Failed? ==> ScanSections(src, header, sectionNamesOffset, header.shnum) == Failed
      ensures r.Undefined? ==> ScanSections(src, header, sectionNamesOffset, header.shnum) == Undefined
    {
      hide SectionAt;
      hide Note;
      for i := 0 to header.shnum
        invariant |sections| == i
        invariant ScanSections(src, header, sectionNamesOffset, i) == Ok(ScanView())
      {
        var s := GetSectionHeader(i);
        if !s.Ok? {
          ScanStops(src, header, sectionNamesOffset, i, header.shnum);
          return if s.Failed? then Failed else Undefined;
        }
        NoteUnnamed(old(ScanView()), header, s.value);
        sections := sections + [s.value];
        NoteUnnamed(ScanSections(src, header, sectionNamesOffset, i).value, header, s.value);
      }
      r := Ok(header.shnum);
    }

    /** A symbol, its name, and whether it names the table definition. */
    method GetSymbol(symbolIndex: nat) returns (r: Checked<Symbol>)
      requires Ready() && symbolIndex == |symbols|
      modifies `pos, `symbols, `tblDefSymbolIndex
      ensures r == SymbolAt(src, header, ScanView(), symbolIndex)
      ensures TableView() == if r.Ok? then NoteSymbol(old(TableView()), r.value) else old(TableView())
      ensures r.Ok? ==> |symbols| == old(|symbols|) + 1
    {
      hide SymbolIn;
      hide NameAt;
      hide FieldOf;
      hide Layout;
      hide SwapAll;
      hide ToInt32;
      var word32 := header.word32;
      var seekOffset := (symbolTableDataOffset + symbolIndex * symbolTableEntrySize) % TWO_64;
      assert seekOffset == SymbolPlace(ScanView(), symbolIndex);
      hide SymbolPlace;
      if seekOffset >= TWO_31 {
        return Failed;
      }
      SymbolLayout(word32);
      var read := ReadRecord(seekOffset, SymbolSize(word32), SymbolFields(word32));
      if read.Failed? {
        return Failed;
      }
      ghost var m := ReadAt(src, seekOffset, SymbolSize(word32)).value;
      var image := read.value;
      SymbolHostIndependent(host, header.order, word32, m, []);
      assert image == Loaded(host, header.order, m, SymbolFields(word32));
      var nameOffset := ToInt32(stringTableDataOffset + FieldOf(host, image, ST_NAME));
      NameAfterSeek(src, nameOffset, pos);
      Fseek(nameOffset);
      var text := ReadName();
      if !text.Ok? {
        return if text.Failed? then Failed else Undefined;
      }
      SymbolHostIndependent(host, header.order, word32, m, text.value);
      var s := SymbolIn(word32, host, image, text.value);
      if NamesTblDef(s.name) {
        tblDefSymbolIndex := symbolIndex;
      }
      symbols := symbols + [s];
      r := Ok(s);
    }

    method GetSymbols() returns (r: Checked<nat>)
      requires Ready() && TableView() == Symbols([], -1)
      modifies `pos, `symbols, `tblDefSymbolIndex
      ensures r.Ok? ==> ReadSymbols(src, header, ScanView()) == Ok(TableView()) && 0 <= r.value < |symbols|
                        && r.value == tblDefSymbolIndex
      ensures r.Failed? ==> ReadSymbols(src, header, ScanView()) == Failed
      ensures r.Undefined? ==> ReadSymbols(src, header, ScanView()) == Undefined
    {
      hide SymbolAt;
      hide NoteSymbol;
      if numSymbols == 0 {
        return Failed;
      }
      if numSymbols >= TWO_31 {
        return Undefined;
      }
      ghost var scan := ScanView();
      for i := 0 to numSymbols
        invariant |symbols| == i
        invariant ScanSymbols(src, header, scan, i) == Ok(TableView())
      {
        var s := GetSymbol(i);
        if !s.Ok? {
          SymbolsStop(src, header, scan, i, numSymbols);
          return if s.Failed? then Failed else Undefined;
        }
      }
      r := if tblDefSymbolIndex == -1 then Failed else Ok(tblDefSymbolIndex);
    }

    method GetTblDefInfo() returns (r: Checked<Def>)
      requires Ready() && 0 <= tblDefSymbolIndex < |symbols|
      modifies `pos, `def
      ensures r == ReadDef(src, header, ScanView(), symbols[tblDefSymbolIndex])
      ensures r.Ok? ==> def == r.value
    {
      hide DefIn;
      hide Layout;
      var s := symbols[tblDefSymbolIndex];
      if s.size != DEF_SIZE && s.size != 0 {
        return Failed;
      }
      if s.shndx >= |sections| {
        return Undefined;
      }
      var seekOffset := (sections[s.shndx].offset + s.value) % TWO_64;
      if seekOffset >= TWO_32 {
        return Failed;
      }
      var read := ReadRecord(seekOffset, DEF_SIZE, DEF_FIELDS);
      if read.Failed? {
        return Failed;
      }
      ghost var m := ReadAt(src, seekOffset, DEF_SIZE).value;
      DefHostIndependent(host, header.order, m);
      assert read.value == Loaded(host, header.order, m, DEF_FIELDS);
      def := DefIn(host, read.value);
      r := Ok(def);
    }

    /** The search for the object and the preparation of its size and place.  When Verbose, the data
        are read once and the file is then put back where they start. */
    method LocateAndReadUserObject() returns (r: Checked<Contents>)
      requires !tableDataIsAllZeros
      modifies `pos, `symbols, `userObjSymbolIndex, `tableDataIsAllZeros
      ensures r == LocateObject(ScanView(), old(TableView()), def)
      ensures r.Ok? ==>
                && userObjSymbolIndex < |symbols|
                && tableDataIsAllZeros == r.value.zeros
                && symbols[userObjSymbolIndex].size == r.value.size
                && (r.value.zeros || pos == r.value.at)
    {
      hide Matches;
      var i := 0;
      while i < |symbols| && !Matches(def.objectName, symbols[i].name)
        invariant 0 <= i <= |symbols|
        invariant forall j :: 0 <= j < i ==> !Matches(def.objectName, symbols[j].name)
      {
        i := i + 1;
      }
      FoundFirst(symbols, def.objectName, 0, i);
      if i == |symbols| {
        return Failed;
      }
      userObjSymbolIndex := i;
      r := ReadUserObject();
    }

    /** The listing of the data, which ends where it began. */
    method PrintData(size: nat, seekOffset: nat)
      modifies `pos
      ensures pos == seekOffset
    {
      for k := 0 to size {
        var _ := Fgetc();
      }
      Fseek(seekOffset);
    }

    method ReadUserObject() returns (r: Checked<Contents>)
      requires !tableDataIsAllZeros && userObjSymbolIndex < |symbols|
      modifies `pos, `symbols, `tableDataIsAllZeros
      ensures r == ContentsOf(ScanView(), def, old(symbols[userObjSymbolIndex]))
      ensures |symbols| == old(|symbols|)
      ensures r.Ok? ==>
                && tableDataIsAllZeros == r.value.zeros
                && symbols[userObjSymbolIndex].size == r.value.size
                && (r.value.zeros || pos == r.value.at)
    {
      var s := symbols[userObjSymbolIndex];
      if s.shndx >= |sections| || sections[s.shndx].name.None? {
        return Undefined;
      }
      if sections[s.shndx].name.value == BSS {
        tableDataIsAllZeros := true;
        return if s.size >= TWO_31 then Undefined else Ok(Contents(true, 0, s.size));
      }
      var seekOffset := (sections[s.shndx].offset + s.value) % TWO_64;
      if seekOffset >= TWO_32 {
        return Failed;
      }
      Fseek(seekOffset);
      if s.size != 0 {
        if s.size != def.objectSize {
          if def.objectSize < s.size {
            symbols := symbols[userObjSymbolIndex := s.(size := def.objectSize)];
          }
        }
      } else {
        symbols := symbols[userObjSymbolIndex := s.(size := def.objectSize)];
      }
      var size := symbols[userObjSymbolIndex].size;
      if size >= TWO_31 {
        return Undefined;
      }
      if verbose {
        PrintData(size, seekOffset);
      }
      r := Ok(Contents(false, seekOffset, size));
    }

    /** A header field: set as the host sets it, swapped on a little-endian host, and written. */
    method WriteUInt32(v: nat)
      modifies `out
      ensures out == old(out) + BE(v, 4)
    {
      var stored := Stored(host, v);
      var image := new Byte[4](i requires 0 <= i < 4 => stored[i]);
      assert image[..] == stored;
      StoredHostIndependent(host, v);
      if host == Little {
        SwapUInt32(image, 0);
      }
      out := out + image[..];
    }

    method WriteText(text: Bytes, n: nat)
      requires |text| <= n
      modifies `out
      ensures out == old(out) + Padded(text, n)
    {
      out := out + text + Zeros(n - |text|);
    }

    method OutputDataToTargetFile()
      requires settings.Valid() && |def.tableName| < 40 && |def.description| < 32
      requires userObjSymbolIndex < |symbols| && out == []
      modifies `pos, `out
      ensures out == Output(src, settings, def,
                            Contents(tableDataIsAllZeros, old(pos), symbols[userObjSymbolIndex].size))
    {
      hide BE;
      hide Padded;
      var size := symbols[userObjSymbolIndex].size;
      WriteFileHeader();
      WriteTableHeader(size);
      WriteData(size);
    }

    method WriteFileHeader()
      requires settings.Valid() && |def.description| < 32 && out == []
      modifies `out
      ensures out == FileHeader(settings, def)
    {
      hide BE;
      hide Padded;
      WriteUInt32(CONTENT_TYPE);
      WriteUInt32(TBL_IMG);
      WriteUInt32(FS_HEADER_SIZE);
      WriteUInt32(settings.spacecraft);
      WriteUInt32(settings.processor);
      WriteUInt32(settings.application);
      WriteUInt32(settings.time);
      WriteUInt32(0);
      WriteText(DescriptionOf(settings, def), 32);
    }

    method WriteTableHeader(size: nat)
      requires settings.Valid() && |def.tableName| < 40
      modifies `out
      ensures out == old(out) + TableHeader(settings, def, size)
    {
      hide BE;
      hide Padded;
      WriteUInt32(0);
      WriteUInt32(0);
      WriteUInt32(size);
      WriteText(NameOf(settings, def), 40);
    }

    method WriteData(size: nat)
      modifies `pos, `out
      ensures out == old(out) + Payload(src, Contents(tableDataIsAllZeros, old(pos), size))
    {
      ghost var c := Contents(tableDataIsAllZeros, pos, size);
      ghost var p := Payload(src, c);
      ghost var before := out;
      for i := 0 to size
        invariant out == before + p[..i]
        invariant c.zeros || pos == c.at + i || (|src| <= pos <= c.at + i)
      {
        if tableDataIsAllZeros {
          out := out + [0];
        } else {
          var aByte := Fgetc();
          out := out + [aByte];
        }
        assert p[i] == ContentByte(src, c, i);
        assert p[..i + 1] == p[..i] + [p[i]];
      }
      assert p[..size] == p;
    }

    /** main: on every host, and Verbose or not, the result is TableFile of the source. */
    method Convert() returns (r: Checked<Bytes>)
      requires settings.Valid()
      requires pos == 0 && !byteSwapRequired && ScanView() == NO_SCAN && TableView() == Symbols([], -1)
      requires sectionNamesOffset == 0 && !tableDataIsAllZeros && out == []
      modifies this
      ensures r == TableFile(src, settings)
      ensures r.Ok? ==> out == r.value
    {
      hide ReadHeader;
      hide ReadSections;
      hide ReadSymbols;
      hide ReadDef;
      hide LocateObject;
      hide Output;
      var ok := GetElfHeader();
      NeverUndefined(src);
      if !ok {
        return Failed;
      }
      var scan := GetSections();
      if !scan.Ok? {
        return if scan.Failed? then Failed else Undefined;
      }
      r := ConvertSymbols();
    }

    method ConvertSymbols() returns (r: Checked<Bytes>)
      requires settings.Valid() && Ready()
      requires TableView() == Symbols([], -1) && !tableDataIsAllZeros && out == []
      modifies this
      ensures r == FromSymbols(src, settings, old(header), old(ScanView()))
      ensures r.Ok? ==> out == r.value
    {
      hide ReadSymbols;
      hide ReadDef;
      hide LocateObject;
      hide Output;
      var k := GetSymbols();
      if !k.Ok? {
        return if k.Failed? then Failed else Undefined;
      }
      var d := GetTblDefInfo();
      if !d.Ok? {
        return if d.Failed? then Failed else Undefined;
      }
      var c := LocateAndReadUserObject();
      if !c.Ok? {
        return if c.Failed? then Failed else Undefined;
      }
      ZerosAnywhere(src, settings, def, c.value, pos);
      OutputDataToTargetFile();
      r := Ok(out);
    }
  }

  /** The search loop stops at the first match. */
  lemma {:induction false} FoundFirst(list: seq<Symbol>, wanted: Bytes, i: nat, k: nat)
    requires i <= k <= |list|
    requires forall j :: i <= j < k ==> !Matches(wanted, list[j].name)
    requires k < |list| ==> Matches(wanted, list[k].name)
    ensures FindObject(list, wanted, i) == k
    decreases k - i
  {
    if i < k {
      FoundFirst(list, wanted, i + 1, k);
    }
  }

  /** Contents that are all zeros do not depend on a place. */
  lemma ZerosAnywhere(file: Bytes, o: Settings, def: Def, c: Contents, at: nat)
    requires |DescriptionOf(o, def)| < 32 && |NameOf(o, def)| < 40
    ensures c.zeros ==> Output(file, o, def, c.(at := at)) == Output(file, o, def, c)
  {
    assert c.zeros ==> Payload(file, c.(at := at)) == Payload(file, c);
  }

  lemma NeverUndefined(file: Bytes)
    ensures !ReadHeader(file).Undefined?
  {}

  lemma {:induction false} SymbolsStop(file: Bytes, h: Header, scan: Scan, i: nat, n: nat)
    requires i < n && ScanSymbols(file, h, scan, i).Ok? && !SymbolAt(file, h, scan, i).Ok?
    ensures SymbolAt(file, h, scan, i).Failed? ==> ScanSymbols(file, h, scan, n) == Failed
    ensures SymbolAt(file, h, scan, i).Undefined? ==> ScanSymbols(file, h, scan, n) == Undefined
    decreases n
  {
    hide SymbolAt;
    hide NoteSymbol;
    if n > i + 1 {
      SymbolsStop(file, h, scan, i, n - 1);
    }
  }

  /** A name is read from where the seek leaves the file. */
  lemma NameAfterSeek(file: Bytes, at: int, pos: nat)
    ensures NameAt(file, if at < 0 then pos else at, 0) == NameAt(file, at, pos)
  {}

  lemma NoteUnnamed(scan: Scan, h: Header, s: Section)
    ensures s.name.None? ==> Note(scan, h, s) == scan.(sections := scan.sections + [s])
  {}

  lemma NamelessBefore(file: Bytes, h: Header, i: nat)
    ensures SectionAt(file, h, 0, i).Ok? ==> SectionAt(file, h, 0, i).value.name.None?
  {}

  lemma {:induction false} ScanStops(file: Bytes, h: Header, names: int, i: nat, n: nat)
    requires i < n && ScanSections(file, h, names, i).Ok? && !SectionAt(file, h, names, i).Ok?
    ensures SectionAt(file, h, names, i).Failed? ==> ScanSections(file, h, names, n) == Failed
    ensures SectionAt(file, h, names, i).Undefined? ==> ScanSections(file, h, names, n) == Undefined
    decreases n
  {
    hide SectionAt;
    hide Note;
    if n > i + 1 {
      ScanStops(file, h, names, i, n - 1);
    }
  }
}
