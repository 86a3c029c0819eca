/** The host-side view of the ELF structures: whatever the byte order of the machine, what it
    loads after the conditional swap is what the file means. */
module ElfHost {
  import opened Bytes
  import opened ElfBytes
  import opened ElfSpec
  import opened Wrappers

  const DEF_FIELDS: seq<Field> := [DEF_OBJECT_SIZE]

  lemma Loads(host: Order, target: Order, m: Bytes, fs: seq<Field>, f: Field)
    requires Layout(fs, |m|) && f in fs
    ensures Inside(f, m) && FieldOf(host, Loaded(host, target, m, fs), f) == FieldOf(target, m, f)
  {
    hide Loaded;
    HostIndependentField(host, target, m, fs, f);
  }

  lemma HeaderHostIndependent(host: Order, target: Order, word32: bool, m: Bytes)
    requires |m| == HeaderSize(word32)
    ensures Layout(HeaderFields(word32), |m|)
    ensures HeaderIn(word32, target, host, Loaded(host, target, m, HeaderFields(word32)))
            == HeaderIn(word32, target, target, m)
  {
    HeaderLayout(word32);
    HeaderFieldsListed(word32);
    hide Layout;
    hide Loaded;
    hide HeaderFields;
    hide FieldOf;
    var fs := HeaderFields(word32);
    Loads(host, target, m, fs, E_TYPE);
    Loads(host, target, m, fs, E_MACHINE);
    Loads(host, target, m, fs, E_VERSION);
    Loads(host, target, m, fs, EShoff(word32));
    Loads(host, target, m, fs, EShentsize(word32));
    Loads(host, target, m, fs, EShnum(word32));
    Loads(host, target, m, fs, EShstrndx(word32));
  }

  lemma HeaderFieldsListed(word32: bool)
    ensures E_TYPE in HeaderFields(word32) && E_MACHINE in HeaderFields(word32) && E_VERSION in HeaderFields(word32)
    ensures EShoff(word32) in HeaderFields(word32) && EShentsize(word32) in HeaderFields(word32)
    ensures EShnum(word32) in HeaderFields(word32) && EShstrndx(word32) in HeaderFields(word32)
  {
    var fs := HeaderFields(word32);
    assert fs[0] == E_TYPE && fs[1] == E_MACHINE && fs[2] == E_VERSION && fs[5] == EShoff(word32);
    assert fs[10] == EShentsize(word32) && fs[11] == EShnum(word32) && fs[12] == EShstrndx(word32);
  }

  lemma SectionHostIndependent(host: Order, target: Order, word32: bool, m: Bytes, name: Option<Bytes>)
    requires |m| == SectionSize(word32)
    ensures Layout(SectionFields(word32), |m|)
    ensures var image := Loaded(host, target, m, SectionFields(word32));
            && FieldOf(host, image, SH_NAME) == FieldOf(target, m, SH_NAME)
            && SectionIn(word32, host, image, name) == SectionIn(word32, target, m, name)
  {
    SectionLayout(word32);
    var fs := SectionFields(word32);
    assert fs[0] == SH_NAME && fs[1] == SH_TYPE && fs[4] == ShOffset(word32) && fs[5] == ShSize(word32);
    assert fs[7] == ShEntsize(word32);
    hide Layout;
    hide Loaded;
    hide SectionFields;
    hide FieldOf;
    Loads(host, target, m, fs, SH_NAME);
    Loads(host, target, m, fs, SH_TYPE);
    Loads(host, target, m, fs, ShOffset(word32));
    Loads(host, target, m, fs, ShSize(word32));
    Loads(host, target, m, fs, ShEntsize(word32));
  }

  lemma SymbolHostIndependent(host: Order, target: Order, word32: bool, m: Bytes, name: Bytes)
    requires |m| == SymbolSize(word32)
    ensures Layout(SymbolFields(word32), |m|)
    ensures var image := Loaded(host, target, m, SymbolFields(word32));
            && FieldOf(host, image, ST_NAME) == FieldOf(target, m, ST_NAME)
            && SymbolIn(word32, host, image, name) == SymbolIn(word32, target, m, name)
  {
    SymbolLayout(word32);
    var fs := SymbolFields(word32);
    assert fs[0] == ST_NAME && fs[1] == StValue(word32) && fs[2] == StSize(word32) && fs[3] == StShndx(word32);
    hide Layout;
    hide Loaded;
    hide SymbolFields;
    hide FieldOf;
    Loads(host, target, m, fs, ST_NAME);
    Loads(host, target, m, fs, StValue(word32));
    Loads(host, target, m, fs, StSize(word32));
    Loads(host, target, m, fs, StShndx(word32));
  }

  /** Only ObjectSize is swapped; the texts before it stay as they are. */
  lemma DefHostIndependent(host: Order, target: Order, m: Bytes)
    requires |m| == DEF_SIZE
    ensures Layout(DEF_FIELDS, |m|)
    ensures DefIn(host, Loaded(host, target, m, DEF_FIELDS)) == DefIn(target, m)
  {
    assert DEF_FIELDS[0] == DEF_OBJECT_SIZE;
    assert Layout(DEF_FIELDS, |m|);
    Loads(host, target, m, DEF_FIELDS, DEF_OBJECT_SIZE);
    var image := Loaded(host, target, m, DEF_FIELDS);
    SwapAllSingle(m, DEF_OBJECT_SIZE);
    assert host != target ==> image == SwapOne(m, DEF_OBJECT_SIZE);
    hide Loaded;
    hide FieldOf;
    assert image[..156] == m[..156];
    assert image[..63] == image[..156][..63] && m[..63] == m[..156][..63];
    assert image[64..103] == image[..156][64..103] && m[64..103] == m[..156][64..103];
    assert image[104..135] == image[..156][104..135] && m[104..135] == m[..156][104..135];
  }

  /** How a host keeps a 32-bit integer in memory. */
  function Stored(host: Order, v: nat): (b: Bytes)
    ensures |b| == 4
  {
    if host.Big? then BE(v, 4) else Reversed(BE(v, 4))
  }

  /** Swapped on a little-endian host, it is in network order on every host. */
  lemma StoredHostIndependent(host: Order, v: nat)
    ensures (if host.Little? then SwapOne(Stored(host, v), Field(0, 4)) else Stored(host, v)) == BE(v, 4)
  {
    hide BE;
    var b := Stored(host, v);
    ReversedTwice(BE(v, 4));
    assert Slice(b, Field(0, 4)) == b;
  }
}
