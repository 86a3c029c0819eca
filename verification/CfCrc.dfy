/** The streaming file checksum of cf_crc.c against section 4.2 of CCSDS 727.0-B-5: the sum,
    modulo 2^32, of the big-endian 32-bit words of the data padded with zeros. */
module CfCrc {
  import opened Bytes

  /** CF_Crc_t as a value. */
  datatype State = State(working: nat, result: nat, index: nat) {
    predicate Valid() { working < TWO_32 && result < TWO_32 && index < 4 }
  }

  /** The states CF_CRC_Start and CF_CRC_Digest can produce. */
  type CrcState = s: State | s.Valid() witness State(0, 0, 0)

  const START: CrcState := State(0, 0, 0)

  /** One turn of the loop of CF_CRC_Digest; the shift drops what leaves 32 bits. */
  function DigestByte(s: State, b: Byte): (t: State)
    requires s.Valid()
    ensures t.Valid()
  {
    var working := s.working * 0x100 % TWO_32 + b;
    if s.index + 1 == 4 then State(working, (s.result + working) % TWO_32, 0)
    else State(working, s.result, s.index + 1)
  }

  function Digest(s: State, data: Bytes): (t: State)
    requires s.Valid()
    ensures t.Valid()
  {
    if data == [] then s else DigestByte(Digest(s, data[..|data| - 1]), data[|data| - 1])
  }

  /** working << (8 * (4 - index)), in 32 bits. */
  function ShiftUp(working: nat, index: nat): nat
    requires 0 < index < 4
  {
    (match index
     case 1 => working * 0x100_0000
     case 2 => working * 0x1_0000
     case 3 => working * 0x100) % TWO_32
  }

  function Finalize(s: State): (t: State)
    requires s.Valid()
    ensures t.Valid() && t.index == 0
  {
    if s.index == 0 then s
    else State(0, (s.result + ShiftUp(s.working, s.index)) % TWO_32, 0)
  }

  // ------------------------------------------------------------------ reference

  function Padded(data: Bytes): Bytes {
    if |data| % 4 == 0 then data else data + Zeros(4 - |data| % 4)
  }

  /** The sum of the 32-bit words of data, whose length is a multiple of four. */
  function WordSum(data: Bytes): nat
    requires |data| % 4 == 0
  {
    if data == [] then 0
    else
      var n := |data| - 4;
      WordSum(data[..n]) + BigEndian(data[n..])
  }

  function Checksum(data: Bytes): (sum: nat)
    ensures sum < TWO_32
  {
    WordSum(Padded(data)) % TWO_32
  }

  // ------------------------------------------------------------------ results

  /** How many bytes belong to completed words. */
  function Whole(data: Bytes): (n: nat)
    ensures n <= |data| && n % 4 == 0 && |data| - n == |data| % 4
  {
    |data| - |data| % 4
  }

  function Scale(index: nat): nat
    requires index < 4
  {
    match index case 0 => 1 case 1 => 0x100 case 2 => 0x1_0000 case 3 => 0x100_0000
  }

  lemma ModUnique(x: int, q: int, m: int, r: int)
    requires 0 <= r < m && x == q * m + r
    ensures x % m == r
  {
    var d := x / m - q;
    assert d * m == r - x % m;
    assert (d > 0 ==> d * m >= m) && (d < 0 ==> d * m <= -m);
  }

  lemma ModAdd(a: int, b: int)
    ensures (a % TWO_32 + b) % TWO_32 == (a + b) % TWO_32
  {
    ModUnique(a + b, a / TWO_32 + (a % TWO_32 + b) / TWO_32, TWO_32, (a % TWO_32 + b) % TWO_32);
  }

  /** Shifting in a byte keeps the bytes that stay inside 32 bits. */
  lemma PushByte(w: nat, i: nat, b: Byte)
    requires i < 3 && w < TWO_32
    ensures (w * 0x100 % TWO_32 + b) % Scale(i + 1) == w % Scale(i) * 0x100 + b
  {
    ModUnique(w * 0x100, w / 0x100_0000, TWO_32, w % 0x100_0000 * 0x100);
    PushLow(w, i, b);
  }

  lemma PushLow(w: nat, i: nat, b: Byte)
    requires i < 3
    ensures (w % 0x100_0000 * 0x100 + b) % Scale(i + 1) == w % Scale(i) * 0x100 + b
  {
    var low := w % 0x100_0000;
    match i
    case 0 =>
      ModUnique(low * 0x100 + b, low, 0x100, b);
    case 1 =>
      ModUnique(low * 0x100 + b, low / 0x100, 0x1_0000, low % 0x100 * 0x100 + b);
      ModUnique(w, w / 0x100_0000 * 0x1_0000 + low / 0x100, 0x100, low % 0x100);
    case 2 =>
      ModUnique(low * 0x100 + b, low / 0x1_0000, 0x100_0000, low % 0x1_0000 * 0x100 + b);
      ModUnique(w, w / 0x100_0000 * 0x100 + low / 0x1_0000, 0x1_0000, low % 0x1_0000);
  }

  lemma PushLast(w: nat, b: Byte)
    requires w < TWO_32
    ensures w * 0x100 % TWO_32 + b == w % 0x100_0000 * 0x100 + b
  {
    ModUnique(w * 0x100, w / 0x100_0000, TWO_32, w % 0x100_0000 * 0x100);
  }

  /** t is in the middle of the word that begins with tail. */
  ghost predicate Assembling(t: State, tail: Bytes) {
    t.Valid() && t.index == |tail| && t.working % Scale(t.index) == BigEndian(tail)
  }

  lemma DigestByteMeaning(t: State, tail: Bytes, b: Byte)
    requires Assembling(t, tail)
    ensures var u := DigestByte(t, b);
            if t.index == 3 then Assembling(u, []) && u.result == (t.result + BigEndian(tail + [b])) % TWO_32
            else Assembling(u, tail + [b]) && u.result == t.result
  {
    assert (tail + [b])[..|tail|] == tail;
    if t.index == 3 {
      PushLast(t.working, b);
    } else {
      PushByte(t.working, t.index, b);
    }
  }

  /** What the state holds in the middle of a stream: the sum of the words completed so far and,
      in the low bytes of working, the word still being assembled. */
  lemma {:induction false} DigestMeaning(s: State, data: Bytes)
    requires s.Valid() && s.index == 0
    ensures Assembling(Digest(s, data), data[Whole(data)..])
    ensures Digest(s, data).result == (s.result + WordSum(data[..Whole(data)])) % TWO_32
  {
    if data != [] {
      hide Digest;
      hide DigestByte;
      hide WordSum;
      hide BigEndian;
      hide Scale;
      var init, b := data[..|data| - 1], data[|data| - 1];
      var t, tail := Digest(s, init), init[Whole(init)..];
      DigestMeaning(s, init);
      DigestByteMeaning(t, tail, b);
      DigestLast(s, data);
      SplitLast(data);
      if |init| % 4 == 3 {
        ModAdd(s.result + WordSum(init[..Whole(init)]), BigEndian(tail + [b]));
      }
    }
  }

  /** How the last byte falls: it completes a word, or extends the unfinished one. */
  lemma SplitLast(data: Bytes)
    requires data != []
    ensures var init, b := data[..|data| - 1], data[|data| - 1];
            var tail := init[Whole(init)..];
            if |init| % 4 == 3 then
              && |tail| == 3 && data[Whole(data)..] == []
              && WordSum(data[..Whole(data)]) == WordSum(init[..Whole(init)]) + BigEndian(tail + [b])
            else
              && |tail| < 3 && data[Whole(data)..] == tail + [b]
              && WordSum(data[..Whole(data)]) == WordSum(init[..Whole(init)])
  {
    hide BigEndian;
    var init, b := data[..|data| - 1], data[|data| - 1];
    if |init| % 4 == 3 {
      assert data[..Whole(data)] == data;
      assert data[|data| - 4..] == init[Whole(init)..] + [b];
      assert init[..Whole(init)] == data[..|data| - 4];
    } else {
      assert init[..Whole(init)] == data[..Whole(data)];
    }
  }

  /** The unfinished word, shifted up, is that word padded with zeros. */
  lemma FinalWord(t: State, tail: Bytes)
    requires Assembling(t, tail) && tail != []
    ensures ShiftUp(t.working, t.index) == BigEndian(tail + Zeros(4 - |tail|))
  {
    var w := t.working;
    AppendZero(tail);
    AppendZero(tail + [0]);
    AppendZero(tail + [0, 0]);
    assert tail + [0] + [0] == tail + [0, 0] && tail + [0, 0] + [0] == tail + [0, 0, 0];
    match |tail|
    case 1 =>
      ModUnique(w * 0x100_0000, w / 0x100, TWO_32, w % 0x100 * 0x100_0000);
      assert Zeros(3) == [0, 0, 0];
    case 2 =>
      ModUnique(w * 0x1_0000, w / 0x1_0000, TWO_32, w % 0x1_0000 * 0x1_0000);
      assert Zeros(2) == [0, 0];
    case 3 =>
      ModUnique(w * 0x100, w / 0x100_0000, TWO_32, w % 0x100_0000 * 0x100);
      assert Zeros(1) == [0];
  }

  lemma AppendZero(b: Bytes)
    ensures BigEndian(b + [0]) == BigEndian(b) * 0x100
  {
    assert (b + [0])[..|b|] == b;
  }

  lemma PaddedSum(data: Bytes)
    ensures var tail := data[Whole(data)..];
            WordSum(Padded(data)) ==
            WordSum(data[..Whole(data)]) + if tail == [] then 0 else BigEndian(tail + Zeros(4 - |tail|))
  {
    hide BigEndian;
    var n := Whole(data);
    if n == |data| {
      assert data[..n] == data;
    } else {
      var p := Padded(data);
      assert |p| == n + 4;
      assert p[..n] == data[..n];
      assert p[n..] == data[n..] + Zeros(4 - |data| % 4);
    }
  }

  lemma FinalizeAdds(t: State, start: nat, whole: nat, last: nat)
    requires t.Valid() && t.result == (start + whole) % TWO_32
    requires last == if t.index == 0 then 0 else ShiftUp(t.working, t.index)
    ensures Finalize(t).result == (start + (whole + last) % TWO_32) % TWO_32
  {
    hide ShiftUp;
    ModAdd(start + whole, last);
    ModAdd(whole + last, start);
  }

  /** Start, any data, Finalize: the checksum of CCSDS 727.0-B-5, added to the starting result. */
  lemma FinalizeIsChecksum(s: State, data: Bytes)
    requires s.Valid() && s.index == 0
    ensures Finalize(Digest(s, data)).result == (s.result + Checksum(data)) % TWO_32
  {
    hide Digest;
    hide WordSum;
    hide BigEndian;
    hide Padded;
    hide ShiftUp;
    hide Scale;
    hide Finalize;
    DigestMeaning(s, data);
    PaddedSum(data);
    var tail := data[Whole(data)..];
    if tail == [] {
      FinalizeAdds(Digest(s, data), s.result, WordSum(data[..Whole(data)]), 0);
    } else {
      FinalWord(Digest(s, data), tail);
      FinalizeAdds(Digest(s, data), s.result, WordSum(data[..Whole(data)]), BigEndian(tail + Zeros(4 - |tail|)));
    }
  }

  /** Digesting in pieces is digesting the whole. */
  lemma {:induction false} DigestConcat(s: State, a: Bytes, b: Bytes)
    requires s.Valid()
    ensures Digest(s, a + b) == Digest(Digest(s, a), b)
    decreases |b|
  {
    if b == [] {
      assert a + b == a;
    } else {
      DigestConcat(s, a, b[..|b| - 1]);
      assert (a + b)[..|a + b| - 1] == a + b[..|b| - 1];
    }
  }

  function DigestAll(s: State, pieces: seq<Bytes>): (t: State)
    requires s.Valid()
    ensures t.Valid()
    decreases |pieces|
  {
    if pieces == [] then s else DigestAll(Digest(s, pieces[0]), pieces[1..])
  }

  function Join(pieces: seq<Bytes>): Bytes {
    if pieces == [] then [] else pieces[0] + Join(pieces[1..])
  }

  lemma {:induction false} DigestAllJoin(s: State, pieces: seq<Bytes>)
    requires s.Valid()
    ensures DigestAll(s, pieces) == Digest(s, Join(pieces))
    decreases |pieces|
  {
    if pieces != [] {
      DigestAllJoin(Digest(s, pieces[0]), pieces[1..]);
      DigestConcat(s, pieces[0], Join(pieces[1..]));
    }
  }

  lemma StartFacts()
    ensures START.Valid() && START.index == 0 && START.result == 0
  {}

  /** For any data and any split of it into Digest calls. */
  lemma StreamedChecksum(pieces: seq<Bytes>)
    ensures Finalize(DigestAll(START, pieces)).result == Checksum(Join(pieces))
  {
    hide *;
    assert START.Valid() && START.index == 0 && START.result == 0 by { StartFacts(); }
    DigestAllJoin(START, pieces);
    FinalizeIsChecksum(START, Join(pieces));
  }

  /** A second Finalize changes nothing, and a stream resumed after Finalize adds its own checksum:
      the padding already counted is not undone. */
  lemma ResumeAfterFinalize(a: Bytes, b: Bytes)
    ensures Finalize(Finalize(Digest(START, a))) == Finalize(Digest(START, a))
    ensures Finalize(Digest(Finalize(Digest(START, a)), b)).result == (Checksum(a) + Checksum(b)) % TWO_32
  {
    hide Digest;
    hide Checksum;
    FinalizeIsChecksum(START, a);
    FinalizeIsChecksum(Finalize(Digest(START, a)), b);
  }

  lemma DigestLast(s: State, data: Bytes)
    requires s.Valid() && data != []
    ensures Digest(s, data) == DigestByte(Digest(s, data[..|data| - 1]), data[|data| - 1])
  {}

  lemma DigestStep(s: State, data: Bytes, i: nat)
    requires s.Valid() && i < |data|
    ensures Digest(s, data[..i + 1]) == DigestByte(Digest(s, data[..i]), data[i])
  {
    assert data[..i + 1][..i] == data[..i];
  }

  /** CF_Crc_t. */
  class Crc {
    var working: nat
    var result: nat
    var index: nat

    ghost function View(): State
      reads this
    {
      State(working, result, index)
    }

    constructor ()
      ensures View() == START
    {
      working, result, index := 0, 0, 0;
    }

    /** CF_CRC_Start. */
    method Restart()
      modifies this
      ensures View() == START
    {
      working, result, index := 0, 0, 0;
    }

    /** CF_CRC_Digest. */
    method DigestData(data: Bytes)
      requires View().Valid()
      modifies this
      ensures View() == Digest(old(View()), data)
    {
      for i := 0 to |data|
        invariant View().Valid() && View() == Digest(old(View()), data[..i])
      {
        DigestStep(old(View()), data, i);
        hide Digest;
        working := working * 0x100 % TWO_32;
        working := working + data[i];
        index := index + 1;
        if index == 4 {
          result := (result + working) % TWO_32;
          index := 0;
        }
      }
      assert data[..|data|] == data;
    }

    /** CF_CRC_Finalize. */
    method FinalizeResult()
      requires View().Valid()
      modifies this
      ensures View() == Finalize(old(View()))
    {
      if index != 0 {
        result := (result + ShiftUp(working, index)) % TWO_32;
        index := 0;
        working := 0;
      }
    }
  }
}
