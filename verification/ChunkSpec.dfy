/** The chunk list as a value: a sequence of (offset, size) pairs and what each
    operation of cf_chunk.c makes of it.  The set of offsets a list covers is the
    reference every result here is measured against. */
module ChunkSpec {

  datatype Chunk = Chunk(offset: nat, size: nat) {
    function End(): nat { offset + size }
    predicate Has(x: int) { offset <= x < End() }
  }

  /** Sorted, pairwise disjoint and not even adjacent. */
  ghost predicate Separated(cs: seq<Chunk>) {
    forall i, j :: 0 <= i < j < |cs| ==> cs[i].End() < cs[j].offset
  }

  ghost predicate NonEmpty(cs: seq<Chunk>) {
    forall i :: 0 <= i < |cs| ==> cs[i].size > 0
  }

  /** Every chunk lies inside [0, total). */
  ghost predicate Inside(cs: seq<Chunk>, total: nat) {
    forall i :: 0 <= i < |cs| ==> cs[i].End() <= total
  }

  ghost predicate Covers(cs: seq<Chunk>, x: int) {
    exists i :: 0 <= i < |cs| && cs[i].Has(x)
  }

  /** Some chunk of cs overlaps c or is adjacent to it. */
  ghost predicate Touches(cs: seq<Chunk>, c: Chunk) {
    exists i :: 0 <= i < |cs| && c.offset <= cs[i].End() && cs[i].offset <= c.End()
  }

  function Max(a: nat, b: nat): nat { if a > b then a else b }

  /** The first position whose offset is not below off. */
  function InsertPos(cs: seq<Chunk>, off: nat): (p: nat)
    ensures p <= |cs|
    ensures forall k :: 0 <= k < p ==> cs[k].offset < off
    ensures p < |cs| ==> off <= cs[p].offset
  {
    if cs == [] || off <= cs[0].offset then 0 else 1 + InsertPos(cs[1..], off)
  }

  /** The first position from i on whose chunk starts beyond end. */
  function MergeEnd(cs: seq<Chunk>, i: nat, end: nat): (k: nat)
    requires i <= |cs|
    ensures i <= k <= |cs|
    ensures forall j :: i <= j < k ==> cs[j].offset <= end
    ensures k < |cs| ==> end < cs[k].offset
    decreases |cs| - i
  {
    if i < |cs| && cs[i].offset <= end then MergeEnd(cs, i + 1, end) else i
  }

  /** The first position of a chunk of least size. */
  function Smallest(cs: seq<Chunk>): (s: nat)
    requires cs != []
    ensures s < |cs|
    ensures forall k :: 0 <= k < |cs| ==> cs[s].size <= cs[k].size
    ensures forall k :: 0 <= k < s ==> cs[s].size < cs[k].size
  {
    if |cs| == 1 then 0
    else
      var n := |cs| - 1;
      var s := Smallest(cs[..n]);
      if cs[n].size < cs[s].size then n else s
  }

  lemma InsertPosUnique(cs: seq<Chunk>, off: nat, p: nat)
    requires p <= |cs| && (forall k :: 0 <= k < p ==> cs[k].offset < off)
    requires p < |cs| ==> off <= cs[p].offset
    ensures p == InsertPos(cs, off)
  {}

  lemma MergeEndUnique(cs: seq<Chunk>, i: nat, end: nat, k: nat)
    requires i <= k <= |cs| && (forall j :: i <= j < k ==> cs[j].offset <= end)
    requires k < |cs| ==> end < cs[k].offset
    ensures k == MergeEnd(cs, i, end)
  {}

  lemma SmallestUnique(cs: seq<Chunk>, s: nat)
    requires s < |cs|
    requires forall k :: 0 <= k < |cs| ==> cs[s].size <= cs[k].size
    requires forall k :: 0 <= k < s ==> cs[s].size < cs[k].size
    ensures s == Smallest(cs)
  {}

  function Erase(cs: seq<Chunk>, i: nat): seq<Chunk>
    requires i < |cs|
  {
    cs[..i] + cs[i + 1..]
  }

  function InsertAt(cs: seq<Chunk>, i: nat, c: Chunk): seq<Chunk>
    requires i <= |cs|
  {
    cs[..i] + [c] + cs[i..]
  }

  /** Replaces cs[i..k] by one chunk from c.offset to the farther of the two ends. */
  function MergeNext(cs: seq<Chunk>, i: nat, k: nat, c: Chunk): seq<Chunk>
    requires i < k <= |cs|
    requires c.offset <= Max(cs[k - 1].End(), c.End())
  {
    cs[..i] + [Chunk(c.offset, Max(cs[k - 1].End(), c.End()) - c.offset)] + cs[k..]
  }

  /** MergeNext in two steps: overwrite position i, then erase what follows it up to k. */
  lemma MergeNextSteps(cs: seq<Chunk>, i: nat, k: nat, c: Chunk)
    requires i < k <= |cs|
    requires c.offset <= Max(cs[k - 1].End(), c.End())
    ensures var w := cs[i := Chunk(c.offset, Max(cs[k - 1].End(), c.End()) - c.offset)];
            MergeNext(cs, i, k, c) == if i + 1 < k then w[..i + 1] + w[k..] else w
  {}

  predicate JoinsPrevious(cs: seq<Chunk>, i: nat, c: Chunk)
    requires i <= |cs|
  {
    i > 0 && c.offset <= cs[i - 1].End()
  }

  /** Stretches the chunk before i so that it reaches the end of c. */
  function StretchPrevious(cs: seq<Chunk>, i: nat, c: Chunk): seq<Chunk>
    requires 0 < i <= |cs| && cs[i - 1].offset <= c.End()
  {
    if cs[i - 1].End() < c.End()
    then cs[i - 1 := Chunk(cs[i - 1].offset, c.End() - cs[i - 1].offset)]
    else cs
  }

  /** What CF_ChunkListAdd makes of a list that may hold at most max chunks.  (CF_ChunkListInit
      asserts that max is not zero, so a full list is never empty.) */
  function Add(cs: seq<Chunk>, max: nat, c: Chunk): seq<Chunk> {
    var i := InsertPos(cs, c.offset);
    var k := MergeEnd(cs, i, c.End());
    if i < k then
      var merged := MergeNext(cs, i, k, c);
      if JoinsPrevious(merged, i, merged[i])
      then Erase(StretchPrevious(merged, i, merged[i]), i)
      else merged
    else if JoinsPrevious(cs, i, c) then StretchPrevious(cs, i, c)
    else if |cs| < max then InsertAt(cs, i, c)
    else if cs == [] then cs
    else
      var s := Smallest(cs);
      if cs[s].size < c.size
      then InsertAt(Erase(cs, s), InsertPos(Erase(cs, s), c.offset), c)
      else cs
  }

  function AddAll(cs: seq<Chunk>, max: nat, new_: seq<Chunk>): seq<Chunk>
    decreases |new_|
  {
    if new_ == [] then cs else AddAll(Add(cs, max, new_[0]), max, new_[1..])
  }

  lemma AddBounded(cs: seq<Chunk>, max: nat, c: Chunk)
    requires |cs| <= max && 0 < max
    ensures |Add(cs, max, c)| <= max
  {}

  /** What CF_ChunkList_RemoveFromFirst makes of a list. */
  function RemoveFromFirst(cs: seq<Chunk>, n: nat): seq<Chunk>
    requires cs != []
  {
    if n >= cs[0].size then cs[1..]
    else [Chunk(cs[0].offset + n, cs[0].size - n)] + cs[1..]
  }

  // ------------------------------------------------------------------ Add

  /** cs[a..b] replaced by the single chunk m. */
  function Splice(cs: seq<Chunk>, a: nat, b: nat, m: Chunk): seq<Chunk>
    requires a <= b <= |cs|
  {
    cs[..a] + [m] + cs[b..]
  }

  ghost predicate CoversIn(cs: seq<Chunk>, a: nat, b: nat, x: int)
    requires a <= b <= |cs|
  {
    exists j :: a <= j < b && cs[j].Has(x)
  }

  lemma SpliceSeparated(cs: seq<Chunk>, a: nat, b: nat, m: Chunk)
    requires a <= b <= |cs| && Separated(cs)
    requires a > 0 ==> cs[a - 1].End() < m.offset
    requires b < |cs| ==> m.End() < cs[b].offset
    ensures Separated(Splice(cs, a, b, m))
  {
    var r := Splice(cs, a, b, m);
    forall i, j | 0 <= i < j < |r|
      ensures r[i].End() < r[j].offset
    {
      SpliceAt(cs, a, b, m, i);
      SpliceAt(cs, a, b, m, j);
      hide Splice;
      if i == a {
        var j' := j - a - 1 + b;
        assert j' == b || cs[b].End() < cs[j'].offset;
      } else if j == a {
        assert i == a - 1 || cs[i].End() < cs[a - 1].offset;
      }
    }
  }

  lemma SpliceAt(cs: seq<Chunk>, a: nat, b: nat, m: Chunk, i: nat)
    requires a <= b <= |cs| && i < |Splice(cs, a, b, m)|
    ensures |Splice(cs, a, b, m)| == |cs| - (b - a) + 1
    ensures Splice(cs, a, b, m)[i] == if i < a then cs[i] else if i == a then m else cs[i - a - 1 + b]
  {}

  lemma SpliceCovers(cs: seq<Chunk>, a: nat, b: nat, m: Chunk, x: int)
    requires a <= b <= |cs|
    ensures Covers(Splice(cs, a, b, m), x) <==> CoversIn(cs, 0, a, x) || m.Has(x) || CoversIn(cs, b, |cs|, x)
  {
    var r := Splice(cs, a, b, m);
    if Covers(r, x) {
      var j :| 0 <= j < |r| && r[j].Has(x);
      if j > a {
        assert cs[j - a - 1 + b].Has(x);
      }
    }
    if m.Has(x) {
      assert r[a].Has(x);
    }
    if CoversIn(cs, 0, a, x) {
      var j :| 0 <= j < a && cs[j].Has(x);
      assert r[j].Has(x);
    }
    if CoversIn(cs, b, |cs|, x) {
      var j :| b <= j < |cs| && cs[j].Has(x);
      assert r[j - b + a + 1].Has(x);
    }
  }

  /** A splice that puts in exactly what c and the chunks it replaces cover adds exactly c. */
  lemma SpliceAdds(cs: seq<Chunk>, a: nat, b: nat, m: Chunk, c: Chunk)
    requires a <= b <= |cs|
    requires forall x :: m.Has(x) <==> c.Has(x) || CoversIn(cs, a, b, x)
    ensures forall x :: Covers(Splice(cs, a, b, m), x) <==> Covers(cs, x) || c.Has(x)
  {
    forall x
      ensures Covers(Splice(cs, a, b, m), x) <==> Covers(cs, x) || c.Has(x)
    {
      SpliceCovers(cs, a, b, m, x);
      assert Covers(cs, x) <==> CoversIn(cs, 0, a, x) || CoversIn(cs, a, b, x) || CoversIn(cs, b, |cs|, x);
    }
  }

  /** CF_ChunkListAdd merges exactly when the new chunk touches one already there. */
  lemma MergesIffTouches(cs: seq<Chunk>, c: Chunk)
    requires Separated(cs)
    ensures var i := InsertPos(cs, c.offset);
            Touches(cs, c) <==> i < MergeEnd(cs, i, c.End()) || JoinsPrevious(cs, i, c)
  {
    hide InsertPos;
    hide MergeEnd;
    var i := InsertPos(cs, c.offset);
    if Touches(cs, c) {
      var j :| 0 <= j < |cs| && c.offset <= cs[j].End() && cs[j].offset <= c.End();
      if i < j {
        assert cs[i].End() < cs[j].offset;
      }
    }
    if i < MergeEnd(cs, i, c.End()) {
      TouchAt(cs, i, c);
    } else if JoinsPrevious(cs, i, c) {
      TouchAt(cs, i - 1, c);
    }
  }

  lemma TouchAt(cs: seq<Chunk>, j: nat, c: Chunk)
    requires j < |cs| && c.offset <= cs[j].End() && cs[j].offset <= c.End()
    ensures Touches(cs, c)
  {}

  /** m spans c and the chunks cs[a..k], all of which touch c. */
  ghost predicate Spans(cs: seq<Chunk>, a: nat, k: nat, m: Chunk, c: Chunk) {
    && a < k <= |cs|
    && c.offset <= cs[a].End() && cs[k - 1].offset <= c.End()
    && m.offset == (if cs[a].offset < c.offset then cs[a].offset else c.offset)
    && m.End() == Max(cs[k - 1].End(), c.End())
    && (a > 0 ==> cs[a - 1].End() < m.offset)
    && (k < |cs| ==> m.End() < cs[k].offset)
  }

  lemma SpanHas(cs: seq<Chunk>, a: nat, k: nat, m: Chunk, c: Chunk, x: int)
    requires Separated(cs) && Spans(cs, a, k, m, c)
    ensures m.Has(x) <==> c.Has(x) || CoversIn(cs, a, k, x)
  {
    if m.Has(x) && !c.Has(x) {
      if x < c.offset {
        assert cs[a].Has(x);
      } else {
        assert cs[k - 1].Has(x);
      }
    }
    if CoversIn(cs, a, k, x) {
      var j :| a <= j < k && cs[j].Has(x);
      if j != k - 1 {
        assert cs[j].End() < cs[k - 1].offset;
      }
      if j != a {
        assert cs[a].End() < cs[j].offset;
      }
    }
  }

  /** Replacing the chunks that touch c by one that spans them adds c. */
  lemma SpanAdds(cs: seq<Chunk>, a: nat, k: nat, m: Chunk, c: Chunk)
    requires Separated(cs) && Spans(cs, a, k, m, c)
    ensures Separated(Splice(cs, a, k, m))
    ensures forall x :: Covers(Splice(cs, a, k, m), x) <==> Covers(cs, x) || c.Has(x)
    ensures NonEmpty(cs) ==> NonEmpty(Splice(cs, a, k, m))
  {
    SpliceSeparated(cs, a, k, m);
    forall x
      ensures m.Has(x) <==> c.Has(x) || CoversIn(cs, a, k, x)
    {
      SpanHas(cs, a, k, m, c, x);
    }
    SpliceAdds(cs, a, k, m, c);
    if a < k - 1 {
      assert cs[a].End() < cs[k - 1].offset;
    }
  }

  /** The chunk at i - 1 touches c, none from i on does. */
  lemma AddStretches(cs: seq<Chunk>, max: nat, c: Chunk, i: nat) returns (m: Chunk)
    requires Separated(cs) && |cs| <= max && 0 < max
    requires i == InsertPos(cs, c.offset) && MergeEnd(cs, i, c.End()) == i && JoinsPrevious(cs, i, c)
    ensures Spans(cs, i - 1, i, m, c) && Add(cs, max, c) == Splice(cs, i - 1, i, m)
  {
    var far := Max(cs[i - 1].End(), c.End());
    m := Chunk(cs[i - 1].offset, far - cs[i - 1].offset);
    StretchIsSplice(cs, i, c);
    hide Splice;
    hide InsertPos;
    hide MergeEnd;
  }

  lemma StretchIsSplice(cs: seq<Chunk>, i: nat, c: Chunk)
    requires 0 < i <= |cs| && cs[i - 1].offset <= c.End()
    ensures var far := Max(cs[i - 1].End(), c.End());
            StretchPrevious(cs, i, c) == Splice(cs, i - 1, i, Chunk(cs[i - 1].offset, far - cs[i - 1].offset))
  {}

  /** The chunks cs[i..k] touch c, the one before them does not. */
  lemma AddMergesNext(cs: seq<Chunk>, max: nat, c: Chunk, i: nat, k: nat) returns (m: Chunk)
    requires Separated(cs) && |cs| <= max && 0 < max
    requires i == InsertPos(cs, c.offset) && MergeEnd(cs, i, c.End()) == k && i < k
    requires !JoinsPrevious(cs, i, c)
    ensures Spans(cs, i, k, m, c) && Add(cs, max, c) == Splice(cs, i, k, m)
  {
    m := MergeNext(cs, i, k, c)[i];
  }

  /** The chunks cs[i - 1..k] touch c. */
  lemma AddMergesBoth(cs: seq<Chunk>, max: nat, c: Chunk, i: nat, k: nat) returns (m: Chunk)
    requires Separated(cs) && |cs| <= max && 0 < max
    requires i == InsertPos(cs, c.offset) && MergeEnd(cs, i, c.End()) == k && i < k
    requires JoinsPrevious(cs, i, c)
    ensures Spans(cs, i - 1, k, m, c) && Add(cs, max, c) == Splice(cs, i - 1, k, m)
  {
    var far := Max(cs[k - 1].End(), c.End());
    m := Chunk(cs[i - 1].offset, far - cs[i - 1].offset);
    assert cs[i - 1].End() < cs[k - 1].offset;
    StretchThenErase(cs, i, k, c);
  }

  /** Joining the chunks from i on into c, stretching the one before to its end and erasing it. */
  lemma StretchThenErase(cs: seq<Chunk>, i: nat, k: nat, c: Chunk)
    requires 0 < i < k <= |cs| && c.offset <= c.End() && cs[i - 1].End() < cs[k - 1].offset
    requires c.offset <= cs[i - 1].End()
    ensures var far := Max(cs[k - 1].End(), c.End());
            var merged := MergeNext(cs, i, k, c);
            && |merged| > i && merged[i] == Chunk(c.offset, far - c.offset) && merged[i - 1] == cs[i - 1]
            && Erase(StretchPrevious(merged, i, merged[i]), i) ==
               Splice(cs, i - 1, k, Chunk(cs[i - 1].offset, far - cs[i - 1].offset))
  {
    var merged := MergeNext(cs, i, k, c);
    var m := Chunk(cs[i - 1].offset, Max(cs[k - 1].End(), c.End()) - cs[i - 1].offset);
    assert StretchPrevious(merged, i, merged[i]) == merged[i - 1 := m];
    assert Erase(merged[i - 1 := m], i) == Splice(cs, i - 1, k, m);
  }

  /** Every merge puts one chunk in the place of the neighbours it spans. */
  lemma MergeIsSplice(cs: seq<Chunk>, max: nat, c: Chunk) returns (a: nat, k: nat, m: Chunk)
    requires Separated(cs) && |cs| <= max && 0 < max && Touches(cs, c)
    ensures Spans(cs, a, k, m, c) && Add(cs, max, c) == Splice(cs, a, k, m)
  {
    MergesIffTouches(cs, c);
    hide Separated;
    hide Touches;
    hide Add;
    hide Spans;
    hide JoinsPrevious;
    var i := InsertPos(cs, c.offset);
    k := MergeEnd(cs, i, c.End());
    hide InsertPos;
    hide MergeEnd;
    if i == k {
      a := i - 1;
      m := AddStretches(cs, max, c, i);
    } else if JoinsPrevious(cs, i, c) {
      a := i - 1;
      m := AddMergesBoth(cs, max, c, i, k);
    } else {
      a := i;
      m := AddMergesNext(cs, max, c, i, k);
    }
  }

  /** A new chunk that touches an old one is merged: the list covers the union. */
  lemma AddMerges(cs: seq<Chunk>, max: nat, c: Chunk)
    requires Separated(cs) && |cs| <= max && 0 < max
    requires Touches(cs, c)
    ensures Separated(Add(cs, max, c)) && |Add(cs, max, c)| <= |cs|
    ensures forall x :: Covers(Add(cs, max, c), x) <==> Covers(cs, x) || c.Has(x)
    ensures NonEmpty(cs) ==> NonEmpty(Add(cs, max, c))
  {
    var a, k, m := MergeIsSplice(cs, max, c);
    hide Add;
    SpanAdds(cs, a, k, m, c);
  }

  /** A new chunk that touches nothing goes in between, if there is room. */
  lemma AddInserts(cs: seq<Chunk>, max: nat, c: Chunk)
    requires Separated(cs) && |cs| < max
    requires !Touches(cs, c)
    ensures Separated(Add(cs, max, c))
    ensures forall x :: Covers(Add(cs, max, c), x) <==> Covers(cs, x) || c.Has(x)
    ensures NonEmpty(cs) && c.size > 0 ==> NonEmpty(Add(cs, max, c))
    ensures |Add(cs, max, c)| == |cs| + 1 && c in Add(cs, max, c)
  {
    hide InsertPos;
    hide MergeEnd;
    MergesIffTouches(cs, c);
    AddWithoutTouch(cs, max, c);
    var i := InsertPos(cs, c.offset);
    assert Add(cs, max, c) == Splice(cs, i, i, c);
    assert Splice(cs, i, i, c)[i] == c;
    SpliceSeparated(cs, i, i, c);
    SpliceAdds(cs, i, i, c, c);
  }

  lemma EraseKeeps(cs: seq<Chunk>, s: nat)
    requires s < |cs| && Separated(cs)
    ensures Separated(Erase(cs, s)) && (NonEmpty(cs) ==> NonEmpty(Erase(cs, s)))
    ensures forall x :: Covers(Erase(cs, s), x) <==> Covers(cs, x) && !cs[s].Has(x)
  {
    var r := Erase(cs, s);
    assert Separated(r) by {
      forall i, j | 0 <= i < j < |r|
        ensures r[i].End() < r[j].offset
      {
        var i', j' := if i < s then i else i + 1, if j < s then j else j + 1;
        assert r[i] == cs[i'] && r[j] == cs[j'];
      }
    }
    forall x
      ensures Covers(r, x) <==> Covers(cs, x) && !cs[s].Has(x)
    {
      EraseCovers(cs, s, x);
      assert Covers(cs, x) <==> CoversIn(cs, 0, s, x) || cs[s].Has(x) || CoversIn(cs, s + 1, |cs|, x);
      if cs[s].Has(x) {
        assert forall j :: 0 <= j < s ==> cs[j].End() < cs[s].offset;
        assert forall j :: s < j < |cs| ==> cs[s].End() < cs[j].offset;
      }
    }
  }

  lemma EraseCovers(cs: seq<Chunk>, s: nat, x: int)
    requires s < |cs|
    ensures Covers(Erase(cs, s), x) <==> CoversIn(cs, 0, s, x) || CoversIn(cs, s + 1, |cs|, x)
  {
    var r := Erase(cs, s);
    if Covers(r, x) {
      var j :| 0 <= j < |r| && r[j].Has(x);
      if j >= s {
        assert cs[j + 1].Has(x);
      }
    }
    if CoversIn(cs, 0, s, x) {
      var j :| 0 <= j < s && cs[j].Has(x);
      assert r[j].Has(x);
    }
    if CoversIn(cs, s + 1, |cs|, x) {
      var j :| s + 1 <= j < |cs| && cs[j].Has(x);
      assert r[j - 1].Has(x);
    }
  }

  lemma EraseTouches(cs: seq<Chunk>, s: nat, c: Chunk)
    requires s < |cs|
    ensures Touches(Erase(cs, s), c) ==> Touches(cs, c)
  {
    var e := Erase(cs, s);
    if Touches(e, c) {
      var j :| 0 <= j < |e| && c.offset <= e[j].End() && e[j].offset <= c.End();
      assert cs[if j < s then j else j + 1] == e[j];
    }
  }

  /** A new chunk that touches nothing, in a full list, takes the place of the first smallest
      chunk if that one is strictly smaller, and is dropped otherwise. */
  lemma AddEvicts(cs: seq<Chunk>, max: nat, c: Chunk)
    requires Separated(cs) && |cs| == max && 0 < max
    requires !Touches(cs, c)
    ensures var old_ := cs[Smallest(cs)];
            if old_.size < c.size then
              && Separated(Add(cs, max, c)) && |Add(cs, max, c)| == max
              && (forall x :: Covers(Add(cs, max, c), x) <==> (Covers(cs, x) && !old_.Has(x)) || c.Has(x))
            else Add(cs, max, c) == cs
    ensures NonEmpty(cs) ==> NonEmpty(Add(cs, max, c))
  {
    hide InsertPos;
    hide MergeEnd;
    hide Smallest;
    hide Add;
    AddWithoutTouch(cs, max, c);
    var s := Smallest(cs);
    if cs[s].size < c.size {
      var e := Erase(cs, s);
      EraseKeeps(cs, s);
      EraseTouches(cs, s, c);
      AddWithoutTouch(e, max, c);
      AddInserts(e, max, c);
    }
  }

  /** What Add does with a chunk that touches nothing. */
  lemma AddWithoutTouch(cs: seq<Chunk>, max: nat, c: Chunk)
    requires Separated(cs) && |cs| <= max && 0 < max && !Touches(cs, c)
    ensures |cs| < max ==> Add(cs, max, c) == InsertAt(cs, InsertPos(cs, c.offset), c)
    ensures |cs| == max ==>
              var s := Smallest(cs);
              Add(cs, max, c) == if cs[s].size < c.size
                                 then InsertAt(Erase(cs, s), InsertPos(Erase(cs, s), c.offset), c)
                                 else cs
  {
    hide InsertPos;
    hide MergeEnd;
    hide Smallest;
    MergesIffTouches(cs, c);
  }

  /** The whole of CF_ChunkListAdd against the set of offsets: the list stays separated and
      within its bound, it covers the union unless a full list forces a choice, and it never
      covers an offset that was not added. */
  lemma AddRefines(cs: seq<Chunk>, max: nat, c: Chunk)
    requires Separated(cs) && |cs| <= max && 0 < max
    ensures Separated(Add(cs, max, c)) && |Add(cs, max, c)| <= max
    ensures forall x :: Covers(Add(cs, max, c), x) ==> Covers(cs, x) || c.Has(x)
    ensures (forall x :: Covers(Add(cs, max, c), x) <==> Covers(cs, x) || c.Has(x)) <==>
            Touches(cs, c) || |cs| < max || c.size == 0 || cs[Smallest(cs)].size == 0
    ensures NonEmpty(cs) && c.size > 0 ==> NonEmpty(Add(cs, max, c))
  {
    if Touches(cs, c) {
      AddMerges(cs, max, c);
    } else if |cs| < max {
      AddInserts(cs, max, c);
    } else {
      AddEvicts(cs, max, c);
      var s := cs[Smallest(cs)];
      if s.size > 0 && c.size > 0 {
        assert s.Has(s.offset) && Covers(cs, s.offset);
        assert c.Has(c.offset);
        assert !Covers(cs, c.offset);
        assert !c.Has(s.offset);
      }
    }
  }

  /** Over any sequence of additions. */
  lemma {:induction false} AddAllRefines(cs: seq<Chunk>, max: nat, new_: seq<Chunk>)
    requires Separated(cs) && |cs| <= max && 0 < max
    ensures Separated(AddAll(cs, max, new_)) && |AddAll(cs, max, new_)| <= max
    ensures forall x :: Covers(AddAll(cs, max, new_), x) ==> Covers(cs, x) || Covers(new_, x)
    ensures |cs| + |new_| <= max ==>
              forall x :: Covers(AddAll(cs, max, new_), x) <==> Covers(cs, x) || Covers(new_, x)
    decreases |new_|
  {
    if new_ != [] {
      hide Add;
      AddBounded(cs, max, new_[0]);
      AddRefines(cs, max, new_[0]);
      AddGrowsByOne(cs, max, new_[0]);
      AddAllRefines(Add(cs, max, new_[0]), max, new_[1..]);
      CoversCons(new_);
    }
  }

  lemma CoversCons(cs: seq<Chunk>)
    requires cs != []
    ensures forall x :: Covers(cs, x) <==> cs[0].Has(x) || Covers(cs[1..], x)
  {
    assert forall j :: 0 < j < |cs| ==> cs[j] == cs[1..][j - 1];
    forall x | Covers(cs[1..], x)
      ensures Covers(cs, x)
    {
      var j :| 0 <= j < |cs[1..]| && cs[1..][j].Has(x);
      assert cs[j + 1].Has(x);
    }
  }

  lemma AddGrowsByOne(cs: seq<Chunk>, max: nat, c: Chunk)
    requires Separated(cs) && |cs| <= max && 0 < max
    ensures |Add(cs, max, c)| <= |cs| + 1
  {
    hide Separated;
    hide Touches;
    if Touches(cs, c) {
      AddMerges(cs, max, c);
      hide Add;
    } else {
      AddWithoutTouch(cs, max, c);
      hide Add;
      hide InsertPos;
      hide Smallest;
    }
  }

  /** Two separated lists of nonempty chunks that cover the same offsets are the same list. */
  lemma {:induction false} Canonical(cs: seq<Chunk>, ds: seq<Chunk>)
    requires Separated(cs) && NonEmpty(cs) && Separated(ds) && NonEmpty(ds)
    requires forall x :: Covers(cs, x) <==> Covers(ds, x)
    ensures cs == ds
  {
    CoversSomething(cs);
    CoversSomething(ds);
    if cs != [] && ds != [] {
      FirstAgrees(cs, ds);
      FirstAgrees(ds, cs);
      assert cs == [cs[0]] + cs[1..] && ds == [ds[0]] + ds[1..];
      EraseKeeps(cs, 0);
      EraseKeeps(ds, 0);
      assert Erase(cs, 0) == cs[1..] && Erase(ds, 0) == ds[1..];
      Canonical(cs[1..], ds[1..]);
    }
  }

  lemma CoversSomething(cs: seq<Chunk>)
    requires NonEmpty(cs)
    ensures cs != [] ==> Covers(cs, cs[0].offset)
  {
    assert cs != [] ==> cs[0].Has(cs[0].offset);
  }

  lemma FirstAgrees(cs: seq<Chunk>, ds: seq<Chunk>)
    requires Separated(cs) && NonEmpty(cs) && Separated(ds) && NonEmpty(ds)
    requires cs != [] && ds != []
    requires forall x :: Covers(cs, x) <==> Covers(ds, x)
    ensures ds[0].offset <= cs[0].offset
    ensures ds[0].offset == cs[0].offset ==> cs[0].End() <= ds[0].End()
  {
    assert cs[0].Has(cs[0].offset) && Covers(cs, cs[0].offset);
    var j :| 0 <= j < |ds| && ds[j].Has(cs[0].offset);
    assert j > 0 ==> ds[0].End() < ds[j].offset;
    var e := ds[0].End();
    EndUncovered(ds);
    HasCovers(cs, 0, e);
  }

  lemma HasCovers(cs: seq<Chunk>, j: nat, x: int)
    requires j < |cs|
    ensures cs[j].Has(x) ==> Covers(cs, x)
  {}

  /** A separated list leaves the offset just after its first chunk uncovered. */
  lemma EndUncovered(ds: seq<Chunk>)
    requires Separated(ds) && ds != []
    ensures !Covers(ds, ds[0].End())
  {
    assert forall j :: 0 < j < |ds| ==> ds[0].End() < ds[j].offset;
  }

  // ------------------------------------------------------------------ RemoveFromFirst

  /** Removing n from the first chunk uncovers its first n offsets and nothing else. */
  lemma RemoveUncovers(cs: seq<Chunk>, n: nat)
    requires Separated(cs) && cs != []
    ensures Separated(RemoveFromFirst(cs, n))
    ensures forall x :: Covers(RemoveFromFirst(cs, n), x) <==>
                        Covers(cs, x) && !(cs[0].Has(x) && x < cs[0].offset + n)
    ensures NonEmpty(cs) ==> NonEmpty(RemoveFromFirst(cs, n))
  {
    if n >= cs[0].size {
      EraseKeeps(cs, 0);
      assert Erase(cs, 0) == cs[1..];
    } else {
      RemoveShrinks(cs, n);
    }
  }

  lemma RemoveShrinks(cs: seq<Chunk>, n: nat)
    requires Separated(cs) && cs != [] && n < cs[0].size
    ensures Separated(RemoveFromFirst(cs, n))
    ensures forall x :: Covers(RemoveFromFirst(cs, n), x) <==>
                        Covers(cs, x) && !(cs[0].Has(x) && x < cs[0].offset + n)
    ensures NonEmpty(cs) ==> NonEmpty(RemoveFromFirst(cs, n))
  {
    var m := Chunk(cs[0].offset + n, cs[0].size - n);
    assert RemoveFromFirst(cs, n) == Splice(cs, 0, 1, m);
    SpliceSeparated(cs, 0, 1, m);
    hide Separated;
    hide Covers;
    hide RemoveFromFirst;
    forall x
      ensures Covers(Splice(cs, 0, 1, m), x) <==> Covers(cs, x) && !(cs[0].Has(x) && x < cs[0].offset + n)
    {
      SpliceCovers(cs, 0, 1, m, x);
      ShrunkHas(cs, n, x);
    }
  }

  lemma ShrunkHas(cs: seq<Chunk>, n: nat, x: int)
    requires Separated(cs) && cs != [] && n < cs[0].size
    ensures var m := Chunk(cs[0].offset + n, cs[0].size - n);
            m.Has(x) || CoversIn(cs, 1, |cs|, x) <==> Covers(cs, x) && !(cs[0].Has(x) && x < cs[0].offset + n)
  {
    assert Covers(cs, x) <==> cs[0].Has(x) || CoversIn(cs, 1, |cs|, x);
    if CoversIn(cs, 1, |cs|, x) {
      var j :| 1 <= j < |cs| && cs[j].Has(x);
      assert cs[0].End() < cs[j].offset;
    }
  }
}
