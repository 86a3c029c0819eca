/** What an addition does to the number of offsets a chunk list does not cover: it falls exactly when
    the list has a place for something new, and the list stays as it is otherwise. */
module ChunkGrowth {
  import opened ChunkSpec

  predicate Within(x: int, total: nat) { 0 <= x < total }

  /** The offsets of the file that the list covers, and those it does not. */
  ghost function Held(cs: seq<Chunk>, total: nat): set<int> { set x | 0 <= x < total && Covers(cs, x) }

  ghost function Missing(cs: seq<Chunk>, total: nat): set<int> { set x | 0 <= x < total && !Covers(cs, x) }

  ghost function Span(c: Chunk): set<int> { set x | c.offset <= x < c.End() && c.Has(x) }

  ghost function Offsets(total: nat): set<int> { set x | 0 <= x < total && Within(x, total) }

  lemma {:induction false} SpanSize(c: Chunk)
    ensures |Span(c)| == c.size
    decreases c.size
  {
    if c.size == 0 {
      assert Span(c) == {};
    } else {
      var d := Chunk(c.offset, c.size - 1);
      SpanSize(d);
      forall x
        ensures c.Has(x) <==> d.Has(x) || x == d.End()
      {
      }
      assert c.Has(d.End());
      assert Span(c) == Span(d) + {d.End()};
    }
  }

  lemma OffsetsSize(total: nat)
    ensures |Offsets(total)| == total
  {
    var c := Chunk(0, total);
    SpanSize(c);
    assert forall x :: c.Has(x) <==> Within(x, total);
    assert Offsets(total) == Span(c);
  }

  lemma Fewer(a: set<int>, b: set<int>)
    requires a <= b
    ensures |a| <= |b| && (a != b ==> |a| < |b|)
  {
    assert b == a + (b - a);
    assert a != b ==> b - a != {};
  }

  /** Held and missing offsets make up the file. */
  lemma HeldAndMissing(cs: seq<Chunk>, total: nat)
    ensures |Held(cs, total)| + |Missing(cs, total)| == total
  {
    hide Covers;
    OffsetsSize(total);
    assert forall x :: Within(x, total) <==> 0 <= x < total;
    assert Offsets(total) == Held(cs, total) + Missing(cs, total);
    assert Held(cs, total) * Missing(cs, total) == {};
  }

  /** c brings an offset that is not covered yet, and the list has a place for it: next to what it
      holds, in its free room, or instead of a smaller chunk. */
  ghost predicate Useful(cs: seq<Chunk>, max: nat, c: Chunk) {
    && (exists x :: c.Has(x) && !Covers(cs, x))
    && (Touches(cs, c) || |cs| < max || (cs != [] && cs[Smallest(cs)].size < c.size))
  }

  ghost predicate Orderly(cs: seq<Chunk>, max: nat, total: nat) {
    Separated(cs) && NonEmpty(cs) && |cs| <= max && Inside(cs, total) && 0 < max
  }

  lemma InsideIff(cs: seq<Chunk>, total: nat)
    requires NonEmpty(cs)
    ensures Inside(cs, total) <==> forall x :: Covers(cs, x) ==> x < total
  {
    if forall x :: Covers(cs, x) ==> x < total {
      forall i | 0 <= i < |cs|
        ensures cs[i].End() <= total
      {
        assert cs[i].Has(cs[i].End() - 1) && Covers(cs, cs[i].End() - 1);
      }
    }
  }

  /** An addition keeps the list in order. */
  lemma AddOrderly(cs: seq<Chunk>, max: nat, c: Chunk, total: nat)
    requires Orderly(cs, max, total) && c.size > 0 && c.End() <= total
    ensures Orderly(Add(cs, max, c), max, total)
  {
    AddRefines(cs, max, c);
    InsideIff(cs, total);
    InsideIff(Add(cs, max, c), total);
    hide Add;
    hide Separated;
    hide Touches;
    hide NonEmpty;
    hide Inside;
    hide Covers;
  }

  /** An addition that is useful makes the list cover more; any other leaves it as it is. */
  lemma AddGrows(cs: seq<Chunk>, max: nat, c: Chunk, total: nat)
    requires Orderly(cs, max, total) && c.size > 0 && c.End() <= total
    ensures var ds := Add(cs, max, c);
            && Orderly(ds, max, total)
            && (Useful(cs, max, c) ==> |Missing(ds, total)| < |Missing(cs, total)|)
            && (!Useful(cs, max, c) ==> ds == cs)
  {
    var ds := Add(cs, max, c);
    AddOrderly(cs, max, c, total);
    HeldAndMissing(cs, total);
    HeldAndMissing(ds, total);
    hide Add;
    hide Held;
    hide Missing;
    hide Covers;
    if Touches(cs, c) || |cs| < max {
      AddRefines(cs, max, c);
      UnionGrows(cs, ds, c, total);
    } else {
      AddEvicts(cs, max, c);
      hide Touches;
      var old_ := cs[Smallest(cs)];
      if old_.size < c.size {
        assert Swaps(cs, ds, old_, c);
        ApartFrom(cs, c, c.offset);
        SwapGrows(cs, ds, old_, c, total);
      }
    }
  }

  lemma UnionGrows(cs: seq<Chunk>, ds: seq<Chunk>, c: Chunk, total: nat)
    requires Separated(cs) && NonEmpty(cs) && Separated(ds) && NonEmpty(ds) && c.End() <= total
    requires forall x :: Covers(ds, x) <==> Covers(cs, x) || c.Has(x)
    ensures (exists x :: c.Has(x) && !Covers(cs, x)) ==> |Held(cs, total)| < |Held(ds, total)|
    ensures !(exists x :: c.Has(x) && !Covers(cs, x)) ==> ds == cs
  {
    Fewer(Held(cs, total), Held(ds, total));
    if exists x :: c.Has(x) && !Covers(cs, x) {
      var x :| c.Has(x) && !Covers(cs, x);
      assert x in Held(ds, total) && x !in Held(cs, total);
    } else {
      Canonical(cs, ds);
    }
  }

  /** A larger chunk in the place of a smaller one. */
  ghost predicate Swaps(cs: seq<Chunk>, ds: seq<Chunk>, old_: Chunk, c: Chunk) {
    forall x :: Covers(ds, x) <==> (Covers(cs, x) && !old_.Has(x)) || c.Has(x)
  }

  lemma SwapGrows(cs: seq<Chunk>, ds: seq<Chunk>, old_: Chunk, c: Chunk, total: nat)
    requires old_ in cs && !Touches(cs, c) && old_.size < c.size && c.End() <= total && Inside(cs, total)
    requires Swaps(cs, ds, old_, c)
    ensures |Held(cs, total)| < |Held(ds, total)|
  {
    SpanSize(old_);
    SpanSize(c);
    forall x
      ensures x in Span(c) ==> x !in Held(cs, total)
      ensures x in Span(old_) ==> x in Held(cs, total)
      ensures x in Held(ds, total) <==> (x in Held(cs, total) && x !in Span(old_)) || x in Span(c)
    {
      SwapAt(cs, ds, old_, c, total, x);
    }
    hide *;
    assert Span(old_) <= Held(cs, total);
    assert Held(ds, total) == (Held(cs, total) - Span(old_)) + Span(c);
    Swapped(Held(cs, total), Span(old_), Span(c));
  }

  lemma SwapAt(cs: seq<Chunk>, ds: seq<Chunk>, old_: Chunk, c: Chunk, total: nat, x: int)
    requires old_ in cs && !Touches(cs, c) && c.End() <= total && Inside(cs, total) && Swaps(cs, ds, old_, c)
    ensures x in Span(c) ==> x !in Held(cs, total)
    ensures x in Span(old_) ==> x in Held(cs, total)
    ensures x in Held(ds, total) <==> (x in Held(cs, total) && x !in Span(old_)) || x in Span(c)
  {
    if c.Has(x) {
      ApartFrom(cs, c, x);
    }
    if old_.Has(x) {
      PartOf(cs, old_, total, x);
    }
    hide Touches;
    hide Inside;
  }

  lemma Swapped(a: set<int>, out: set<int>, in_: set<int>)
    requires out <= a && (a - out) * in_ == {} && |out| < |in_|
    ensures |a| < |(a - out) + in_|
  {
    assert a == (a - out) + out;
  }

  lemma PartOf(cs: seq<Chunk>, c: Chunk, total: nat, x: int)
    requires c in cs && Inside(cs, total) && c.Has(x)
    ensures Covers(cs, x) && 0 <= x < total
  {
    var i :| 0 <= i < |cs| && cs[i] == c;
    assert cs[i].Has(x);
  }

  lemma ApartFrom(cs: seq<Chunk>, c: Chunk, x: int)
    requires !Touches(cs, c) && c.Has(x)
    ensures !Covers(cs, x)
  {
    if Covers(cs, x) {
      var i :| 0 <= i < |cs| && cs[i].Has(x);
      TouchAt(cs, i, c);
    }
  }

  ghost predicate Fit(ps: seq<Chunk>, total: nat) {
    forall i :: 0 <= i < |ps| ==> ps[i].size > 0 && ps[i].End() <= total
  }

  ghost predicate SomeUseful(cs: seq<Chunk>, max: nat, ps: seq<Chunk>) {
    exists i :: 0 <= i < |ps| && Useful(cs, max, ps[i])
  }

  /** The same over all that arrives: whether the missing offsets become fewer is decided by the list
      as it was before. */
  lemma {:induction false} AddAllGrows(cs: seq<Chunk>, max: nat, ps: seq<Chunk>, total: nat)
    requires Orderly(cs, max, total) && Fit(ps, total)
    ensures var ds := AddAll(cs, max, ps);
            && Orderly(ds, max, total)
            && (SomeUseful(cs, max, ps) ==> |Missing(ds, total)| < |Missing(cs, total)|)
            && (!SomeUseful(cs, max, ps) ==> ds == cs)
    decreases |ps|
  {
    if ps != [] {
      var c := ps[0];
      var ds := Add(cs, max, c);
      AddGrows(cs, max, c, total);
      SomeUsefulTail(cs, max, ps);
      hide Orderly;
      hide Useful;
      hide Add;
      hide Missing;
      hide SomeUseful;
      assert Fit(ps[1..], total);
      AddAllGrows(ds, max, ps[1..], total);
    } else {
      assert !SomeUseful(cs, max, ps);
    }
  }

  lemma SomeUsefulTail(cs: seq<Chunk>, max: nat, ps: seq<Chunk>)
    requires ps != []
    ensures SomeUseful(cs, max, ps) <==> Useful(cs, max, ps[0]) || SomeUseful(cs, max, ps[1..])
  {
    hide Useful;
    if SomeUseful(cs, max, ps) {
      var i :| 0 <= i < |ps| && Useful(cs, max, ps[i]);
      assert i > 0 ==> ps[1..][i - 1] == ps[i];
    }
    if SomeUseful(cs, max, ps[1..]) {
      var i :| 0 <= i < |ps[1..]| && Useful(cs, max, ps[1..][i]);
      assert ps[i + 1] == ps[1..][i];
    }
  }
}
