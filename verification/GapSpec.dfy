/** The gaps CF_ChunkList_ComputeGaps reports, measured against the uncovered offsets. */
module GapSpec {
  import opened ChunkSpec

  /** The gap after chunk i ends where the next chunk starts; after the last one, at total. */
  function NextStart(cs: seq<Chunk>, i: nat, total: nat): nat
    requires i < |cs|
  {
    if i == |cs| - 1 then total else cs[i + 1].offset
  }

  /** The gaps the loop reports from chunk i on, at most room of them. */
  function GapsFrom(cs: seq<Chunk>, i: nat, room: nat, total: nat, start: nat): seq<Chunk>
    requires i <= |cs|
    decreases |cs| - i
  {
    if room == 0 || i == |cs| || cs[i].End() >= total then []
    else
      var from, next := Max(cs[i].End(), start), NextStart(cs, i, total);
      if start < next && from <= next
      then [Chunk(from, next - from)] + GapsFrom(cs, i + 1, room - 1, total, start)
      else GapsFrom(cs, i + 1, room, total, start)
  }

  lemma GapsFromStep(cs: seq<Chunk>, i: nat, room: nat, total: nat, start: nat)
    requires i <= |cs| && Separated(cs) && start < total
    ensures var g := GapsFrom(cs, i, room, total, start);
            if room == 0 || i == |cs| || cs[i].End() >= total then g == []
            else
              var from, next := Max(cs[i].End(), start), NextStart(cs, i, total);
              if start < next then
                from <= next && g == [Chunk(from, next - from)] + GapsFrom(cs, i + 1, room - 1, total, start)
              else g == GapsFrom(cs, i + 1, room, total, start)
  {}

  /** The gap before the first chunk. */
  function InitialGap(cs: seq<Chunk>, start: nat): seq<Chunk>
    requires cs != []
  {
    if start < cs[0].offset then [Chunk(start, cs[0].offset - start)] else []
  }

  function ComputeGaps(cs: seq<Chunk>, maxGaps: nat, total: nat, start: nat): seq<Chunk>
    requires start <= total
  {
    if start == total then []
    else if cs == [] then [Chunk(0, total)]
    else
      var first := InitialGap(cs, start);
      first + GapsFrom(cs, 0, Room(maxGaps, |first|), total, start)
  }

  function Room(maxGaps: nat, used: nat): nat {
    if used < maxGaps then maxGaps - used else 0
  }

  lemma ComputeGapsSplit(cs: seq<Chunk>, maxGaps: nat, total: nat, start: nat)
    requires start < total && cs != []
    ensures var first := InitialGap(cs, start);
            ComputeGaps(cs, maxGaps, total, start) == first + GapsFrom(cs, 0, Room(maxGaps, |first|), total, start)
  {}

  /** Every gap of the file, whatever the limit on their number. */
  function AllGaps(cs: seq<Chunk>, total: nat, start: nat): seq<Chunk>
    requires start <= total
  {
    ComputeGaps(cs, |cs| + 1, total, start)
  }

  lemma {:induction false} GapsFromUncovered(cs: seq<Chunk>, i: nat, room: nat, total: nat, start: nat, x: int)
    requires i <= |cs| && Separated(cs) && start < total
    requires Covers(GapsFrom(cs, i, room, total, start), x)
    ensures !Covers(cs, x) && start <= x && (i < |cs| ==> cs[i].End() <= x)
    decreases |cs| - i
  {
    var g := GapsFrom(cs, i, room, total, start);
    var j :| 0 <= j < |g| && g[j].Has(x);
    var from, next := Max(cs[i].End(), start), NextStart(cs, i, total);
    if start < next && from <= next && j == 0 {
      BetweenUncovered(cs, i, x);
    } else if start < next && from <= next {
      assert GapsFrom(cs, i + 1, room - 1, total, start)[j - 1] == g[j];
      GapsFromUncovered(cs, i + 1, room - 1, total, start, x);
    } else {
      GapsFromUncovered(cs, i + 1, room, total, start, x);
    }
  }

  lemma BetweenUncovered(cs: seq<Chunk>, i: nat, x: int)
    requires i < |cs| && Separated(cs)
    requires cs[i].End() <= x && (i + 1 < |cs| ==> x < cs[i + 1].offset)
    ensures !Covers(cs, x)
  {
    assert forall j :: 0 <= j < i ==> cs[j].End() < cs[i].offset;
    assert forall j :: i + 1 < j < |cs| ==> cs[i + 1].End() < cs[j].offset;
  }

  lemma {:induction false} GapsFromComplete(cs: seq<Chunk>, i: nat, room: nat, total: nat, start: nat, x: int)
    requires i < |cs| && Separated(cs) && room >= |cs| - i
    requires start <= x < total && cs[i].offset <= x && !Covers(cs, x)
    ensures Covers(GapsFrom(cs, i, room, total, start), x)
    decreases |cs| - i
  {
    var g := GapsFrom(cs, i, room, total, start);
    var from, next := Max(cs[i].End(), start), NextStart(cs, i, total);
    assert !cs[i].Has(x);
    if x < next {
      assert g[0].Has(x);
    } else {
      var rest := GapsFrom(cs, i + 1, if start < next then room - 1 else room, total, start);
      GapsFromComplete(cs, i + 1, if start < next then room - 1 else room, total, start, x);
      var j :| 0 <= j < |rest| && rest[j].Has(x);
      assert g[if start < next then j + 1 else j].Has(x);
    }
  }

  lemma {:induction false} GapsFromSeparated(cs: seq<Chunk>, i: nat, room: nat, total: nat, start: nat)
    requires i <= |cs| && Separated(cs) && NonEmpty(cs) && start < total
    ensures var g := GapsFrom(cs, i, room, total, start);
            Separated(g) && NonEmpty(g) &&
            (i < |cs| ==> forall j :: 0 <= j < |g| ==> cs[i].End() <= g[j].offset) &&
            (forall j :: 0 <= j < |g| ==> start <= g[j].offset < total)
    decreases |cs| - i
  {
    if !(room == 0 || i == |cs| || cs[i].End() >= total) {
      var from, next := Max(cs[i].End(), start), NextStart(cs, i, total);
      GapsFromSeparated(cs, i + 1, if start < next then room - 1 else room, total, start);
      var g := GapsFrom(cs, i, room, total, start);
      var rest := GapsFrom(cs, i + 1, if start < next then room - 1 else room, total, start);
      assert g == if start < next then [Chunk(from, next - from)] + rest else rest;
    }
  }

  lemma GapsUncovered(cs: seq<Chunk>, total: nat, start: nat, x: int)
    requires Separated(cs) && start <= total && (cs != [] || start == 0)
    requires Covers(AllGaps(cs, total, start), x)
    ensures start <= x && !Covers(cs, x)
  {
    if cs != [] {
      var first := InitialGap(cs, start);
      var rest := GapsFrom(cs, 0, |cs| + 1 - |first|, total, start);
      var all := AllGaps(cs, total, start);
      assert all == first + rest;
      var j :| 0 <= j < |all| && all[j].Has(x);
      if j < |first| {
        assert forall k :: 0 < k < |cs| ==> cs[0].End() < cs[k].offset;
      } else {
        assert rest[j - |first|].Has(x);
        GapsFromUncovered(cs, 0, |cs| + 1 - |first|, total, start, x);
      }
    }
  }

  lemma GapsComplete(cs: seq<Chunk>, total: nat, start: nat, x: int)
    requires Separated(cs) && start <= x < total && (cs != [] || start == 0)
    requires !Covers(cs, x)
    ensures Covers(AllGaps(cs, total, start), x)
  {
    var all := AllGaps(cs, total, start);
    if cs == [] || x < cs[0].offset {
      assert all[0].Has(x);
    } else {
      var first := InitialGap(cs, start);
      var rest := GapsFrom(cs, 0, |cs| + 1 - |first|, total, start);
      GapsFromComplete(cs, 0, |cs| + 1 - |first|, total, start, x);
      var j :| 0 <= j < |rest| && rest[j].Has(x);
      assert all[|first| + j].Has(x);
    }
  }

  lemma PrependSeparated(g: Chunk, rest: seq<Chunk>, after: nat)
    requires Separated(rest) && NonEmpty(rest) && g.size > 0 && g.End() < after
    requires forall j :: 0 <= j < |rest| ==> after <= rest[j].offset
    ensures Separated([g] + rest) && NonEmpty([g] + rest)
  {}

  lemma GapsSeparated(cs: seq<Chunk>, total: nat, start: nat)
    requires Separated(cs) && NonEmpty(cs) && start <= total && (cs != [] || start == 0)
    ensures Separated(AllGaps(cs, total, start)) && NonEmpty(AllGaps(cs, total, start))
  {
    if start < total && cs != [] {
      assert cs[0].size > 0;
      hide GapsFrom;
      hide ComputeGaps;
      hide Separated;
      hide NonEmpty;
      var first := InitialGap(cs, start);
      var room := Room(|cs| + 1, |first|);
      ComputeGapsSplit(cs, |cs| + 1, total, start);
      GapsFromSeparated(cs, 0, room, total, start);
      var rest := GapsFrom(cs, 0, room, total, start);
      if first == [] {
        assert first + rest == rest;
      } else {
        PrependSeparated(first[0], rest, cs[0].End());
        assert first == [first[0]];
      }
    }
  }

  /** Where the report begins: for an empty list at the beginning of the file. */
  function ReportStart(cs: seq<Chunk>, total: nat, start: nat): nat { if cs == [] && start < total then 0 else start }

  /** The gaps are exactly the maximal uncovered runs: separated, never empty, in increasing order,
      and inside the reported range they contain an offset just when the list does not. */
  lemma GapsAreTheUncoveredRuns(cs: seq<Chunk>, total: nat, start: nat)
    requires Separated(cs) && start <= total
    ensures var gaps, from := AllGaps(cs, total, start), ReportStart(cs, total, start);
            && (forall x :: from <= x < total ==> (Covers(gaps, x) <==> !Covers(cs, x)))
            && (forall x :: Covers(gaps, x) ==> from <= x && !Covers(cs, x))
            && (NonEmpty(cs) ==> Separated(gaps) && NonEmpty(gaps))
  {
    var from := ReportStart(cs, total, start);
    assert AllGaps(cs, total, start) == AllGaps(cs, total, from);
    if from < total {
      forall x
        ensures Covers(AllGaps(cs, total, from), x) ==> from <= x && !Covers(cs, x)
        ensures from <= x < total && !Covers(cs, x) ==> Covers(AllGaps(cs, total, from), x)
      {
        if Covers(AllGaps(cs, total, from), x) {
          GapsUncovered(cs, total, from, x);
        }
        if from <= x < total && !Covers(cs, x) {
          GapsComplete(cs, total, from, x);
        }
      }
    }
    if NonEmpty(cs) && from < total {
      GapsSeparated(cs, total, from);
    }
  }

  /** An empty list with a nonzero start is the exception: the one reported gap is the whole file. */
  lemma EmptyListIgnoresStart(maxGaps: nat, total: nat, start: nat)
    requires start <= total
    ensures ComputeGaps([], maxGaps, total, start) == [Chunk(start, total - start)] <==> start == 0 && total > 0
  {}

  lemma {:induction false} GapsFromLimit(cs: seq<Chunk>, i: nat, room: nat, more: nat, total: nat, start: nat)
    requires i <= |cs| && room <= more
    ensures var g, all := GapsFrom(cs, i, room, total, start), GapsFrom(cs, i, more, total, start);
            g <= all && |g| == (if |all| < room then |all| else room)
    decreases |cs| - i
  {
    if !(room == 0 || i == |cs| || cs[i].End() >= total) {
      GapsFromLimit(cs, i + 1, room - 1, more - 1, total, start);
      GapsFromLimit(cs, i + 1, room, more, total, start);
    }
  }

  lemma {:induction false} GapsFromBound(cs: seq<Chunk>, i: nat, room: nat, total: nat, start: nat)
    requires i <= |cs|
    ensures |GapsFrom(cs, i, room, total, start)| <= |cs| - i
    ensures room >= |cs| - i ==> GapsFrom(cs, i, room, total, start) == GapsFrom(cs, i, |cs| - i, total, start)
    decreases |cs| - i
  {
    if room >= |cs| - i {
      GapsFromRoom(cs, i, room, |cs| - i, total, start);
    }
    hide NextStart;
    if !(room == 0 || i == |cs| || cs[i].End() >= total) {
      GapsFromBound(cs, i + 1, room - 1, total, start);
      GapsFromBound(cs, i + 1, room, total, start);
    }
  }

  /** Room for every chunk that is left is as good as more. */
  lemma {:induction false} GapsFromRoom(cs: seq<Chunk>, i: nat, r: nat, s: nat, total: nat, start: nat)
    requires i <= |cs| && r >= |cs| - i && s >= |cs| - i
    ensures GapsFrom(cs, i, r, total, start) == GapsFrom(cs, i, s, total, start)
    decreases |cs| - i
  {
    hide NextStart;
    if i < |cs| {
      GapsFromRoom(cs, i + 1, r - 1, s - 1, total, start);
      GapsFromRoom(cs, i + 1, r, s, total, start);
    }
  }

  /** A limit yields the first gaps only.  The gap before the first chunk is reported even when the
      limit is zero: that is the one case where more gaps come back than were asked for. */
  lemma GapsLimited(cs: seq<Chunk>, maxGaps: nat, total: nat, start: nat)
    requires start <= total
    ensures var g, all := ComputeGaps(cs, maxGaps, total, start), AllGaps(cs, total, start);
            && g <= all
            && (maxGaps > 0 ==> |g| == if |all| < maxGaps then |all| else maxGaps)
            && (maxGaps == 0 ==> (|g| == 0 <==> start == total || (cs != [] && cs[0].offset <= start)))
  {
    if start < total && cs != [] {
      var first := InitialGap(cs, start);
      var room := if |first| < maxGaps then maxGaps - |first| else 0;
      var full := |cs| + 1 - |first|;
      if room <= full {
        GapsFromLimit(cs, 0, room, full, total, start);
      } else {
        GapsFromBound(cs, 0, room, total, start);
        GapsFromBound(cs, 0, full, total, start);
      }
    }
  }

  /** Asking for a single gap decides completeness: none comes back just when all of
      [start, total) is covered. */
  lemma NoGapIffCovered(cs: seq<Chunk>, maxGaps: nat, total: nat)
    requires Separated(cs) && maxGaps > 0
    ensures ComputeGaps(cs, maxGaps, total, 0) == [] <==> forall x :: 0 <= x < total ==> Covers(cs, x)
  {
    GapsLimited(cs, maxGaps, total, 0);
    GapsAreTheUncoveredRuns(cs, total, 0);
    var all := AllGaps(cs, total, 0);
    if all != [] {
      FirstGapOffset(cs, maxGaps, total);
    }
  }

  /** The first gap starts inside the file, at an uncovered offset. */
  lemma FirstGapOffset(cs: seq<Chunk>, maxGaps: nat, total: nat)
    requires Separated(cs) && AllGaps(cs, total, 0) != []
    ensures AllGaps(cs, total, 0)[0].offset < total && AllGaps(cs, total, 0)[0].size > 0
    ensures !Covers(cs, AllGaps(cs, total, 0)[0].offset)
  {
    var g := AllGaps(cs, total, 0)[0];
    assert g.size > 0 && g.offset < total;
    assert g.Has(g.offset) && Covers(AllGaps(cs, total, 0), g.offset);
    GapsUncovered(cs, total, 0, g.offset);
  }

  /** Each gap ends at the start of a chunk, or at total when no chunk lies beyond it. */
  lemma {:induction false} GapsFromEnd(cs: seq<Chunk>, i: nat, room: nat, total: nat, start: nat, j: nat)
    requires i <= |cs| && Separated(cs) && j < |GapsFrom(cs, i, room, total, start)|
    ensures var end := GapsFrom(cs, i, room, total, start)[j].End();
            StartsAt(cs, end) || (end == total && forall k :: 0 <= k < |cs| ==> cs[k].End() < total)
    decreases |cs| - i
  {
    var from, next := Max(cs[i].End(), start), NextStart(cs, i, total);
    if start < next && from <= next && j == 0 {
      if i < |cs| - 1 {
        assert StartsAt(cs, next);
      } else {
        assert forall k :: 0 <= k < i ==> cs[k].End() < cs[i].offset;
      }
    } else if start < next && from <= next {
      GapsFromEnd(cs, i + 1, room - 1, total, start, j - 1);
    } else {
      GapsFromEnd(cs, i + 1, room, total, start, j);
    }
  }

  ghost predicate StartsAt(cs: seq<Chunk>, x: int) {
    exists k :: 0 <= k < |cs| && cs[k].offset == x
  }

  lemma StartsCovered(cs: seq<Chunk>, x: int)
    requires NonEmpty(cs)
    ensures StartsAt(cs, x) ==> Covers(cs, x)
  {
    if StartsAt(cs, x) {
      var k :| 0 <= k < |cs| && cs[k].offset == x;
      assert cs[k].Has(x);
    }
  }

  lemma GapEnd(cs: seq<Chunk>, total: nat, start: nat, j: nat)
    requires cs != [] && Separated(cs) && start < total && j < |AllGaps(cs, total, start)|
    ensures var end := AllGaps(cs, total, start)[j].End();
            StartsAt(cs, end) || (end == total && forall k :: 0 <= k < |cs| ==> cs[k].End() < total)
  {
    var first := InitialGap(cs, start);
    if j < |first| {
      assert StartsAt(cs, cs[0].offset);
    } else {
      GapsFromEnd(cs, 0, |cs| + 1 - |first|, total, start, j - |first|);
    }
  }

  lemma GapOffset(cs: seq<Chunk>, total: nat, start: nat, j: nat)
    requires cs != [] && Separated(cs) && NonEmpty(cs) && start < total && j < |AllGaps(cs, total, start)|
    ensures start <= AllGaps(cs, total, start)[j].offset < total
  {
    var first := InitialGap(cs, start);
    var room := Room(|cs| + 1, |first|);
    ComputeGapsSplit(cs, |cs| + 1, total, start);
    GapsFromSeparated(cs, 0, room, total, start);
    hide GapsFrom;
    hide ComputeGaps;
    hide Separated;
    if j >= |first| {
      assert AllGaps(cs, total, start)[j] == GapsFrom(cs, 0, room, total, start)[j - |first|];
    }
  }

  /** A gap reaches beyond total just when a chunk lies wholly beyond it and the file's last
      offset and the one after are uncovered: the reported end is never clipped. */
  lemma GapBeyondTotal(cs: seq<Chunk>, total: nat, start: nat)
    requires Separated(cs) && NonEmpty(cs) && cs != [] && start < total
    ensures Covers(AllGaps(cs, total, start), total) <==>
            !Covers(cs, total - 1) && !Covers(cs, total) && exists i :: 0 <= i < |cs| && cs[i].offset > total
  {
    var all := AllGaps(cs, total, start);
    if Covers(all, total) {
      var j :| 0 <= j < |all| && all[j].Has(total);
      GapOffset(cs, total, start, j);
      assert all[j].Has(total - 1) && Covers(all, total - 1);
      GapsUncovered(cs, total, start, total - 1);
      GapsUncovered(cs, total, start, total);
      GapEnd(cs, total, start, j);
    }
    if !Covers(cs, total - 1) && !Covers(cs, total) && exists i :: 0 <= i < |cs| && cs[i].offset > total {
      GapsComplete(cs, total, start, total - 1);
      var j :| 0 <= j < |all| && all[j].Has(total - 1);
      GapEnd(cs, total, start, j);
      StartsCovered(cs, total);
      assert all[j].Has(total);
    }
  }
}
