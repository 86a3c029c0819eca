/** CF_ChunkList_t: a bounded array of chunks, of which the first count are in use.
    Every method works on the array in place and is tied to the value-level
    operation of ChunkSpec and GapSpec. */
module ChunkLists {
  import opened ChunkSpec
  import opened GapSpec

  class ChunkList {
    const chunks: array<Chunk>
    var count: nat

    ghost predicate Valid()
      reads this
    {
      count <= chunks.Length && 0 < chunks.Length
    }

    ghost function Contents(): seq<Chunk>
      requires Valid()
      reads this, chunks
    {
      chunks[..count]
    }

    /** CF_ChunkListInit with CF_ChunkListReset. */
    constructor (maxChunks: nat)
      requires 0 < maxChunks
      ensures Valid() && Contents() == [] && chunks.Length == maxChunks && fresh(chunks)
    {
      chunks := new Chunk[maxChunks](_ => Chunk(0, 0));
      count := 0;
    }

    /** CF_Chunks_EraseRange: closes the hole with one block move. */
    method EraseRange(start: nat, end: nat)
      requires Valid() && end <= count
      modifies this, chunks
      ensures Valid()
      ensures Contents() == if start < end then old(Contents())[..start] + old(Contents())[end..] else old(Contents())
    {
      if start < end {
        forall k | start <= k < start + (count - end) {
          chunks[k] := chunks[k + (end - start)];
        }
        count := count - (end - start);
      }
    }

    /** CF_Chunks_EraseChunk. */
    method EraseChunk(index: nat)
      requires Valid() && index < count
      modifies this, chunks
      ensures Valid() && Contents() == Erase(old(Contents()), index)
    {
      forall k | index <= k < count - 1 {
        chunks[k] := chunks[k + 1];
      }
      count := count - 1;
    }

    /** CF_Chunks_InsertChunk. */
    method InsertChunk(before: nat, c: Chunk)
      requires Valid() && count < chunks.Length && before <= count
      modifies this, chunks
      ensures Valid() && Contents() == InsertAt(old(Contents()), before, c)
    {
      if count != 0 && before != count {
        forall k | before < k <= count {
          chunks[k] := chunks[k - 1];
        }
      }
      chunks[before] := c;
      count := count + 1;
    }

    /** CF_Chunks_FindInsertPosition: a binary search for the first offset not below c's. */
    method FindInsertPosition(c: Chunk) returns (first: nat)
      requires Valid() && Separated(Contents())
      ensures first == InsertPos(Contents(), c.offset)
    {
      first := 0;
      var left := count;
      while left > 0
        invariant first + left <= count
        invariant forall k :: 0 <= k < first ==> chunks[k].offset < c.offset
        invariant first + left < count ==> c.offset <= chunks[first + left].offset
      {
        var step := left / 2;
        var i := first + step;
        assert forall k :: 0 <= k < i ==> Contents()[k].End() < Contents()[i].offset;
        if chunks[i].offset < c.offset {
          first := i + 1;
          left := left - (step + 1);
        } else {
          left := step;
        }
      }
      InsertPosUnique(Contents(), c.offset, first);
    }

    /** CF_Chunks_CombinePrevious. */
    method CombinePrevious(i: nat, c: Chunk) returns (combined: bool)
      requires Valid() && i <= count
      requires i > 0 ==> chunks[i - 1].offset <= c.End()
      modifies chunks
      ensures Valid() && combined == JoinsPrevious(old(Contents()), i, c)
      ensures Contents() == if combined then StretchPrevious(old(Contents()), i, c) else old(Contents())
    {
      combined := false;
      if i > 0 {
        var chunkEnd := c.offset + c.size;
        var prevEnd := chunks[i - 1].offset + chunks[i - 1].size;
        if c.offset <= prevEnd {
          if prevEnd < chunkEnd {
            chunks[i - 1] := Chunk(chunks[i - 1].offset, chunkEnd - chunks[i - 1].offset);
          }
          combined := true;
        }
      }
    }

    /** The loop of CF_Chunks_CombineNext: how far the new chunk reaches. */
    method CombineExtent(i: nat, chunkEnd: nat) returns (combinedI: nat)
      requires Valid() && i <= count
      ensures combinedI == MergeEnd(Contents(), i, chunkEnd)
    {
      combinedI := i;
      while combinedI < count && chunkEnd >= chunks[combinedI].offset
        invariant i <= combinedI <= count
        invariant forall j :: i <= j < combinedI ==> chunks[j].offset <= chunkEnd
      {
        combinedI := combinedI + 1;
      }
      MergeEndUnique(Contents(), i, chunkEnd, combinedI);
    }

    /** The end of CF_Chunks_CombineNext: the slot at i takes the combined entry, the rest up to k goes. */
    method Collapse(i: nat, k: nat, c: Chunk)
      requires Valid() && i < k <= count && c.offset <= c.End()
      modifies this, chunks
      ensures Valid() && Contents() == MergeNext(old(Contents()), i, k, c)
    {
      ghost var was := Contents();
      var chunkEnd := Max(chunks[k - 1].offset + chunks[k - 1].size, c.offset + c.size);
      chunks[i] := Chunk(c.offset, chunkEnd - c.offset);
      assert Contents() == was[i := chunks[i]];
      EraseRange(i + 1, k);
      MergeNextSteps(was, i, k, c);
      hide MergeNext;
    }

    /** CF_Chunks_CombineNext. */
    method CombineNext(i: nat, c: Chunk, ghost k: nat) returns (combined: bool)
      requires Valid() && i <= count && k == MergeEnd(Contents(), i, c.End())
      modifies this, chunks
      ensures Valid() && combined == (i < k)
      ensures Contents() == if combined then MergeNext(old(Contents()), i, k, c) else old(Contents())
    {
      hide MergeNext;
      var combinedI := CombineExtent(i, c.offset + c.size);
      hide MergeEnd;
      combined := false;
      if i != combinedI {
        Collapse(i, combinedI, c);
        combined := true;
      }
    }

    /** CF_Chunks_FindSmallestSize. */
    method FindSmallestSize() returns (smallest: nat)
      requires Valid() && count > 0
      ensures smallest == Smallest(Contents())
    {
      smallest := 0;
      for i := 1 to count
        invariant smallest < i
        invariant forall k :: 0 <= k < i ==> chunks[smallest].size <= chunks[k].size
        invariant forall k :: 0 <= k < smallest ==> chunks[smallest].size < chunks[k].size
      {
        if chunks[i].size < chunks[smallest].size {
          smallest := i;
        }
      }
      SmallestUnique(Contents(), smallest);
    }

    /** The last branch of CF_Chunks_Insert: the list is full. */
    method ReplaceSmallest(c: Chunk)
      requires Valid() && Separated(Contents()) && count == chunks.Length
      modifies this, chunks
      ensures Valid()
      ensures var was := old(Contents());
              var s := Smallest(was);
              Contents() == if was[s].size < c.size
                            then InsertAt(Erase(was, s), InsertPos(Erase(was, s), c.offset), c)
                            else was
    {
      var s := FindSmallestSize();
      if chunks[s].size < c.size {
        EraseKeeps(Contents(), s);
        EraseChunk(s);
        var p := FindInsertPosition(c);
        InsertChunk(p, c);
      }
    }

    /** CF_Chunks_Insert. */
    method Insert(i: nat, c: Chunk)
      requires Valid() && Separated(Contents()) && i == InsertPos(Contents(), c.offset)
      modifies this, chunks
      ensures Valid() && Contents() == Add(old(Contents()), chunks.Length, c)
    {
      hide InsertPos;
      hide MergeEnd;
      hide Separated;
      var next := CombineNext(i, c, MergeEnd(Contents(), i, c.End()));
      if next {
        assert chunks[i] == Contents()[i] && (i > 0 ==> chunks[i - 1] == Contents()[i - 1]);
        var combined := CombinePrevious(i, chunks[i]);
        if combined {
          EraseChunk(i);
        }
      } else {
        var combined := CombinePrevious(i, c);
        if !combined {
          if count < chunks.Length {
            InsertChunk(i, c);
          } else {
            ReplaceSmallest(c);
          }
        }
      }
    }

    /** CF_ChunkListAdd.  The source asserts that offset + size does not wrap around 32 bits. */
    method ListAdd(offset: nat, size: nat)
      requires Valid() && Separated(Contents())
      requires offset + size < 0x1_0000_0000
      modifies this, chunks
      ensures Valid() && Separated(Contents())
      ensures Contents() == Add(old(Contents()), chunks.Length, Chunk(offset, size))
    {
      var c := Chunk(offset, size);
      AddRefines(Contents(), chunks.Length, c);
      var i := FindInsertPosition(c);
      Insert(i, c);
    }

    /** CF_ChunkList_RemoveFromFirst; the source forbids calling it on an empty list. */
    method ListRemoveFromFirst(size: nat)
      requires Valid() && Separated(Contents()) && count > 0
      modifies this, chunks
      ensures Valid() && Separated(Contents())
      ensures Contents() == RemoveFromFirst(old(Contents()), size)
    {
      RemoveUncovers(Contents(), size);
      var n := if size > chunks[0].size then chunks[0].size else size;
      chunks[0] := Chunk(chunks[0].offset, chunks[0].size - n);
      if chunks[0].size == 0 {
        EraseChunk(0);
      } else {
        chunks[0] := Chunk(chunks[0].offset + n, chunks[0].size);
      }
    }

    /** CF_ChunkList_GetFirstChunk. */
    method GetFirstChunk() returns (found: bool, c: Chunk)
      requires Valid()
      ensures found == (Contents() != []) && (found ==> c == Contents()[0])
    {
      found, c := count != 0, chunks[0];
    }

    /** The loop of CF_ChunkList_ComputeGaps, after first has been reported. */
    method GapLoop(maxGaps: nat, total: nat, start: nat, first: seq<Chunk>) returns (gaps: seq<Chunk>)
      requires Valid() && Separated(Contents()) && start < total
      ensures gaps == first + GapsFrom(Contents(), 0, Room(maxGaps, |first|), total, start)
    {
      hide GapsFrom;
      ghost var cs := Contents();
      gaps := first;
      var i := 0;
      while |gaps| < maxGaps && i < count
        invariant i <= count
        invariant gaps + GapsFrom(cs, i, Room(maxGaps, |gaps|), total, start) ==
                  first + GapsFrom(cs, 0, Room(maxGaps, |first|), total, start)
      {
        GapsFromStep(cs, i, Room(maxGaps, |gaps|), total, start);
        var nextOff := if i == count - 1 then total else chunks[i + 1].offset;
        var gapStart := chunks[i].offset + chunks[i].size;
        var from := if gapStart > start then gapStart else start;
        if gapStart >= total {
          return;
        } else if start < nextOff {
          gaps := gaps + [Chunk(from, nextOff - from)];
        }
        i := i + 1;
      }
      GapsFromStep(cs, i, Room(maxGaps, |gaps|), total, start);
    }

    /** CF_ChunkList_ComputeGaps: the sequence of gaps handed to the callback; its length is the
        returned count. */
    method ListComputeGaps(maxGaps: nat, total: nat, start: nat) returns (gaps: seq<Chunk>)
      requires Valid() && Separated(Contents()) && start <= total
      ensures gaps == ComputeGaps(Contents(), maxGaps, total, start)
    {
      gaps := [];
      if start == total {
      } else if count == 0 {
        gaps := [Chunk(0, total)];
      } else {
        hide GapsFrom;
        if start < chunks[0].offset {
          gaps := [Chunk(start, chunks[0].offset - start)];
        }
        gaps := GapLoop(maxGaps, total, start, gaps);
      }
    }
  }
}
