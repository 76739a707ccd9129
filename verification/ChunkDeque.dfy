/** The deques of byte chunks behind a stream's read and write buffers (tornado/iostream.py). */
module ChunkDeques {
  import opened Bytes

  class ChunkDeque {
    var chunks: seq<Bytes>

    ghost predicate NoEmptyChunk()
      reads this
    {
      forall i :: 0 <= i < |chunks| ==> chunks[i] != []
    }

    ghost function Contents(): Bytes
      reads this
    {
      Flatten(chunks)
    }

    constructor ()
      ensures chunks == []
    {
      chunks := [];
    }

    method Append(chunk: Bytes)
      modifies this
      ensures chunks == old(chunks) + [chunk]
      ensures Contents() == old(Contents()) + chunk
    {
      FlattenSnoc(chunks, chunk);
      chunks := chunks + [chunk];
    }

    method PopLeft() returns (chunk: Bytes)
      requires chunks != []
      modifies this
      ensures chunk == old(chunks)[0] && chunks == old(chunks)[1..]
      ensures old(Contents()) == chunk + Contents()
    {
      chunk := chunks[0];
      chunks := chunks[1..];
    }

    method AppendLeft(chunk: Bytes)
      modifies this
      ensures chunks == [chunk] + old(chunks)
      ensures Contents() == chunk + old(Contents())
    {
      chunks := [chunk] + chunks;
      assert chunks[1..] == old(chunks);
    }

    /** The first chunk, or as much of it as is wanted; the rest of it stays. */
    method PopUpTo(wanted: nat) returns (chunk: Bytes)
      requires chunks != [] && wanted > 0
      modifies this
      ensures old(Contents()) == chunk + Contents() && |chunk| <= wanted
      ensures |chunks| <= |old(chunks)|
      ensures |chunk| < wanted ==> |chunks| == |old(chunks)| - 1
      ensures old(NoEmptyChunk()) ==> NoEmptyChunk() && chunk != []
    {
      chunk := PopLeft();
      if |chunk| > wanted {
        AppendLeft(chunk[wanted..]);
        assert chunk == chunk[..wanted] + chunk[wanted..];
        chunk := chunk[..wanted];
      }
    }

    /** Re-cuts the deque so that its first chunk is the first `size` bytes, or everything when
        there are fewer; no byte is lost, added or moved. */
    method MergePrefix(size: nat)
      modifies this
      ensures Contents() == old(Contents())
      ensures chunks != []
      ensures size == 0 ==> chunks == if old(chunks) == [] then [[]] else old(chunks)
      ensures size > 0 ==> chunks[0] == Contents()[..Min(size, |Contents()|)]
      ensures size > 0 && size >= |Contents()| ==> |chunks| == 1 || !old(NoEmptyChunk())
      ensures |chunks| <= |old(chunks)| + 1
      ensures old(NoEmptyChunk()) && old(chunks) != [] ==> NoEmptyChunk()
    {
      if |chunks| == 1 && |chunks[0]| <= size {
        FlattenOne(chunks[0]);
        assert chunks == [chunks[0]];
        return;
      }
      var prefix: seq<Bytes> := [];
      var remaining := size;
      while chunks != [] && remaining > 0
        invariant old(Contents()) == Flatten(prefix) + Contents()
        invariant |Flatten(prefix)| + remaining == size
        invariant |prefix| + |chunks| <= |old(chunks)| + 1
        invariant remaining > 0 ==> |prefix| + |chunks| == |old(chunks)|
        invariant prefix == [] ==> chunks == old(chunks) && remaining == size
        invariant 0 <= remaining && (size == 0 ==> prefix == [])
        invariant old(NoEmptyChunk()) ==> NoEmptyChunk() && (prefix != [] ==> Flatten(prefix) != [])
        decreases remaining, |chunks|
      {
        var chunk := PopUpTo(remaining);
        FlattenSnoc(prefix, chunk);
        prefix := prefix + [chunk];
        remaining := remaining - |chunk|;
      }
      ghost var whole := Flatten(prefix) + Contents();
      FirstBytes(Flatten(prefix), Contents(), size);
      if prefix != [] {
        AppendLeft(Flatten(prefix));
      }
      ghost var merged := chunks;
      if chunks == [] {
        AppendLeft([]);
      }
      if size > 0 && merged != [] {
        assert Contents() == chunks[0] + Flatten(chunks[1..]);
      }
      if size > 0 && size >= |Contents()| && old(NoEmptyChunk()) && |chunks| > 1 {
        NonEmptyTail(chunks);
      }
    }

    /** Grows the first chunk, to at least twice its length if there is that much. */
    method DoublePrefix()
      requires |chunks| >= 2
      modifies this
      ensures Contents() == old(Contents())
      ensures old(NoEmptyChunk()) ==>
                NoEmptyChunk() && chunks != [] && |chunks[0]| > |old(chunks)[0]| &&
                |chunks[0]| <= |Contents()| && chunks[0] == Contents()[..|chunks[0]|]
      ensures old(chunks)[0] == old(chunks)[1] == [] ==> chunks == old(chunks)
    {
      var newLen := if |chunks[0]| * 2 > |chunks[0]| + |chunks[1]| then |chunks[0]| * 2
                    else |chunks[0]| + |chunks[1]|;
      assert Contents() == chunks[0] + Flatten(chunks[1..]);
      assert Flatten(chunks[1..]) == chunks[1] + Flatten(chunks[1..][1..]);
      assert |Contents()| >= |chunks[0]| + |chunks[1]|;
      MergePrefix(newLen);
    }
  }

  /** With no empty chunk, a first chunk followed by others is not the whole contents. */
  lemma NonEmptyTail(chunks: seq<Bytes>)
    requires |chunks| > 1
    requires forall i :: 0 <= i < |chunks| ==> chunks[i] != []
    ensures |chunks[0]| < |Flatten(chunks)|
  {
    assert chunks[1..][0] == chunks[1];
  }

  /** The hazard that the no-empty-chunk rule guards against: two empty chunks in front make
      `DoublePrefix` ask for a zero-length prefix, and the deque stays as it is for ever. */
  method DoublePrefixStalls(d: ChunkDeque, rest: seq<Bytes>)
    requires d.chunks == [[], []] + rest
    modifies d
    ensures d.chunks == old(d.chunks)
  {
    d.DoublePrefix();
  }

  lemma FirstBytes(first: Bytes, rest: Bytes, size: nat)
    requires |first| == size || (|first| < size && rest == [])
    ensures first == (first + rest)[..Min(size, |first + rest|)]
  {
  }
}
