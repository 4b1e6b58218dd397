/**
 * The earlier chunker draft of `modules/client/src/FileChunker.ts`: no
 * partitions; one `nextPartition()` call reads and hands out 64000-byte
 * slices from `offset` until `offset` reaches the file size.
 */
module DraftChunking {
  import opened Base

  const DraftChunkSize: nat := 64000

  /**
   * The slices a call hands out for the bytes `rest` still unread: the slice
   * is read before the size test, so an empty remainder still gives one
   * (empty) chunk.
   */
  function DraftChunks(rest: seq<byte>): seq<seq<byte>>
    decreases |rest|
  {
    if |rest| <= DraftChunkSize then [rest]
    else [rest[..DraftChunkSize]] + DraftChunks(rest[DraftChunkSize..])
  }

  /** Round trip: the chunks concatenate to the remainder of the file. */
  lemma {:induction false} DraftChunksConcatenate(rest: seq<byte>)
    ensures Flatten(DraftChunks(rest)) == rest
    decreases |rest|
  {
    if |rest| <= DraftChunkSize {
      assert Flatten([rest]) == Flatten([]) + rest;
    } else {
      DraftChunksConcatenate(rest[DraftChunkSize..]);
      FlattenCons(rest[..DraftChunkSize], DraftChunks(rest[DraftChunkSize..]));
      assert rest == rest[..DraftChunkSize] + rest[DraftChunkSize..];
    }
  }

  /**
   * Every chunk is at most 64000 bytes, every chunk but the last is exactly
   * 64000 bytes, and there are max(1, ceil(|rest| / 64000)) of them.
   */
  lemma {:induction false} DraftChunksSizes(rest: seq<byte>)
    ensures var cs := DraftChunks(rest);
      && |cs| == (if |rest| == 0 then 1 else (|rest| + DraftChunkSize - 1) / DraftChunkSize)
      && (forall i :: 0 <= i < |cs| ==> |cs[i]| <= DraftChunkSize)
      && (forall i :: 0 <= i < |cs| - 1 ==> |cs[i]| == DraftChunkSize)
    decreases |rest|
  {
    var cs := DraftChunks(rest);
    if |rest| > DraftChunkSize {
      var tail := rest[DraftChunkSize..];
      DraftChunksSizes(tail);
      assert cs == [rest[..DraftChunkSize]] + DraftChunks(tail);
      assert (|tail| + DraftChunkSize - 1) / DraftChunkSize + 1
          == (|rest| + DraftChunkSize - 1) / DraftChunkSize;
      forall i | 0 <= i < |cs|
        ensures |cs[i]| <= DraftChunkSize
        ensures i < |cs| - 1 ==> |cs[i]| == DraftChunkSize
      {
        if i > 0 { assert cs[i] == DraftChunks(tail)[i - 1]; }
      }
    }
  }

  /** The draft chunker: `offset` advances in place after each slice. */
  class DraftChunker {
    const file: seq<byte>
    var offset: nat

    constructor (file: seq<byte>)
      ensures this.file == file && offset == 0
    {
      this.file := file;
      offset := 0;
    }

    /** `nextPartition()`, with its re-invocation from the read callback as a loop. */
    method NextPartition() returns (chunks: seq<seq<byte>>)
      requires offset <= |file|
      modifies this
      ensures offset == |file|
      ensures chunks == DraftChunks(file[old(offset)..])
    {
      ghost var goal := DraftChunks(file[offset..]);
      chunks := [];
      while true
        invariant offset <= |file|
        invariant goal == chunks + DraftChunks(file[offset..])
        decreases |file| - offset
      {
        ghost var rest := file[offset..];
        var chunk := BlobSlice(file, offset, offset + DraftChunkSize);
        chunks := chunks + [chunk];
        offset := offset + |chunk|;
        if offset >= |file| {
          assert chunk == rest;
          return;
        }
        assert chunk == rest[..DraftChunkSize] && file[offset..] == rest[DraftChunkSize..];
      }
    }
  }
}
