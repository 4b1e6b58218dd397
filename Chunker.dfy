/**
 * The sender's chunker of `modules/client/src/utils/Network.ts`: it reads a
 * file in 64000-byte slices, hands every slice to the transport and, once the
 * bytes read since the start of a partition reach 1,000,000, signals the end
 * of that partition with the cumulative offset and waits to be resumed.
 * The FileReader callback chain `_readChunk -> _onChunkRead -> _readChunk`
 * is modelled as recursion: each read completes before the next one starts.
 */
module Chunking {
  import opened Base

  const ChunkSize: nat := 64000
  const MaxPartitionSize: nat := 1000000

  /** What the chunker hands to its two callbacks, in call order. */
  datatype ChunkEvent = Chunk(bytes: seq<byte>) | PartitionEnd(offset: nat)

  datatype ChunkerState = ChunkerState(file: seq<byte>, offset: nat, partitionSize: nat)
  {
    predicate Valid()
    {
      partitionSize <= offset <= |file|
    }

    /** `isFileEnd()` */
    predicate IsFileEnd()
    {
      offset >= |file|
    }
  }

  /** The events of one run of reads and the state the chunker is left in. */
  datatype Run = Run(events: seq<ChunkEvent>, after: ChunkerState)

  /** The slice the chunker reads at `offset`. */
  function ChunkAt(file: seq<byte>, offset: nat): seq<byte>
  {
    BlobSlice(file, offset, offset + ChunkSize)
  }

  /** The state after one `_onChunkRead` of the slice at the current offset. */
  function ReadOne(s: ChunkerState): ChunkerState
  {
    var chunk := ChunkAt(s.file, s.offset);
    ChunkerState(s.file, s.offset + |chunk|, s.partitionSize + |chunk|)
  }

  /**
   * The reads `_readChunk` / `_onChunkRead` perform from state `s` until the
   * file ends or the partition is full.
   */
  function ReadChunks(s: ChunkerState): Run
    requires s.offset <= |s.file|
    decreases |s.file| - s.offset
  {
    var chunk := ChunkAt(s.file, s.offset);
    var next := ReadOne(s);
    if next.IsFileEnd() then
      Run([Chunk(chunk)], next)
    else if next.partitionSize >= MaxPartitionSize then
      Run([Chunk(chunk), PartitionEnd(next.offset)], next)
    else
      var rest := ReadChunks(next);
      Run([Chunk(chunk)] + rest.events, rest.after)
  }

  /**
   * A run stays within the file, advances the offset (unless it stopped at
   * the file's end) and grows the partition counter by exactly what it read.
   */
  lemma {:induction false} ReadChunksBounds(s: ChunkerState)
    requires s.offset <= |s.file|
    ensures var r := ReadChunks(s);
      && r.after.file == s.file
      && (s.offset < r.after.offset <= |s.file| || s.offset == r.after.offset == |s.file|)
      && r.after.partitionSize == s.partitionSize + (r.after.offset - s.offset)
    decreases |s.file| - s.offset
  {
    var next := ReadOne(s);
    if !next.IsFileEnd() && next.partitionSize < MaxPartitionSize {
      ReadChunksBounds(next);
    }
  }

  lemma ReadChunksAtFileEnd(s: ChunkerState)
    requires s.offset <= |s.file| && ReadOne(s).IsFileEnd()
    ensures ReadChunks(s) == Run([Chunk(ChunkAt(s.file, s.offset))], ReadOne(s))
  {
  }

  lemma ReadChunksAtPartitionEnd(s: ChunkerState)
    requires s.offset <= |s.file| && !ReadOne(s).IsFileEnd()
    requires ReadOne(s).partitionSize >= MaxPartitionSize
    ensures ReadChunks(s) == Run([Chunk(ChunkAt(s.file, s.offset)), PartitionEnd(ReadOne(s).offset)], ReadOne(s))
  {
  }

  lemma ReadChunksContinues(s: ChunkerState)
    requires s.offset <= |s.file| && !ReadOne(s).IsFileEnd()
    requires ReadOne(s).partitionSize < MaxPartitionSize
    ensures ReadOne(s).offset <= |s.file|
    ensures ReadChunks(s).events == [Chunk(ChunkAt(s.file, s.offset))] + ReadChunks(ReadOne(s)).events
    ensures ReadChunks(s).after == ReadChunks(ReadOne(s)).after
  {
  }

  /** `nextPartition()`: reset the partition counter, then read. */
  function NextPartitionRun(s: ChunkerState): (r: Run)
    requires s.offset <= |s.file|
    ensures r.after.Valid() && r.after.file == s.file
    ensures s.offset <= r.after.offset && (r.after.IsFileEnd() || s.offset < r.after.offset)
  {
    ReadChunksBounds(s.(partitionSize := 0));
    ReadChunks(s.(partitionSize := 0))
  }

  /** `repeatPartition()`: rewind by the current partition's size, then read. */
  function RepeatPartitionRun(s: ChunkerState): (r: Run)
    requires s.Valid()
    ensures r.after.Valid() && r.after.file == s.file
  {
    NextPartitionRun(s.(offset := s.offset - s.partitionSize))
  }

  /** The byte chunks among the events, in order. */
  function ChunkBytes(events: seq<ChunkEvent>): seq<seq<byte>>
  {
    if events == [] then []
    else match events[0]
      case Chunk(b) => [b] + ChunkBytes(events[1..])
      case PartitionEnd(_) => ChunkBytes(events[1..])
  }

  lemma ChunkBytesOfStop(chunk: seq<byte>, o: nat)
    ensures ChunkBytes([Chunk(chunk)]) == [chunk]
    ensures ChunkBytes([Chunk(chunk), PartitionEnd(o)]) == [chunk]
  {
    assert [Chunk(chunk), PartitionEnd(o)][1..] == [PartitionEnd(o)];
    assert [PartitionEnd(o)][1..] == [];
  }

  lemma {:induction false} ChunkBytesConcat(a: seq<ChunkEvent>, b: seq<ChunkEvent>)
    ensures ChunkBytes(a + b) == ChunkBytes(a) + ChunkBytes(b)
    decreases |a|
  {
    if a != [] {
      assert (a + b)[1..] == a[1..] + b;
      ChunkBytesConcat(a[1..], b);
    } else {
      assert a + b == b;
    }
  }

  /**
   * A run reads exactly the bytes between its start and end offsets: the
   * chunks it hands out concatenate to `file[offset..after.offset]`.
   */
  lemma {:induction false} ReadChunksCoversBytes(s: ChunkerState)
    requires s.offset <= |s.file|
    ensures var r := ReadChunks(s);
      && s.offset <= r.after.offset <= |s.file|
      && Flatten(ChunkBytes(r.events)) == s.file[s.offset..r.after.offset]
    decreases |s.file| - s.offset
  {
    var chunk := ChunkAt(s.file, s.offset);
    var next := ReadOne(s);
    ReadChunksBounds(s);
    if next.IsFileEnd() || next.partitionSize >= MaxPartitionSize {
      if next.IsFileEnd() { ReadChunksAtFileEnd(s); } else { ReadChunksAtPartitionEnd(s); }
      ChunkBytesOfStop(chunk, next.offset);
      FlattenCons(chunk, []);
    } else {
      ReadChunksContinues(s);
      var rest := ReadChunks(next).events;
      ReadChunksCoversBytes(next);
      ChunkBytesConcat([Chunk(chunk)], rest);
      ChunkBytesOfStop(chunk, 0);
      FlattenCons(chunk, ChunkBytes(rest));
      SliceSplit(s.file, s.offset, next.offset, ReadChunks(s).after.offset);
    }
  }

  lemma SliceSplit(a: seq<byte>, i: nat, j: nat, k: nat)
    requires i <= j <= k <= |a|
    ensures a[i..k] == a[i..j] + a[j..k]
  {
  }

  /**
   * Shape of a run: only chunks, except that a run stopped by a full
   * partition (rather than by the end of the file) ends with exactly one
   * `PartitionEnd` that carries the cumulative offset. After the file's last
   * chunk no partition end is signalled. Every chunk is at most ChunkSize.
   */
  lemma {:induction false} ReadChunksShape(s: ChunkerState)
    requires s.offset <= |s.file|
    ensures var r := ReadChunks(s);
      && r.events != []
      && (forall i :: 0 <= i < |r.events| - 1 ==> r.events[i].Chunk?)
      && (forall i :: 0 <= i < |r.events| && r.events[i].Chunk? ==> |r.events[i].bytes| <= ChunkSize)
      && (if r.after.offset < |s.file|
          then r.events[|r.events| - 1] == PartitionEnd(r.after.offset)
               && r.after.partitionSize >= MaxPartitionSize
          else r.events[|r.events| - 1].Chunk?)
    decreases |s.file| - s.offset
  {
    var chunk := ChunkAt(s.file, s.offset);
    var next := ReadOne(s);
    if next.IsFileEnd() {
      ReadChunksAtFileEnd(s);
    } else if next.partitionSize >= MaxPartitionSize {
      ReadChunksAtPartitionEnd(s);
    } else {
      ReadChunksContinues(s);
      ReadChunksShape(next);
      var rest := ReadChunks(next);
      var r := ReadChunks(s);
      forall i | 0 <= i < |r.events| && r.events[i].Chunk?
        ensures |r.events[i].bytes| <= ChunkSize
      {
        if i > 0 { assert r.events[i] == rest.events[i - 1]; }
      }
    }
  }

  /**
   * A partition that does not reach the end of the file, started with
   * `partitionSize == j * ChunkSize`, reads 16 - j full chunks: with the
   * constants of the source every non-final partition is 16 chunks of 64000
   * bytes, 1,024,000 bytes in all.
   */
  lemma {:induction false} FullPartitionFrom(s: ChunkerState, j: nat)
    requires s.offset <= |s.file| && j < 16 && s.partitionSize == j * ChunkSize
    requires ReadChunks(s).after.offset < |s.file|
    ensures var r := ReadChunks(s);
      && |ChunkBytes(r.events)| == 16 - j
      && r.after.offset == s.offset + (16 - j) * ChunkSize
      && (forall c :: c in ChunkBytes(r.events) ==> |c| == ChunkSize)
    decreases 16 - j
  {
    var chunk := ChunkAt(s.file, s.offset);
    var next := ChunkerState(s.file, s.offset + |chunk|, s.partitionSize + |chunk|);
    var r := ReadChunks(s);
    assert !next.IsFileEnd();
    assert |chunk| == ChunkSize;
    if next.partitionSize >= MaxPartitionSize {
      assert j == 15;
      ChunkBytesOfStop(chunk, next.offset);
      assert ChunkBytes(r.events) == [chunk];
    } else {
      FullPartitionFrom(next, j + 1);
      var rest := ReadChunks(next);
      ChunkBytesConcat([Chunk(chunk)], rest.events);
      assert ChunkBytes([Chunk(chunk)]) == [chunk];
      assert ChunkBytes(r.events) == [chunk] + ChunkBytes(rest.events);
    }
  }

  lemma NonFinalPartitionSize(s: ChunkerState)
    requires s.Valid()
    requires NextPartitionRun(s).after.offset < |s.file|
    ensures var r := NextPartitionRun(s);
      && |ChunkBytes(r.events)| == 16
      && r.after.offset - s.offset == 1024000
      && r.after.partitionSize == 1024000
  {
    ReadChunksBounds(s.(partitionSize := 0));
    FullPartitionFrom(s.(partitionSize := 0), 0);
  }

  /**
   * `repeatPartition` after a partition re-reads that same partition: it
   * hands out the same events and leaves the chunker where the first read did.
   */
  lemma RepeatReplaysPartition(s: ChunkerState)
    requires s.Valid()
    ensures var r := NextPartitionRun(s);
      RepeatPartitionRun(r.after) == r
  {
    var r := NextPartitionRun(s);
    ReadChunksBounds(s.(partitionSize := 0));
    assert r.after.offset - r.after.partitionSize == s.offset;
    assert r.after.(offset := r.after.offset - r.after.partitionSize).(partitionSize := 0)
        == s.(partitionSize := 0);
  }

  /**
   * Everything the sender hands out for a file from `offset` on when every
   * partition it signals is acknowledged (`partition-received` triggers the
   * next `nextPartition`).
   */
  function Transmission(file: seq<byte>, offset: nat): seq<ChunkEvent>
    requires offset <= |file|
    decreases |file| - offset
  {
    var r := NextPartitionRun(ChunkerState(file, offset, 0));
    if r.after.IsFileEnd() then r.events else r.events + Transmission(file, r.after.offset)
  }

  lemma TransmissionStep(file: seq<byte>, offset: nat)
    requires offset <= |file|
    ensures var r := NextPartitionRun(ChunkerState(file, offset, 0));
      Transmission(file, offset)
      == if r.after.IsFileEnd() then r.events else r.events + Transmission(file, r.after.offset)
  {
  }

  /** Round trip: the chunks of a whole transmission concatenate to the file. */
  lemma {:induction false} TransmissionCoversFile(file: seq<byte>, offset: nat)
    requires offset <= |file|
    ensures Flatten(ChunkBytes(Transmission(file, offset))) == file[offset..]
    decreases |file| - offset
  {
    var s := ChunkerState(file, offset, 0);
    var r := NextPartitionRun(s);
    ReadChunksCoversBytes(s);
    TransmissionStep(file, offset);
    if !r.after.IsFileEnd() {
      var rest := Transmission(file, r.after.offset);
      TransmissionCoversFile(file, r.after.offset);
      ChunkBytesConcat(r.events, rest);
      FlattenConcat(ChunkBytes(r.events), ChunkBytes(rest));
      SliceSplit(file, offset, r.after.offset, |file|);
    }
  }

  /** The transmission of a file of size s never signals a partition end after its last chunk. */
  lemma {:induction false} TransmissionEndsWithChunk(file: seq<byte>, offset: nat)
    requires offset <= |file|
    ensures var t := Transmission(file, offset); t != [] && t[|t| - 1].Chunk?
    decreases |file| - offset
  {
    var s := ChunkerState(file, offset, 0);
    var r := NextPartitionRun(s);
    ReadChunksShape(s.(partitionSize := 0));
    if !r.after.IsFileEnd() {
      TransmissionEndsWithChunk(file, r.after.offset);
    }
  }

  /** The sender's chunker object: `_offset` and `_partitionSize` change in place. */
  class Chunker {
    const file: seq<byte>
    var offset: nat
    var partitionSize: nat

    function Value(): ChunkerState
      reads this
    {
      ChunkerState(file, offset, partitionSize)
    }

    predicate Valid()
      reads this
    {
      Value().Valid()
    }

    constructor (file: seq<byte>)
      ensures Value() == ChunkerState(file, 0, 0)
    {
      this.file := file;
      offset := 0;
      partitionSize := 0;
    }

    predicate IsFileEnd()
      reads this
    {
      offset >= |file|
    }

    /**
     * `_readChunk()` together with the counter updates of `_onChunkRead`:
     * read the slice at the offset and advance both counters by its size.
     */
    method ReadChunk() returns (chunk: seq<byte>)
      requires offset <= |file|
      modifies this
      ensures chunk == ChunkAt(file, old(offset))
      ensures Value() == ReadOne(old(Value()))
    {
      chunk := BlobSlice(file, offset, offset + ChunkSize);
      offset := offset + |chunk|;
      partitionSize := partitionSize + |chunk|;
    }

    /**
     * `_readChunk()` and its `_onChunkRead` callback, which starts the next
     * read unless the file has ended or the partition is full; returns the
     * chunker's callbacks' invocations in order.
     */
    method ReadFrom() returns (events: seq<ChunkEvent>)
      requires offset <= |file|
      modifies this
      ensures ReadChunks(old(Value())) == Run(events, Value())
      decreases |file| - offset
    {
      ghost var before := Value();
      var chunk := ReadChunk();
      if IsFileEnd() {
        ReadChunksAtFileEnd(before);
        return [Chunk(chunk)];
      }
      if partitionSize >= MaxPartitionSize {
        ReadChunksAtPartitionEnd(before);
        return [Chunk(chunk), PartitionEnd(offset)];
      }
      ReadChunksContinues(before);
      var rest := ReadFrom();
      events := [Chunk(chunk)] + rest;
    }

    /** `nextPartition()` */
    method NextPartition() returns (events: seq<ChunkEvent>)
      requires offset <= |file|
      modifies this
      ensures Valid()
      ensures NextPartitionRun(old(Value())) == Run(events, Value())
    {
      partitionSize := 0;
      assert Value() == old(Value()).(partitionSize := 0);
      ReadChunksBounds(Value());
      events := ReadFrom();
    }

    /** `repeatPartition()` */
    method RepeatPartition() returns (events: seq<ChunkEvent>)
      requires Valid()
      modifies this
      ensures Valid()
      ensures RepeatPartitionRun(old(Value())) == Run(events, Value())
    {
      offset := offset - partitionSize;
      events := NextPartition();
    }
  }
}
