/**
 * The receiver's `FileDigester` of `modules/client/src/utils/Network.ts`:
 * it buffers incoming chunks in arrival order, counts the bytes, recomputes
 * the progress ratio and hands the assembled file to its callback each time
 * the count has reached the declared size.
 */
module Digesting {
  import opened Base

  const DefaultMime := "application/octet-stream"

  /** What the completion callback receives. */
  datatype ReceivedFile = ReceivedFile(name: string, mime: string, size: nat, blob: seq<byte>)

  /** `meta.mime || 'application/octet-stream'`: the empty string is the only falsy mime. */
  function MimeOrDefault(mime: string): (r: string)
    ensures r != []
    ensures mime != [] ==> r == mime
    ensures mime == [] ==> r == DefaultMime
  {
    if mime == [] then DefaultMime else mime
  }

  /**
   * `bytesReceived / size`, with a NaN (0 / 0) replaced by 1; a positive
   * count over a declared size of 0 is +Infinity.
   */
  function ProgressOf(received: nat, size: nat): Progress
  {
    if size == 0 then (if received == 0 then Ratio(1.0) else Infinite)
    else Ratio(received as real / size as real)
  }

  /** Progress is exactly 1 once the declared size has been received. */
  lemma ProgressCompleteIsOne(size: nat)
    ensures ProgressOf(size, size) == Ratio(1.0)
  {
  }

  /**
   * For a declared size s > 0, progress is a ratio in [0, 1] while at most s
   * bytes have arrived, it is non-decreasing in the byte count, and it is 1
   * exactly when all s bytes have arrived.
   */
  lemma ProgressMonotone(a: nat, b: nat, size: nat)
    requires 0 < size && a <= b
    ensures ProgressOf(a, size).Ratio? && ProgressOf(b, size).Ratio?
    ensures 0.0 <= ProgressOf(a, size).value <= ProgressOf(b, size).value
    ensures b <= size ==> ProgressOf(b, size).value <= 1.0
    ensures ProgressOf(b, size).value == 1.0 <==> b == size
  {
    var s := size as real;
    DivideMonotone(a as real, b as real, s);
    if b <= size {
      DivideMonotone(b as real, s, s);
    }
  }

  lemma DivideMonotone(x: real, y: real, s: real)
    requires 0.0 <= x <= y && 0.0 < s
    ensures 0.0 <= x / s <= y / s
  {
  }

  /** The digester's fields as a value. */
  datatype DigesterState = DigesterState(
    name: string, mime: string, size: nat,
    buffer: seq<seq<byte>>, bytesReceived: nat, progress: Progress)
  {
    /**
     * `_bytesReceived` is the length of what the buffer holds, and `progress`
     * is the ratio computed by the last `unchunk` (0 before the first).
     */
    predicate Valid()
    {
      && bytesReceived == |Flatten(buffer)|
      && progress == if buffer == [] then Ratio(0.0) else ProgressOf(bytesReceived, size)
    }
  }

  /** The constructor: nothing received, progress 0. */
  function NewDigester(name: string, mime: string, size: nat): DigesterState
  {
    DigesterState(name, MimeOrDefault(mime), size, [], 0, Ratio(0.0))
  }

  /** The digester after `unchunk(chunk)` and the callback's argument, if it fired. */
  datatype Unchunked = Unchunked(state: DigesterState, completed: Option<ReceivedFile>)

  function AfterUnchunk(d: DigesterState, chunk: seq<byte>): (r: Unchunked)
  {
    var buffer := d.buffer + [chunk];
    var received := d.bytesReceived + |chunk|;
    var d' := d.(buffer := buffer, bytesReceived := received, progress := ProgressOf(received, d.size));
    Unchunked(d', if received < d.size then None
                  else Some(ReceivedFile(d.name, d.mime, d.size, Flatten(buffer))))
  }

  /**
   * `unchunk` appends the chunk to the buffer, keeps the byte count equal to
   * the buffered length, and fires the callback exactly when the count has
   * reached the declared size, with the whole buffer, in arrival order, as
   * the blob.
   */
  lemma UnchunkKeepsCount(d: DigesterState, chunk: seq<byte>)
    requires d.Valid()
    ensures var r := AfterUnchunk(d, chunk);
      && r.state.Valid()
      && r.state.buffer == d.buffer + [chunk]
      && Flatten(r.state.buffer) == Flatten(d.buffer) + chunk
      && (r.completed.Some? <==> |Flatten(d.buffer)| + |chunk| >= d.size)
      && (r.completed.Some? ==> r.completed.value.blob == Flatten(d.buffer) + chunk
                                && r.completed.value.size == d.size)
  {
    assert (d.buffer + [chunk])[..|d.buffer|] == d.buffer;
  }

  /** Digesting a sequence of chunks one after another, collecting the callback's arguments. */
  function UnchunkAll(d: DigesterState, chunks: seq<seq<byte>>): (DigesterState, seq<ReceivedFile>)
    decreases |chunks|
  {
    if chunks == [] then (d, [])
    else
      var r := AfterUnchunk(d, chunks[0]);
      var (d', fired) := UnchunkAll(r.state, chunks[1..]);
      (d', (if r.completed.Some? then [r.completed.value] else []) + fired)
  }

  /**
   * Feeding a fresh digester non-empty chunks that concatenate to `file`
   * (with the header's size |file|) fires the callback exactly once, on the
   * last chunk, with `file` as the blob; the final progress is 1.
   */
  lemma {:induction false} DigestExactlyOnce(d: DigesterState, chunks: seq<seq<byte>>, file: seq<byte>)
    requires d.Valid() && d.size == |file| && Flatten(d.buffer) + Flatten(chunks) == file
    requires |Flatten(d.buffer)| < |file|
    requires forall i :: 0 <= i < |chunks| ==> chunks[i] != []
    ensures var (d', fired) := UnchunkAll(d, chunks);
      && d'.Valid() && Flatten(d'.buffer) == file && d'.progress == Ratio(1.0)
      && fired == [ReceivedFile(d.name, d.mime, |file|, file)]
    decreases |chunks|
  {
    if chunks == [] {
      assert false;
    }
    var c := chunks[0];
    UnchunkKeepsCount(d, c);
    FlattenCons(c, chunks[1..]);
    assert chunks == [c] + chunks[1..];
    var r := AfterUnchunk(d, c);
    assert Flatten(r.state.buffer) + Flatten(chunks[1..]) == file;
    if chunks[1..] == [] {
      assert Flatten(chunks[1..]) == [];
      assert Flatten(r.state.buffer) == file;
      ProgressCompleteIsOne(|file|);
    } else {
      var c1 := chunks[1..][0];
      FlattenCons(c1, chunks[1..][1..]);
      assert chunks[1..] == [c1] + chunks[1..][1..];
      assert |Flatten(chunks[1..])| >= |c1| > 0;
      assert |Flatten(r.state.buffer)| < |file|;
      DigestExactlyOnce(r.state, chunks[1..], file);
    }
  }

  /** The digester object: `_buffer`, `_bytesReceived` and `progress` change in place. */
  class Digester {
    const name: string
    const mime: string
    const size: nat
    var buffer: seq<seq<byte>>
    var bytesReceived: nat
    var progress: Progress

    function Value(): DigesterState
      reads this
    {
      DigesterState(name, mime, size, buffer, bytesReceived, progress)
    }

    constructor (name: string, mime: string, size: nat)
      ensures Value() == NewDigester(name, mime, size)
    {
      this.size := size;
      this.mime := if mime == [] then DefaultMime else mime;
      this.name := name;
      buffer := [];
      bytesReceived := 0;
      progress := Ratio(0.0);
    }

    /** `unchunk(chunk)`; returns the callback's argument when it fires. */
    method Unchunk(chunk: seq<byte>) returns (completed: Option<ReceivedFile>)
      modifies this
      ensures AfterUnchunk(old(Value()), chunk) == Unchunked(Value(), completed)
    {
      buffer := buffer + [chunk];
      bytesReceived := bytesReceived + |chunk|;
      if size == 0 {
        progress := if bytesReceived == 0 then Ratio(1.0) else Infinite;
      } else {
        progress := Ratio(bytesReceived as real / size as real);
      }
      if bytesReceived < size {
        return None;
      }
      completed := Some(ReceivedFile(name, mime, size, Flatten(buffer)));
    }
  }
}
