/**
 * Whole-session properties of the `Peer` protocol: the files start in
 * the order they were submitted and one at a time, the bytes sent since
 * the last header are always a prefix of that file, and a receiver fed a
 * whole transmission gets the file exactly once.
 */
module Transfer {
  import opened Base
  import opened Chunking
  import opened Digesting
  import opened Protocol

  /** The headers among the frames, in order. */
  function Headers(out: seq<Frame>): seq<Message>
  {
    if out == [] then []
    else
      var last := out[|out| - 1];
      Headers(out[..|out| - 1]) + (if last.TextFrame? && last.message.Header? then [last.message] else [])
  }

  /** The binary payloads among the frames, in order. */
  function BinaryData(out: seq<Frame>): seq<seq<byte>>
  {
    if out == [] then []
    else
      var last := out[|out| - 1];
      BinaryData(out[..|out| - 1]) + (if last.BinaryFrame? then [last.data] else [])
  }

  lemma {:induction false} HeadersConcat(a: seq<Frame>, b: seq<Frame>)
    ensures Headers(a + b) == Headers(a) + Headers(b)
    decreases |b|
  {
    if b == [] {
      assert a + b == a;
    } else {
      assert (a + b)[..|a + b| - 1] == a + b[..|b| - 1];
      HeadersConcat(a, b[..|b| - 1]);
    }
  }

  lemma {:induction false} BinaryDataConcat(a: seq<Frame>, b: seq<Frame>)
    ensures BinaryData(a + b) == BinaryData(a) + BinaryData(b)
    decreases |b|
  {
    if b == [] {
      assert a + b == a;
    } else {
      assert (a + b)[..|a + b| - 1] == a + b[..|b| - 1];
      BinaryDataConcat(a, b[..|b| - 1]);
    }
  }

  lemma OneFrame(f: Frame)
    ensures Headers([f]) == (if f.TextFrame? && f.message.Header? then [f.message] else [])
    ensures BinaryData([f]) == (if f.BinaryFrame? then [f.data] else [])
  {
    assert [f][..0] == [];
  }

  /** The chunker's output carries no header, and its binary frames are exactly its chunks. */
  lemma {:induction false} ChunkFramesContent(events: seq<ChunkEvent>)
    ensures Headers(ChunkFrames(events)) == []
    ensures BinaryData(ChunkFrames(events)) == ChunkBytes(events)
    decreases |events|
  {
    if events != [] {
      var f := ChunkFrame(events[0]);
      assert ChunkFrames(events) == [f] + ChunkFrames(events[1..]);
      ChunkFramesContent(events[1..]);
      HeadersConcat([f], ChunkFrames(events[1..]));
      BinaryDataConcat([f], ChunkFrames(events[1..]));
      OneFrame(f);
    }
  }

  // ---------------------------------------------------------------------
  // The stream since the last header
  // ---------------------------------------------------------------------

  /** What the frames say about the file in flight: its header and the bytes sent since. */
  datatype Stream = NoHeader | Since(header: Message, bytes: seq<byte>)

  function StreamOf(out: seq<Frame>): Stream
  {
    if out == [] then NoHeader
    else
      var prev := StreamOf(out[..|out| - 1]);
      match out[|out| - 1]
      case TextFrame(m) => if m.Header? then Since(m, []) else prev
      case BinaryFrame(b) => if prev.NoHeader? then prev else Since(prev.header, prev.bytes + b)
  }

  /** Appending frames without a header extends the stream by their binary payloads. */
  lemma {:induction false} StreamAppend(out: seq<Frame>, more: seq<Frame>)
    requires Headers(more) == []
    ensures StreamOf(out + more)
         == if StreamOf(out).NoHeader? then NoHeader
            else Since(StreamOf(out).header, StreamOf(out).bytes + Flatten(BinaryData(more)))
    decreases |more|
  {
    if more == [] {
      assert out + more == out;
    } else {
      var init := more[..|more| - 1];
      var last := more[|more| - 1];
      assert more == init + [last];
      HeadersConcat(init, [last]);
      BinaryDataConcat(init, [last]);
      OneFrame(last);
      StreamAppend(out, init);
      assert (out + more)[..|out + more| - 1] == out + init;
      FlattenConcat(BinaryData(init), BinaryData([last]));
      if last.BinaryFrame? {
        FlattenCons(last.data, []);
      }
    }
  }

  /** A header starts a new stream with no bytes. */
  lemma StreamAfterHeader(out: seq<Frame>, h: Message)
    requires h.Header?
    ensures StreamOf(out + [TextFrame(h)]) == Since(h, [])
  {
    assert (out + [TextFrame(h)])[..|out|] == out;
  }

  /**
   * The invariant of a peer: an idle peer has nothing queued, a busy one
   * has a chunker, and the chunker and digester keep their own invariants;
   * the announced size of the file in flight is its size, and the bytes
   * sent since its header are exactly the bytes the chunker has read.
   */
  predicate Valid(s: SessionState)
  {
    && (!s.busy ==> s.queue == [])
    && (s.busy ==> s.chunker.Some?)
    && (s.digester.Some? ==> s.digester.value.Valid())
    && (s.chunker.Some? ==> s.chunker.value.Valid() && StreamOk(s.outbox, s.chunker.value))
  }

  /** The frames announce the chunker's file by its size, and hold the bytes it has read since. */
  predicate StreamOk(out: seq<Frame>, c: ChunkerState)
  {
    && StreamOf(out).Since?
    && StreamOf(out).header.Header?
    && StreamOf(out).header.size == |c.file|
    && c.offset <= |c.file|
    && StreamOf(out).bytes == c.file[..c.offset]
  }

  /** Frames with neither a header nor a payload change neither the stream nor the headers. */
  lemma NeutralFrames(out: seq<Frame>, more: seq<Frame>)
    requires Headers(more) == [] && BinaryData(more) == []
    ensures StreamOf(out + more) == StreamOf(out)
    ensures Headers(out + more) == Headers(out)
  {
    StreamAppend(out, more);
    HeadersConcat(out, more);
  }

  /** The messages `ReceiveChunk` may send: `transfer-complete` and `progress`. */
  lemma ReplyFramesNeutral(a: seq<Frame>, b: seq<Frame>)
    requires a == [] || a == [TextFrame(TransferComplete)]
    requires b == [] || (|b| == 1 && b[0].TextFrame? && b[0].message.ProgressReport?)
    ensures Headers(a + b) == [] && BinaryData(a + b) == []
  {
    HeadersConcat(a, b);
    BinaryDataConcat(a, b);
    if a != [] { OneFrame(a[0]); }
    if b != [] { assert b == [b[0]]; OneFrame(b[0]); }
  }

  lemma NewSessionValid(peerId: string)
    ensures Valid(NewSession(peerId))
  {
  }

  /** Sending a message other than a header keeps the stream and the headers. */
  lemma SendJsonKeepsStream(s: SessionState, m: Message)
    requires !m.Header?
    ensures StreamOf(SendJson(s, m).outbox) == StreamOf(s.outbox)
    ensures Headers(SendJson(s, m).outbox) == Headers(s.outbox)
  {
    OneFrame(TextFrame(m));
    NeutralFrames(s.outbox, [TextFrame(m)]);
  }

  // Headers and queue: which steps start a file

  lemma StartFileHeaders(s: SessionState, f: File)
    ensures Headers(StartFile(s, f).outbox) == Headers(s.outbox) + [HeaderOf(f)]
    ensures StartFile(s, f).queue == s.queue && StartFile(s, f).busy == s.busy
  {
    var r := NextPartitionRun(ChunkerState(f.content, 0, 0));
    var s1 := SendJson(s, HeaderOf(f));
    ChunkFramesContent(r.events);
    HeadersConcat(s.outbox, [TextFrame(HeaderOf(f))]);
    HeadersConcat(s1.outbox, ChunkFrames(r.events));
    OneFrame(TextFrame(HeaderOf(f)));
  }

  lemma DequeueHeaders(s: SessionState)
    ensures Headers(Dequeue(s).outbox)
         == Headers(s.outbox) + (if s.queue == [] then [] else [HeaderOf(s.queue[0])])
    ensures Dequeue(s).queue == (if s.queue == [] then [] else s.queue[1..])
    ensures Dequeue(s).busy == (s.busy || s.queue != [])
  {
    if s.queue != [] {
      StartFileHeaders(s.(busy := true, queue := s.queue[1..]), s.queue[0]);
    }
  }

  /** A received chunk changes neither the stream, the headers nor the sender's fields. */
  lemma ReceiveChunkKeepsSender(s: SessionState, chunk: seq<byte>)
    ensures var r := ReceiveChunk(s, chunk);
      && StreamOf(r.outbox) == StreamOf(s.outbox)
      && Headers(r.outbox) == Headers(s.outbox)
      && r.queue == s.queue && r.busy == s.busy && r.chunker == s.chunker
  {
    if |chunk| > 0 && s.digester.Some? {
      var u := AfterUnchunk(s.digester.value, chunk);
      var p := u.state.progress;
      var a := if u.completed.Some? then [TextFrame(TransferComplete)] else [];
      var b := if !BelowThreshold(p, s.lastProgress) then [TextFrame(ProgressReport(p))] else [];
      ReplyFramesNeutral(a, b);
      assert ReceiveChunk(s, chunk).outbox == s.outbox + (a + b);
      NeutralFrames(s.outbox, a + b);
    }
  }

  lemma SendNextPartitionHeaders(s: SessionState)
    ensures Headers(SendNextPartition(s).outbox) == Headers(s.outbox)
    ensures SendNextPartition(s).queue == s.queue && SendNextPartition(s).busy == s.busy
  {
    if !(s.chunker.None? || s.chunker.value.IsFileEnd()) {
      var r := NextPartitionRun(s.chunker.value);
      ChunkFramesContent(r.events);
      HeadersConcat(s.outbox, ChunkFrames(r.events));
    }
  }

  lemma TransferCompletedHeaders(s: SessionState)
    ensures Headers(TransferCompleted(s).outbox)
         == Headers(s.outbox) + (if s.queue == [] then [] else [HeaderOf(s.queue[0])])
    ensures TransferCompleted(s).queue == (if s.queue == [] then [] else s.queue[1..])
    ensures TransferCompleted(s).busy == (s.queue != [])
  {
    DequeueHeaders(Fire(s, FileProgress(s.peerId, Ratio(1.0))).(busy := false));
  }

  /**
   * Only `transfer-complete` starts a file: it sends the header of the
   * head of the queue, if any, and takes it off the queue; no other frame
   * sends a header or touches the queue.
   */
  lemma ReceiveHeaders(s: SessionState, frame: Frame)
    ensures Headers(Receive(s, frame).outbox)
         == Headers(s.outbox)
            + (if frame == TextFrame(TransferComplete) && s.queue != [] then [HeaderOf(s.queue[0])] else [])
    ensures Receive(s, frame).queue
         == if frame == TextFrame(TransferComplete) && s.queue != [] then s.queue[1..] else s.queue
  {
    match frame
    case BinaryFrame(data) => ReceiveChunkKeepsSender(s, data);
    case TextFrame(m) =>
      match m {
        case Partition(o) => SendJsonKeepsStream(s, PartitionReceived(o));
        case PartitionReceived(_) => SendNextPartitionHeaders(s);
        case TransferComplete => TransferCompletedHeaders(s);
        case _ =>
      }
  }

  /**
   * `sendFiles` sends a header exactly when the peer was idle and the
   * queue with the new files is not empty: the header of its head, which
   * leaves the queue.
   */
  lemma SendFilesHeaders(s: SessionState, files: seq<File>)
    ensures var q := s.queue + files;
      && Headers(SendFiles(s, files).outbox)
         == Headers(s.outbox) + (if !s.busy && q != [] then [HeaderOf(q[0])] else [])
      && SendFiles(s, files).queue == (if !s.busy && q != [] then q[1..] else q)
      && SendFiles(s, files).busy == (s.busy || q != [])
  {
    if !s.busy {
      DequeueHeaders(s.(queue := s.queue + files));
    }
  }

  // The invariant

  /** `_sendFile` leaves a valid state whose stream holds the first partition's bytes. */
  lemma StartFileValid(s: SessionState, f: File)
    requires s.busy && (s.digester.Some? ==> s.digester.value.Valid())
    ensures Valid(StartFile(s, f))
  {
    var c0 := ChunkerState(f.content, 0, 0);
    var r := NextPartitionRun(c0);
    var s1 := SendJson(s, HeaderOf(f));
    ChunkFramesContent(r.events);
    ReadChunksCoversBytes(c0);
    StreamAfterHeader(s.outbox, HeaderOf(f));
    StreamAppend(s1.outbox, ChunkFrames(r.events));
  }

  lemma DequeueValid(s: SessionState)
    requires (s.digester.Some? ==> s.digester.value.Valid())
    requires s.queue != [] || Valid(s)
    ensures Valid(Dequeue(s))
  {
    if s.queue != [] {
      StartFileValid(s.(busy := true, queue := s.queue[1..]), s.queue[0]);
    }
  }

  lemma SendNextPartitionValid(s: SessionState)
    requires Valid(s)
    ensures Valid(SendNextPartition(s))
  {
    if !(s.chunker.None? || s.chunker.value.IsFileEnd()) {
      var c := s.chunker.value;
      var r := NextPartitionRun(c);
      ReadChunksBounds(c.(partitionSize := 0));
      ReadChunksCoversBytes(c.(partitionSize := 0));
      ChunkFramesContent(r.events);
      StreamAppend(s.outbox, ChunkFrames(r.events));
      SliceSplit(c.file, 0, c.offset, r.after.offset);
    }
  }

  lemma ReceiveChunkValid(s: SessionState, chunk: seq<byte>)
    requires Valid(s)
    ensures Valid(ReceiveChunk(s, chunk))
  {
    ReceiveChunkKeepsSender(s, chunk);
    if |chunk| > 0 && s.digester.Some? {
      UnchunkKeepsCount(s.digester.value, chunk);
    }
  }

  lemma TransferCompletedValid(s: SessionState)
    requires Valid(s)
    ensures Valid(TransferCompleted(s))
  {
    DequeueValid(Fire(s, FileProgress(s.peerId, Ratio(1.0))).(busy := false));
  }

  /** Every received frame keeps the invariant. */
  lemma ReceiveValid(s: SessionState, frame: Frame)
    requires Valid(s)
    ensures Valid(Receive(s, frame))
  {
    match frame
    case BinaryFrame(data) => ReceiveChunkValid(s, data);
    case TextFrame(m) =>
      match m {
        case Partition(o) => SendJsonKeepsStream(s, PartitionReceived(o));
        case PartitionReceived(_) => SendNextPartitionValid(s);
        case TransferComplete => TransferCompletedValid(s);
        case _ =>
      }
  }

  /**
   * `sendFiles` keeps the invariant; since an idle peer has nothing
   * queued, the header it sends is that of the first new file.
   */
  lemma SendFilesValid(s: SessionState, files: seq<File>)
    requires Valid(s)
    ensures Valid(SendFiles(s, files))
    ensures SendFiles(s, files).busy == (s.busy || files != [])
    ensures Headers(SendFiles(s, files).outbox)
         == Headers(s.outbox) + (if !s.busy && files != [] then [HeaderOf(files[0])] else [])
  {
    SendFilesHeaders(s, files);
    if !s.busy {
      assert s.queue + files == files;
      DequeueValid(s.(queue := s.queue + files));
    }
  }

  // ---------------------------------------------------------------------
  // FIFO order of files
  // ---------------------------------------------------------------------

  function HeadersOf(files: seq<File>): seq<Message>
  {
    if files == [] then [] else [HeaderOf(files[0])] + HeadersOf(files[1..])
  }

  lemma {:induction false} HeadersOfConcat(a: seq<File>, b: seq<File>)
    ensures HeadersOf(a + b) == HeadersOf(a) + HeadersOf(b)
    decreases |a|
  {
    if a == [] {
      assert a + b == b;
    } else {
      assert (a + b)[1..] == a[1..] + b;
      HeadersOfConcat(a[1..], b);
    }
  }

  /** Every file ever submitted: the headers already sent, then the queue. */
  function Submitted(s: SessionState): seq<Message>
  {
    Headers(s.outbox) + HeadersOf(s.queue)
  }

  /** Starting the head of the queue moves its header from the queue to the frames sent. */
  lemma SubmittedShift(h: seq<Message>, q: seq<File>)
    requires q != []
    ensures (h + [HeaderOf(q[0])]) + HeadersOf(q[1..]) == h + HeadersOf(q)
  {
    assert HeadersOf(q) == [HeaderOf(q[0])] + HeadersOf(q[1..]);
  }

  /**
   * A state whose sent headers and queue are those of `h` and `q`, with
   * the head of `q` possibly started, has submitted `h` then `q`.
   */
  lemma SubmittedOf(t: SessionState, h: seq<Message>, q: seq<File>, started: bool)
    requires started ==> q != [] && Headers(t.outbox) == h + [HeaderOf(q[0])] && t.queue == q[1..]
    requires !started ==> Headers(t.outbox) == h && t.queue == q
    ensures Submitted(t) == h + HeadersOf(q)
  {
    if started {
      SubmittedShift(h, q);
    }
  }

  /** `sendFiles` appends its files, in order, to everything submitted. */
  lemma SendFilesFifo(s: SessionState, files: seq<File>)
    ensures Submitted(SendFiles(s, files)) == Submitted(s) + HeadersOf(files)
  {
    var q := s.queue + files;
    SendFilesHeaders(s, files);
    HeadersOfConcat(s.queue, files);
    SubmittedOf(SendFiles(s, files), Headers(s.outbox), q, !s.busy && q != []);
  }

  /** No received frame changes the order of what was submitted. */
  lemma ReceiveFifo(s: SessionState, frame: Frame)
    ensures Submitted(Receive(s, frame)) == Submitted(s)
  {
    ReceiveHeaders(s, frame);
    SubmittedOf(Receive(s, frame), Headers(s.outbox), s.queue, frame == TextFrame(TransferComplete) && s.queue != []);
  }

  // ---------------------------------------------------------------------
  // A whole transmission at the receiver
  // ---------------------------------------------------------------------

  /** The files the frames' `file-received` events carry, in order. */
  function Received(events: seq<UiEvent>): seq<ReceivedFile>
  {
    if events == [] then []
    else
      var last := events[|events| - 1];
      Received(events[..|events| - 1]) + (if last.FileReceived? then [last.file] else [])
  }

  lemma {:induction false} ReceivedConcat(a: seq<UiEvent>, b: seq<UiEvent>)
    ensures Received(a + b) == Received(a) + Received(b)
    decreases |b|
  {
    if b == [] {
      assert a + b == a;
    } else {
      assert (a + b)[..|a + b| - 1] == a + b[..|b| - 1];
      ReceivedConcat(a, b[..|b| - 1]);
    }
  }

  lemma ReceivedOne(e: UiEvent)
    ensures Received([e]) == (if e.FileReceived? then [e.file] else [])
  {
    assert [e][..0] == [];
  }

  /** The non-empty binary payloads among frames, in order (what the digester is given). */
  function Payloads(frames: seq<Frame>): seq<seq<byte>>
  {
    if frames == [] then []
    else (if frames[0].BinaryFrame? && frames[0].data != [] then [frames[0].data] else [])
         + Payloads(frames[1..])
  }

  /** What a sender's chunker emits: chunks and partition ends only. */
  predicate SenderFrames(frames: seq<Frame>)
  {
    forall i :: 0 <= i < |frames| ==> frames[i].BinaryFrame? || frames[i].message.Partition?
  }

  /** One frame of a sender's output at the receiver: only the digester and the logs move. */
  lemma ReceiveSenderFrame(s: SessionState, f: Frame)
    requires s.digester.Some? && s.digester.value.Valid()
    requires f.BinaryFrame? || f.message.Partition?
    ensures var r := Receive(s, f);
      && r.digester.Some?
      && (if f.BinaryFrame? && f.data != []
          then var u := AfterUnchunk(s.digester.value, f.data);
               && r.digester.value == u.state
               && Received(r.events) == Received(s.events)
                    + (if u.completed.Some? then [u.completed.value] else [])
          else r.digester == s.digester && Received(r.events) == Received(s.events))
  {
    var r := Receive(s, f);
    if f.BinaryFrame? && f.data != [] {
      var u := AfterUnchunk(s.digester.value, f.data);
      ChunkProgressThrottle(s, f.data);
      var mid := if u.completed.Some? then [FileReceived(u.completed.value)] else [];
      ReceivedConcat(s.events + mid, [FileProgress(s.peerId, u.state.progress)]);
      ReceivedConcat(s.events, mid);
      ReceivedOne(FileProgress(s.peerId, u.state.progress));
      if u.completed.Some? { ReceivedOne(FileReceived(u.completed.value)); }
    } else if f.TextFrame? {
      ReceivedConcat(s.events, []);
      assert r.events == s.events;
    }
  }

  /**
   * A receiver with a valid digester fed a sender's frames digests exactly
   * the non-empty payloads, in order, and reports exactly the files the
   * digester's callback produced.
   */
  lemma {:induction false} ReceiveSenderFrames(s: SessionState, frames: seq<Frame>)
    requires s.digester.Some? && s.digester.value.Valid()
    requires SenderFrames(frames)
    ensures var r := ReceiveAll(s, frames);
      var (d, fired) := UnchunkAll(s.digester.value, Payloads(frames));
      && r.digester == Some(d)
      && Received(r.events) == Received(s.events) + fired
    decreases |frames|
  {
    if frames != [] {
      var rest := frames[1..];
      assert SenderFrames(rest) by {
        forall i | 0 <= i < |rest|
          ensures rest[i].BinaryFrame? || rest[i].message.Partition?
        {
          assert rest[i] == frames[i + 1];
        }
      }
      ReceiveSenderFrame(s, frames[0]);
      ReceiveSenderFrames(Receive(s, frames[0]), rest);
      assert ReceiveAll(s, frames) == ReceiveAll(Receive(s, frames[0]), rest);
      if frames[0].BinaryFrame? && frames[0].data != [] {
        assert Payloads(frames) == [frames[0].data] + Payloads(rest);
        DigestAlgebra(s.digester.value, frames[0].data, Payloads(rest), Received(s.events));
      } else {
        assert Payloads(frames) == Payloads(rest);
      }
    }
  }

  /** The digester's side of one inductive step: one more chunk in front. */
  lemma DigestAlgebra(d: DigesterState, c: seq<byte>, rest: seq<seq<byte>>, a: seq<ReceivedFile>)
    ensures var u := AfterUnchunk(d, c);
      var h := if u.completed.Some? then [u.completed.value] else [];
      && UnchunkAll(d, [c] + rest).0 == UnchunkAll(u.state, rest).0
      && (a + h) + UnchunkAll(u.state, rest).1 == a + UnchunkAll(d, [c] + rest).1
  {
    UnchunkAllCons(d, c, rest);
  }

  lemma UnchunkAllCons(d: DigesterState, c: seq<byte>, rest: seq<seq<byte>>)
    ensures var u := AfterUnchunk(d, c);
      UnchunkAll(d, [c] + rest)
      == (UnchunkAll(u.state, rest).0,
          (if u.completed.Some? then [u.completed.value] else []) + UnchunkAll(u.state, rest).1)
  {
    assert ([c] + rest)[1..] == rest;
  }

  /** Dropping empty payloads does not change their concatenation. */
  lemma {:induction false} PayloadsFlatten(frames: seq<Frame>)
    ensures Flatten(Payloads(frames)) == Flatten(BinaryData(frames))
    ensures forall i :: 0 <= i < |Payloads(frames)| ==> Payloads(frames)[i] != []
    decreases |frames|
  {
    if frames != [] {
      var f := frames[0];
      PayloadsFlatten(frames[1..]);
      assert frames == [f] + frames[1..];
      BinaryDataConcat([f], frames[1..]);
      OneFrame(f);
      var head := if f.BinaryFrame? && f.data != [] then [f.data] else [];
      FlattenConcat(head, Payloads(frames[1..]));
      FlattenConcat(BinaryData([f]), BinaryData(frames[1..]));
      if f.BinaryFrame? {
        FlattenCons(f.data, []);
      }
      var p := Payloads(frames);
      assert p == head + Payloads(frames[1..]);
      forall i | 0 <= i < |p|
        ensures p[i] != []
      {
        if i >= |head| { assert p[i] == Payloads(frames[1..])[i - |head|]; }
      }
    }
  }

  /** The frames the sender emits for a file from the first byte on, all partitions acknowledged. */
  function TransmissionFrames(file: seq<byte>): seq<Frame>
  {
    ChunkFrames(Transmission(file, 0))
  }

  lemma TransmissionFramesAreSenderFrames(file: seq<byte>)
    ensures SenderFrames(TransmissionFrames(file))
    ensures Flatten(BinaryData(TransmissionFrames(file))) == file
  {
    var t := Transmission(file, 0);
    ChunkFramesContent(t);
    TransmissionCoversFile(file, 0);
    ChunkFramesAreSenderFrames(t);
  }

  /** A chunker's output, framed, holds only binary chunks and partition markers. */
  lemma {:induction false} ChunkFramesAreSenderFrames(events: seq<ChunkEvent>)
    ensures SenderFrames(ChunkFrames(events))
  {
    if events != [] {
      ChunkFramesAreSenderFrames(events[1..]);
      var tail := ChunkFrames(events[1..]);
      assert ChunkFrames(events) == [ChunkFrame(events[0])] + tail;
      forall i | 0 <= i < |ChunkFrames(events)|
        ensures ChunkFrames(events)[i].BinaryFrame? || ChunkFrames(events)[i].message.Partition?
      {
        if i > 0 { assert ChunkFrames(events)[i] == tail[i - 1]; }
      }
    }
  }

  /**
   * End to end: a receiver that gets a non-empty file's header and then
   * every frame of its transmission fires `file-received` exactly once,
   * with the file's name, mime (or the default), size and bytes, and its
   * progress ends at 1.
   */
  lemma ReceiveWholeFile(s: SessionState, f: File)
    requires f.content != []
    ensures var r := ReceiveAll(Receive(s, TextFrame(HeaderOf(f))), TransmissionFrames(f.content));
      && Received(r.events)
         == Received(s.events) + [ReceivedFile(f.name, MimeOrDefault(f.mime), |f.content|, f.content)]
      && r.digester.Some? && r.digester.value.progress == Ratio(1.0)
      && Flatten(r.digester.value.buffer) == f.content
  {
    var s1 := Receive(s, TextFrame(HeaderOf(f)));
    var frames := TransmissionFrames(f.content);
    var d := NewDigester(f.name, f.mime, |f.content|);
    HeaderResetsProgress(s, f.name, f.mime, |f.content|);
    TransmissionFramesAreSenderFrames(f.content);
    PayloadsFlatten(frames);
    ReceiveSenderFrames(s1, frames);
    assert Flatten(d.buffer) == [];
    DigestExactlyOnce(d, Payloads(frames), f.content);
  }

  /**
   * An empty file never completes: its transmission is one empty chunk,
   * which the receiver ignores, so no `file-received` fires and no
   * `transfer-complete` goes back; the sender stays busy.
   */
  lemma EmptyFileNeverCompletes(s: SessionState, name: string, mime: string)
    ensures TransmissionFrames([]) == [BinaryFrame([])]
    ensures var s1 := Receive(s, TextFrame(Header(name, mime, 0)));
      ReceiveAll(s1, TransmissionFrames([])) == s1
  {
    var r := NextPartitionRun(ChunkerState([], 0, 0));
    ReadChunksAtFileEnd(ChunkerState([], 0, 0));
    assert Transmission([], 0) == [Chunk([])];
    var s1 := Receive(s, TextFrame(Header(name, mime, 0)));
    assert ReceiveAll(s1, [BinaryFrame([])]) == ReceiveAll(Receive(s1, BinaryFrame([])), []);
  }
}
