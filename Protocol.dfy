/**
 * The per-peer transfer protocol of `Peer` in
 * `modules/client/src/utils/Network.ts`, as functions on the peer's fields
 * taken as one value. Everything `_send` is given is appended to an outbox;
 * everything `Events.fire` is given is appended to an event log. A JSON
 * message is kept as the `Message` it encodes.
 *
 * The sender side keeps a FIFO queue of files and a `busy` flag; it sends a
 * header, then the chunks of one partition, then a partition-end message,
 * and resumes on `partition-received`. The receiver side digests binary
 * frames, reports progress (throttled to steps of 0.01) and answers each
 * partition end and the completed file.
 */
module Protocol {
  import opened Base
  import opened Chunking
  import opened Digesting

  /** A `File` handed to `sendFiles`: its `name`, its `type` and its bytes. */
  datatype File = File(name: string, mime: string, content: seq<byte>)

  /**
   * The JSON messages peers exchange, by their `type` field. `Other` stands
   * for a message whose type none of the handler's cases names, and for a
   * text frame that is not JSON at all (the parser throws before any field
   * changes, which has the same effect).
   */
  datatype Message =
    | Header(name: string, mime: string, size: nat)
    | Partition(offset: nat)
    | PartitionReceived(offset: nat)
    | ProgressReport(progress: Progress)
    | TransferComplete
    | Text(text: string)
    | PeerRequested
    | PeerDeclined
    | PeerDisconnected
    | Other(kind: string)

  /** What `_send` is given: a JSON string, or an ArrayBuffer of file bytes. */
  datatype Frame = TextFrame(message: Message) | BinaryFrame(data: seq<byte>)

  /** What the peer fires on the window's event bus. */
  datatype UiEvent =
    | FileProgress(sender: string, progress: Progress)
    | FileReceived(file: ReceivedFile)
    | NotifyUser(note: string)
    | PeerRequestedEvent
    | PeerDeclinedEvent
    | PeerDisconnectedEvent

  const TransferCompletedNote := "File transfer completed."

  /** The fields of a `Peer`, with the chunker and digester as values. */
  datatype SessionState = SessionState(
    peerId: string,
    queue: seq<File>,
    busy: bool,
    chunker: Option<ChunkerState>,
    digester: Option<DigesterState>,
    lastProgress: Progress,
    outbox: seq<Frame>,
    events: seq<UiEvent>)

  /** A peer as the constructor leaves it. */
  function NewSession(peerId: string): SessionState
  {
    SessionState(peerId, [], false, None, None, Ratio(0.0), [], [])
  }

  /** The header `_sendFile` announces a file with. */
  function HeaderOf(f: File): Message
  {
    Header(f.name, f.mime, |f.content|)
  }

  /** The chunker's callbacks: a chunk goes out as is, a partition end as a `partition` message. */
  function ChunkFrame(e: ChunkEvent): Frame
  {
    match e
    case Chunk(b) => BinaryFrame(b)
    case PartitionEnd(o) => TextFrame(Partition(o))
  }

  function ChunkFrames(events: seq<ChunkEvent>): seq<Frame>
  {
    if events == [] then [] else [ChunkFrame(events[0])] + ChunkFrames(events[1..])
  }

  /** `sendJSON(message)` */
  function SendJson(s: SessionState, m: Message): SessionState
  {
    s.(outbox := s.outbox + [TextFrame(m)])
  }

  function Fire(s: SessionState, e: UiEvent): SessionState
  {
    s.(events := s.events + [e])
  }

  /** `_sendFile(file)`: the header, then a fresh chunker's first partition. */
  function StartFile(s: SessionState, f: File): SessionState
  {
    var s1 := SendJson(s, HeaderOf(f));
    var r := NextPartitionRun(ChunkerState(f.content, 0, 0));
    s1.(chunker := Some(r.after), outbox := s1.outbox + ChunkFrames(r.events))
  }

  /** `_dequeueFile()`: nothing when the queue is empty; else mark busy and start the head. */
  function Dequeue(s: SessionState): SessionState
  {
    if s.queue == [] then s
    else StartFile(s.(busy := true, queue := s.queue[1..]), s.queue[0])
  }

  /** `sendFiles(files)`: enqueue in order, then dequeue unless a file is in flight. */
  function SendFiles(s: SessionState, files: seq<File>): SessionState
  {
    var s1 := s.(queue := s.queue + files);
    if s1.busy then s1 else Dequeue(s1)
  }

  /** `_sendNextPartition()`: nothing without a chunker or at the end of the file. */
  function SendNextPartition(s: SessionState): SessionState
  {
    if s.chunker.None? || s.chunker.value.IsFileEnd() then s
    else
      var r := NextPartitionRun(s.chunker.value);
      s.(chunker := Some(r.after), outbox := s.outbox + ChunkFrames(r.events))
  }

  /**
   * `progress - this._lastProgress < 0.01` with JavaScript numbers:
   * Infinity minus a finite number is Infinity and Infinity minus Infinity
   * is NaN (both compare false); a finite number minus Infinity is
   * -Infinity (compares true).
   */
  predicate BelowThreshold(progress: Progress, last: Progress)
  {
    match (progress, last)
    case (Ratio(p), Ratio(l)) => p - l < 0.01
    case (Ratio(_), Infinite) => true
    case (Infinite, _) => false
  }

  /**
   * `_onChunkReceived(chunk)`: an empty frame is ignored; without a
   * digester the handler throws before changing anything. Otherwise the
   * digester takes the chunk (its callback fires `file-received` and sends
   * `transfer-complete`), `file-progress` is fired, and a `progress` message
   * goes out unless progress is below 0.01 ahead of the last one sent.
   */
  function ReceiveChunk(s: SessionState, chunk: seq<byte>): SessionState
  {
    if |chunk| == 0 || s.digester.None? then s
    else
      var u := AfterUnchunk(s.digester.value, chunk);
      var s1 := s.(digester := Some(u.state));
      var s2 := if u.completed.Some?
                then SendJson(Fire(s1, FileReceived(u.completed.value)), TransferComplete)
                else s1;
      var p := u.state.progress;
      var s3 := Fire(s2, FileProgress(s.peerId, p));
      if BelowThreshold(p, s.lastProgress) then s3
      else SendJson(s3.(lastProgress := p), ProgressReport(p))
  }

  /** `_onFileHeader(header)`: reset the last progress sent and start a digester. */
  function ReceiveHeader(s: SessionState, name: string, mime: string, size: nat): SessionState
  {
    s.(lastProgress := Ratio(0.0), digester := Some(NewDigester(name, mime, size)))
  }

  /** `_onTransferCompleted()`: progress 1, not busy, next file, notify the user. */
  function TransferCompleted(s: SessionState): SessionState
  {
    var s1 := Fire(s, FileProgress(s.peerId, Ratio(1.0))).(busy := false);
    Fire(Dequeue(s1), NotifyUser(TransferCompletedNote))
  }

  /** `_onMessage(message)`: binary frames to the digester, JSON frames by type. */
  function Receive(s: SessionState, frame: Frame): SessionState
  {
    match frame
    case BinaryFrame(data) => ReceiveChunk(s, data)
    case TextFrame(m) =>
      match m
      case PeerDeclined => Fire(s, PeerDeclinedEvent)
      case PeerRequested => Fire(s, PeerRequestedEvent)
      case PeerDisconnected => Fire(s, PeerDisconnectedEvent)
      case Header(name, mime, size) => ReceiveHeader(s, name, mime, size)
      case Partition(offset) => SendJson(s, PartitionReceived(offset))
      case PartitionReceived(_) => SendNextPartition(s)
      case ProgressReport(p) => Fire(s, FileProgress(s.peerId, p))
      case TransferComplete => TransferCompleted(s)
      case Text(_) => s
      case Other(_) => s
  }

  /** Frames received one after another. */
  function ReceiveAll(s: SessionState, frames: seq<Frame>): SessionState
    decreases |frames|
  {
    if frames == [] then s else ReceiveAll(Receive(s, frames[0]), frames[1..])
  }

  // ---------------------------------------------------------------------
  // Single-frame behaviour of the receiver
  // ---------------------------------------------------------------------

  /** A zero-length binary frame changes nothing at all. */
  lemma ZeroLengthFrameIgnored(s: SessionState)
    ensures Receive(s, BinaryFrame([])) == s
  {
  }

  /**
   * A header resets the last progress sent to 0 and installs a fresh
   * digester for the announced name, mime and size; nothing is sent.
   */
  lemma HeaderResetsProgress(s: SessionState, name: string, mime: string, size: nat)
    ensures var r := Receive(s, TextFrame(Header(name, mime, size)));
      && r.lastProgress == Ratio(0.0)
      && r.digester == Some(NewDigester(name, mime, size))
      && r.digester.value.Valid()
      && r.outbox == s.outbox && r.events == s.events
      && r.queue == s.queue && r.busy == s.busy && r.chunker == s.chunker
  {
  }

  /** A `partition` message is answered with `partition-received` for the same offset, and nothing else. */
  lemma PartitionAnswered(s: SessionState, offset: nat)
    ensures Receive(s, TextFrame(Partition(offset)))
         == s.(outbox := s.outbox + [TextFrame(PartitionReceived(offset))])
  {
  }

  /** Messages of an unrecognised type (and text messages) leave every field as it was. */
  lemma UnknownTypeChangesNothing(s: SessionState, kind: string, text: string)
    ensures Receive(s, TextFrame(Other(kind))) == s
    ensures Receive(s, TextFrame(Text(text))) == s
  {
  }

  /** `_sendNextPartition` is a no-op without a chunker or once the file has ended. */
  lemma NextPartitionNoOp(s: SessionState)
    requires s.chunker.None? || s.chunker.value.IsFileEnd()
    ensures Receive(s, TextFrame(PartitionReceived(0))) == s
  {
  }

  /**
   * A non-empty chunk with a digester in place: the bytes go to the
   * digester; `file-received` (and a `transfer-complete` message) exactly
   * when the byte count has reached the declared size; `file-progress` with
   * the new progress p; a `progress` message with p exactly when p is not
   * below 0.01 ahead of the last one sent, which p then replaces.
   */
  lemma ChunkProgressThrottle(s: SessionState, chunk: seq<byte>)
    requires |chunk| > 0 && s.digester.Some? && s.digester.value.Valid()
    ensures var d := s.digester.value;
      var u := AfterUnchunk(d, chunk);
      var p := u.state.progress;
      var sent := !BelowThreshold(p, s.lastProgress);
      var done := d.bytesReceived + |chunk| >= d.size;
      var r := Receive(s, BinaryFrame(chunk));
      && r.digester == Some(u.state)
      && r.digester.value.buffer == d.buffer + [chunk]
      && (done <==> u.completed.Some?)
      && r.events == s.events
           + (if done then [FileReceived(ReceivedFile(d.name, d.mime, d.size, Flatten(d.buffer) + chunk))] else [])
           + [FileProgress(s.peerId, p)]
      && r.outbox == s.outbox
           + (if done then [TextFrame(TransferComplete)] else [])
           + (if sent then [TextFrame(ProgressReport(p))] else [])
      && r.lastProgress == (if sent then p else s.lastProgress)
      && r.queue == s.queue && r.busy == s.busy && r.chunker == s.chunker
  {
    UnchunkKeepsCount(s.digester.value, chunk);
  }

  /**
   * The throttle in terms of ratios: a `progress` message after one with
   * value l carries a value at least l + 0.01; a suppressed one was less
   * than 0.01 ahead.
   */
  lemma ThrottleStep(p: real, l: real)
    ensures !BelowThreshold(Ratio(p), Ratio(l)) <==> p >= l + 0.01
  {
  }

  /**
   * `transfer-complete` fires progress 1, clears `busy`, starts the next
   * queued file if there is one (busy again, its header and first
   * partition out), and notifies the user.
   */
  lemma TransferCompleteStartsNext(s: SessionState)
    ensures var r := Receive(s, TextFrame(TransferComplete));
      && r.busy == (s.queue != [])
      && r.queue == (if s.queue == [] then [] else s.queue[1..])
      && (s.queue == [] ==> r.outbox == s.outbox && r.chunker == s.chunker)
      && (s.queue != [] ==> r.outbox[..|s.outbox| + 1] == s.outbox + [TextFrame(HeaderOf(s.queue[0]))])
      && r.events[..|s.events| + 1] == s.events + [FileProgress(s.peerId, Ratio(1.0))]
      && r.events[|r.events| - 1] == NotifyUser(TransferCompletedNote)
      && r.digester == s.digester && r.lastProgress == s.lastProgress
  {
    var s1 := Fire(s, FileProgress(s.peerId, Ratio(1.0))).(busy := false);
    if s.queue != [] {
      var s2 := s1.(busy := true, queue := s1.queue[1..]);
      var h := SendJson(s2, HeaderOf(s.queue[0]));
      assert h.outbox == s.outbox + [TextFrame(HeaderOf(s.queue[0]))];
      var r := Receive(s, TextFrame(TransferComplete));
      assert r.outbox == h.outbox + ChunkFrames(NextPartitionRun(ChunkerState(s.queue[0].content, 0, 0)).events);
    }
  }

  /**
   * `sendFiles` appends the files, in order, behind the queued ones; a peer
   * that was not busy starts the head of the queue at once.
   */
  lemma SendFilesEnqueues(s: SessionState, files: seq<File>)
    ensures var r := SendFiles(s, files);
      var q := s.queue + files;
      && (s.busy ==> r == s.(queue := q))
      && (!s.busy && q == [] ==> r == s)
      && (!s.busy && q != [] ==>
            && r.busy && r.queue == q[1..]
            && r.outbox[..|s.outbox| + 1] == s.outbox + [TextFrame(HeaderOf(q[0]))])
  {
    var q := s.queue + files;
    if !s.busy && q != [] {
      var s2 := s.(queue := q).(busy := true, queue := q[1..]);
      assert SendJson(s2, HeaderOf(q[0])).outbox == s.outbox + [TextFrame(HeaderOf(q[0]))];
    }
  }
}
