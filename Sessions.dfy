/**
 * The `Peer` object of `modules/client/src/utils/Network.ts` with its
 * fields updated in place. Its chunker and digester are the `Chunker` and
 * `Digester` objects; `_send` appends to `outbox` and `Events.fire`
 * appends to `events`.
 *
 * Every method is proved against the function of the same step on
 * `SessionState`, so the properties proved there (first-in first-out
 * sending, one `file-received` per file, the invariant `Transfer.Valid`)
 * hold of the object's fields.
 */
module Sessions {
  import opened Base
  import opened Chunking
  import opened Digesting
  import opened Protocol

  class Peer {
    const peerId: string
    var queue: seq<File>
    var busy: bool
    var chunker: Chunker?
    var digester: Digester?
    var lastProgress: Progress
    var outbox: seq<Frame>
    var events: seq<UiEvent>

    /** The peer's fields, with the chunker and digester taken as values. */
    function State(): SessionState
      reads this, chunker, digester
    {
      SessionState(peerId, queue, busy,
        if chunker == null then None else Some(chunker.Value()),
        if digester == null then None else Some(digester.Value()),
        lastProgress, outbox, events)
    }

    constructor (peerId: string)
      ensures State() == NewSession(peerId)
    {
      this.peerId := peerId;
      queue := [];
      busy := false;
      chunker := null;
      digester := null;
      lastProgress := Ratio(0.0);
      outbox := [];
      events := [];
    }

    /** `sendJSON(message)` */
    method SendJson(m: Message)
      modifies this
      ensures State() == Protocol.SendJson(old(State()), m)
    {
      outbox := outbox + [TextFrame(m)];
    }

    method Fire(e: UiEvent)
      modifies this
      ensures State() == Protocol.Fire(old(State()), e)
    {
      events := events + [e];
    }

    /** The chunker's callbacks, in the order the chunker invoked them. */
    method Emit(run: seq<ChunkEvent>)
      modifies this
      ensures State() == old(State()).(outbox := old(outbox) + ChunkFrames(run))
    {
      outbox := outbox + ChunkFrames(run);
    }

    /** `sendFiles(files)` */
    method SendFiles(files: seq<File>)
      modifies this
      ensures State() == Protocol.SendFiles(old(State()), files)
    {
      for i := 0 to |files|
        invariant State() == old(State()).(queue := old(queue) + files[..i])
      {
        queue := queue + [files[i]];
        assert files[..i + 1] == files[..i] + [files[i]];
      }
      assert files[..|files|] == files;
      if busy {
        return;
      }
      DequeueFile();
    }

    /** `_dequeueFile()` */
    method DequeueFile()
      modifies this
      ensures State() == Dequeue(old(State()))
    {
      if queue == [] {
        return;
      }
      busy := true;
      var file := queue[0];
      queue := queue[1..];
      SendFile(file);
    }

    /** `_sendFile(file)`: the header, then a new chunker's first partition. */
    method SendFile(file: File)
      modifies this
      ensures State() == StartFile(old(State()), file)
    {
      SendJson(HeaderOf(file));
      var c := new Chunker(file.content);
      chunker := c;
      var run := c.NextPartition();
      Emit(run);
    }

    /** `_sendNextPartition()` */
    method SendNextPartition()
      modifies this, chunker
      ensures State() == Protocol.SendNextPartition(old(State()))
    {
      if chunker == null || chunker.IsFileEnd() {
        return;
      }
      var run := chunker.NextPartition();
      Emit(run);
    }

    /** `_onFileHeader(header)` */
    method OnFileHeader(name: string, mime: string, size: nat)
      modifies this
      ensures State() == ReceiveHeader(old(State()), name, mime, size)
    {
      lastProgress := Ratio(0.0);
      digester := new Digester(name, mime, size);
    }

    /**
     * `_onChunkReceived(chunk)`; a missing digester makes the handler
     * throw before any field changes.
     */
    method OnChunkReceived(chunk: seq<byte>)
      modifies this, digester
      ensures State() == ReceiveChunk(old(State()), chunk)
    {
      if |chunk| == 0 || digester == null {
        return;
      }
      var completed := digester.Unchunk(chunk);
      if completed.Some? {
        OnFileReceived(completed.value);
      }
      var progress := digester.progress;
      Fire(FileProgress(peerId, progress));
      if BelowThreshold(progress, lastProgress) {
        return;
      }
      lastProgress := progress;
      SendJson(ProgressReport(progress));
    }

    /** `_onFileReceived(file)`, the digester's callback. */
    method OnFileReceived(file: ReceivedFile)
      modifies this
      ensures State() == Protocol.SendJson(Protocol.Fire(old(State()), FileReceived(file)), TransferComplete)
    {
      Fire(FileReceived(file));
      SendJson(TransferComplete);
    }

    /** `_onTransferCompleted()` */
    method OnTransferCompleted()
      modifies this
      ensures State() == TransferCompleted(old(State()))
    {
      Fire(FileProgress(peerId, Ratio(1.0)));
      busy := false;
      DequeueFile();
      Fire(NotifyUser(TransferCompletedNote));
    }

    /** `_onMessage(message)` */
    method OnMessage(frame: Frame)
      modifies this, chunker, digester
      ensures State() == Receive(old(State()), frame)
    {
      match frame
      case BinaryFrame(data) => OnChunkReceived(data);
      case TextFrame(m) =>
        match m {
          case PeerDeclined => Fire(PeerDeclinedEvent);
          case PeerRequested => Fire(PeerRequestedEvent);
          case PeerDisconnected => Fire(PeerDisconnectedEvent);
          case Header(name, mime, size) => OnFileHeader(name, mime, size);
          case Partition(offset) => SendJson(PartitionReceived(offset));
          case PartitionReceived(_) => SendNextPartition();
          case ProgressReport(p) => Fire(FileProgress(peerId, p));
          case TransferComplete => OnTransferCompleted();
          case Text(_) =>
          case Other(_) =>
        }
    }
  }
}
