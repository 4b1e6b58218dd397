# fataak file drop, modelled in Dafny

Fataak is a peer-to-peer file drop for browsers. A rendezvous server groups
the browsers that share a public address into a *room*. It tells every
member who else is there and relays their signalling messages. Two peers then
exchange files directly. A peer sends a JSON header, then the file in 64000-byte
chunks grouped into partitions of about one megabyte. The receiver acknowledges
each partition, reports progress, and announces the completed file.

This project models three parts of that system and proves what they promise.

- **The transfer engine of a client** (`modules/client/src/utils/Network.ts`):
  - The chunker (`Chunking.Chunker`, module `Chunking`) walks a file and can
    rewind one partition.
  - The digester (`Digesting.Digester`) collects the chunks and fires
    completion once the announced size is reached.
  - The `Peer` state machine has a FIFO file queue and a `busy` flag.
    - Its steps are pure functions on the peer's fields, taken as one value
      (module `Protocol`).
    - The same steps are also methods of a class that updates those fields in
      place (`Sessions.Peer`). Each method is proved equal to its function.
    - Properties across many steps live in `Transfer`: the protocol
      invariant, FIFO order of files, and delivery of a whole file.
  - The JSON envelope a WebSocket-relayed peer sends is modelled in `Framing`.
- **The client's peer registry** (`PeersManager` in the same file, module
  `Registry`). It is a dictionary from peer id to the kind of connection:
  WebRTC or relayed through the server.
- **The rendezvous server** (`modules/server/src/index.ts`):
  - Rooms, joining, leaving, relaying, dispatch and the heartbeat are in
    module `Rendezvous`.
  - The pure helpers are in `Identity`: the client address, the peer id from
    the cookie, the `Set-Cookie` handshake and the Java-style `hashCode`.
- **The draft chunker** (`modules/client/src/FileChunker.ts`, module
  `DraftChunking`). It reads the whole file in 64000-byte slices with no
  partitions.

The models keep some effects as plain data:

- Everything a peer or the server sends is appended to an outbox sequence.
  A peer's outbox is `outbox`; the server's is `sent`.
- Everything fired on the browser's event bus is appended to `events`.
- Time is a parameter (`now`).
- The server's `for…in` loops visit a room in an order the model does not
  fix. Each loop returns the order it used, and the contracts hold for every
  order.
- A file is a `seq<byte>`.
- Progress is an exact real number, or `Infinite` for the JavaScript
  `x / 0` with `x > 0`.

The code is followed where it differs from the system's design documents:

- The heartbeat evicts a peer only when more than 60000 ms have passed since
  its last beat, strictly. With a 30000 ms timer, that is the third probe
  after the last `pong`, 90 s after it, not the second
  (`Rendezvous.SilentPeerEvictedAtThirdProbe`).
- The server relays by `message.data.peer_id`. Clients put the target in
  `to`. So a message from a WebSocket-relayed client is never forwarded: a
  JSON message has no `data`, and reading its `peer_id` throws
  (`Rendezvous.WsEnvelopeNeverRelayed`). WebRTC signalling
  (`RTCPeer._sendSignal`, `modules/client/src/utils/Network.ts:401-404`)
  also addresses its target in `to`, with no `data`, so it is not relayed
  either.
- An empty file is sent as one empty chunk, which the receiver ignores. It
  never completes, so the receiver never sends `transfer-complete`, and the
  sender stays busy with the rest of its queue waiting
  (`Transfer.EmptyFileNeverCompletes`).
- Event names follow the string literals in `Network.ts`
  (`transfer-complete`).

## Model

Source paths are relative to the repository root.

| member | source | states |
|---|---|---|
| `Base.BlobSlice` | modules/client/src/utils/Network.ts:525 | `File.slice(start, end)` clamps both ends to the file: the result is the file's bytes from `start`, of length `min(end,size) - min(start,size)`, and never longer than `end - start` |
| `Chunking.ReadChunksBounds` | modules/client/src/utils/Network.ts:529-539 | each read advances `_offset` by the bytes read and never past the file size; the offset moves unless the file has already ended; `_partitionSize` grows by exactly the bytes read |
| `Chunking.ReadChunksAtFileEnd` | modules/client/src/utils/Network.ts:529-533 | one step of the read loop, by unfolding `ReadChunks`: the read that reaches the end of the file emits its chunk and stops, with no partition end |
| `Chunking.ReadChunksAtPartitionEnd` | modules/client/src/utils/Network.ts:534-536 | one step, by unfolding `ReadChunks`: a read that brings the partition to at least 1,000,000 bytes, before the end of the file, emits its chunk, then the partition end with the new offset, and stops |
| `Chunking.ReadChunksContinues` | modules/client/src/utils/Network.ts:538 | one step, by unfolding `ReadChunks`: otherwise the chunk is emitted and the next read follows |
| `Chunking.NextPartitionRun` | modules/client/src/utils/Network.ts:519-522 | `nextPartition` keeps the chunker's invariant and never moves the offset back; it moves it forward unless the file has ended |
| `Chunking.RepeatPartitionRun` | modules/client/src/utils/Network.ts:541-544 | `repeatPartition` keeps the chunker's invariant |
| `Chunking.ReadChunksCoversBytes` | modules/client/src/utils/Network.ts:524-532 | the chunks of one run concatenate to exactly the file's bytes between the old and the new offset |
| `Chunking.ReadChunksShape` | modules/client/src/utils/Network.ts:529-548 | a run is chunks of at most 64000 bytes; it ends in a partition end (with a partition of at least 1,000,000 bytes) exactly when the file has not ended, and otherwise in a chunk |
| `Chunking.FullPartitionFrom` | modules/client/src/utils/Network.ts:502-548 | from `j` full chunks into a partition that does not reach the end of the file, the run reads `16 - j` more chunks of exactly 64000 bytes |
| `Chunking.NonFinalPartitionSize` | modules/client/src/utils/Network.ts:529-548 | every partition but the last is 16 chunks, 1,024,000 bytes |
| `Chunking.RepeatReplaysPartition` | modules/client/src/utils/Network.ts:541-544 | rewinding after a partition re-emits exactly the same chunks and partition end, and leaves the same chunker state |
| `Chunking.TransmissionStep` | modules/client/src/utils/Network.ts:519-552 | by unfolding `Transmission`: the transmission of a file from an offset is one partition, then (unless the file has ended) the transmission from that partition's end |
| `Chunking.TransmissionCoversFile` | modules/client/src/utils/Network.ts:519-552 | the chunks of the whole transmission concatenate to the file from the starting offset |
| `Chunking.TransmissionEndsWithChunk` | modules/client/src/utils/Network.ts:529-533 | a transmission is never empty and never ends in a partition end: none is signalled after the final chunk |
| `Chunking.Chunker.constructor` | modules/client/src/utils/Network.ts:504-517 | a new chunker is at offset 0 with an empty partition |
| `Chunking.Chunker.ReadChunk` | modules/client/src/utils/Network.ts:524-531 | reads the slice `[offset, offset + 64000)` and advances both counters by its length |
| `Chunking.Chunker.ReadFrom` | modules/client/src/utils/Network.ts:529-539 | the chain of reads ends in the state, and emits the events, of the reference run |
| `Chunking.Chunker.NextPartition` | modules/client/src/utils/Network.ts:519-522 | resets the partition, reads one partition as the reference run does, and keeps the invariant |
| `Chunking.Chunker.RepeatPartition` | modules/client/src/utils/Network.ts:541-544 | moves the offset back by the partition's size and reads it again, as the reference run does |
| `Digesting.MimeOrDefault` | modules/client/src/utils/Network.ts:570 | the result is never empty; an empty mime becomes `application/octet-stream`; any other is kept |
| `Digesting.ProgressCompleteIsOne` | modules/client/src/utils/Network.ts:578-579 | all bytes received gives progress 1, also for an empty file (0/0) |
| `Digesting.ProgressMonotone` | modules/client/src/utils/Network.ts:578 | for a non-empty file, progress lies in [0, 1] while the bytes do not exceed the size, grows with the bytes received, and is 1 exactly at the size |
| `Digesting.UnchunkKeepsCount` | modules/client/src/utils/Network.ts:575-589 | `unchunk` appends the chunk to the buffer and the byte count stays the buffer's total; completion fires exactly when the count reaches the size, with the concatenated buffer as the blob |
| `Digesting.DigestExactlyOnce` | modules/client/src/utils/Network.ts:575-589 | non-empty chunks that complete a file fire completion exactly once, with the whole file, and leave progress 1 |
| `Digesting.Digester.constructor` | modules/client/src/utils/Network.ts:568-573 | a new digester has an empty buffer and the header's name, size and mime (defaulted) |
| `Digesting.Digester.Unchunk` | modules/client/src/utils/Network.ts:575-589 | the object's new fields, and the file it passes to the callback, are those of the reference step |
| `DraftChunking.DraftChunksConcatenate` | modules/client/src/FileChunker.ts:8-18 | the draft's chunks concatenate to the file |
| `DraftChunking.DraftChunksSizes` | modules/client/src/FileChunker.ts:3-18 | there are `max(1, ceil(size / 64000))` chunks, each at most 64000 bytes, all but the last exactly 64000; an empty file gives one empty chunk |
| `DraftChunking.DraftChunker.constructor` | modules/client/src/FileChunker.ts:2-6 | a new draft chunker is at offset 0 |
| `DraftChunking.DraftChunker.NextPartition` | modules/client/src/FileChunker.ts:8-22 | emits the chunks of the rest of the file in one call and ends at the file's size |
| `JsonValues.TypeOf` | modules/server/src/index.ts:73 | a message has a type exactly when its `type` field holds a string, and the type is that string |
| `Protocol.ZeroLengthFrameIgnored` | modules/client/src/utils/Network.ts:228-229 | an empty binary frame changes nothing |
| `Protocol.HeaderResetsProgress` | modules/client/src/utils/Network.ts:219-226 | a header resets the last progress sent to 0 and installs a new digester for that file; nothing else changes |
| `Protocol.PartitionAnswered` | modules/client/src/utils/Network.ts:201-202 | a `partition` is answered by `partition-received` with the same offset, and nothing else changes |
| `Protocol.UnknownTypeChangesNothing` | modules/client/src/utils/Network.ts:188-216 | a message of a type the handler does not name, and a `text` message, change no modelled field |
| `Protocol.NextPartitionNoOp` | modules/client/src/utils/Network.ts:172-175 | with no chunker, or a chunker at the end of its file, `partition-received` changes nothing |
| `Protocol.ChunkProgressThrottle` | modules/client/src/utils/Network.ts:228-242 | a non-empty chunk goes to the digester. If it completes the file, `file-received` is fired and `transfer-complete` sent. `file-progress` is always fired. A `progress` message is sent, and the last progress updated, only when the progress has advanced by at least 0.01. The sending side is untouched |
| `Protocol.ThrottleStep` | modules/client/src/utils/Network.ts:235 | for finite progress values, a report goes out exactly when `p >= last + 0.01` |
| `Protocol.TransferCompleteStartsNext` | modules/client/src/utils/Network.ts:250-255 | `transfer-complete` fires progress 1, clears `busy`, starts the next queued file (its header first) if there is one, and fires the notice last |
| `Protocol.SendFilesEnqueues` | modules/client/src/utils/Network.ts:136-149 | `sendFiles` appends the files in order. When busy, that is all; otherwise the head of the queue starts, with its header frame first, and the peer becomes busy |
| `Transfer.ChunkFramesContent` | modules/client/src/utils/Network.ts:158-166 | the frames of a chunker run carry no header and exactly its chunks' bytes |
| `Transfer.NewSessionValid` | modules/client/src/utils/Network.ts:114-130 | a new peer satisfies the protocol invariant: idle with an empty queue, and the bytes sent since the last header are those the chunker read |
| `Transfer.StartFileHeaders` | modules/client/src/utils/Network.ts:151-162 | starting a file adds exactly its header to the headers sent |
| `Transfer.DequeueHeaders` | modules/client/src/utils/Network.ts:144-149 | dequeuing sends the header of the queue's head (if any) and removes it from the queue; the peer is busy if it was or a file started |
| `Transfer.ReceiveChunkKeepsSender` | modules/client/src/utils/Network.ts:228-238 | a received chunk leaves the sending side alone: queue, `busy`, chunker, headers and the stream in flight |
| `Transfer.SendNextPartitionHeaders` | modules/client/src/utils/Network.ts:172-175 | sending the next partition sends no header and leaves the queue and `busy` |
| `Transfer.TransferCompletedHeaders` | modules/client/src/utils/Network.ts:250-255 | `transfer-complete` starts the head of the queue, if any, and `busy` then says whether one started |
| `Transfer.ReceiveHeaders` | modules/client/src/utils/Network.ts:181-217 | of all received frames, only `transfer-complete` with a non-empty queue sends a header (of the queue's head) or changes the queue |
| `Transfer.SendFilesHeaders` | modules/client/src/utils/Network.ts:136-142 | `sendFiles` sends the header of the combined queue's head exactly when the peer was idle |
| `Transfer.StartFileValid` | modules/client/src/utils/Network.ts:151-162 | starting a file while busy establishes the invariant: the header announces the file's size and no byte is yet past the chunker's offset |
| `Transfer.DequeueValid` | modules/client/src/utils/Network.ts:144-149 | dequeuing keeps the invariant |
| `Transfer.SendNextPartitionValid` | modules/client/src/utils/Network.ts:172-175 | sending the next partition keeps the bytes since the header equal to the bytes the chunker has read |
| `Transfer.ReceiveChunkValid` | modules/client/src/utils/Network.ts:228-238 | receiving a chunk keeps the invariant |
| `Transfer.TransferCompletedValid` | modules/client/src/utils/Network.ts:250-255 | `transfer-complete` keeps the invariant; only one file is in flight |
| `Transfer.ReceiveValid` | modules/client/src/utils/Network.ts:181-217 | every received frame keeps the invariant |
| `Transfer.SendFilesValid` | modules/client/src/utils/Network.ts:136-142 | `sendFiles` keeps the invariant, becomes busy iff it was or files were given, and sends the first file's header when idle |
| `Transfer.SendFilesFifo` | modules/client/src/utils/Network.ts:136-149 | the headers sent followed by those of the queue grow by exactly the new files' headers, in order |
| `Transfer.ReceiveFifo` | modules/client/src/utils/Network.ts:250-253 | no received frame reorders, drops or adds a submitted file: files start in FIFO order |
| `Transfer.ReceiveSenderFrame` | modules/client/src/utils/Network.ts:181-185 | at the receiver, a chunk of a sender's output advances the digester as `unchunk` does and logs the completed file if there is one; a partition end leaves both alone |
| `Transfer.ReceiveSenderFrames` | modules/client/src/utils/Network.ts:228-248 | a sender's frames drive the receiver's digester as the digester's chunks would, and log exactly the files it completes |
| `Transfer.PayloadsFlatten` | modules/client/src/utils/Network.ts:228-231 | the non-empty payloads the digester is given concatenate to all binary data |
| `Transfer.TransmissionFramesAreSenderFrames` | modules/client/src/utils/Network.ts:158-166 | a whole transmission is chunks and partition ends only, and its binary data is the file |
| `Transfer.ChunkFramesAreSenderFrames` | modules/client/src/utils/Network.ts:158-166 | the frames of any chunker run are chunks and partition ends only |
| `Transfer.ReceiveWholeFile` | modules/client/src/utils/Network.ts:219-248 | a header and then the whole transmission of a non-empty file make the receiver log exactly one `file-received`, with the file's name, defaulted mime, size and bytes; progress ends at 1 |
| `Transfer.EmptyFileNeverCompletes` | modules/client/src/utils/Network.ts:228-229 | an empty file is sent as one empty chunk, which the receiver ignores, so it never completes |
| `Sessions.Peer.constructor` | modules/client/src/utils/Network.ts:114-130 | a new peer's fields: an empty queue, idle, no chunker or digester, last progress 0 |
| `Sessions.Peer.SendJson` | modules/client/src/utils/Network.ts:132-134 | `sendJSON` appends one text frame |
| `Sessions.Peer.Fire` | modules/client/src/utils/Network.ts:240-242 | firing an event appends it to the log |
| `Sessions.Peer.Emit` | modules/client/src/utils/Network.ts:158-160 | the chunker's callbacks append a binary frame per chunk and a `partition` message per partition end |
| `Sessions.Peer.SendFiles` | modules/client/src/utils/Network.ts:136-142 | the loop pushes each file, in order, then dequeues if idle; the fields end as the step function says |
| `Sessions.Peer.DequeueFile` | modules/client/src/utils/Network.ts:144-149 | as the step function `Protocol.Dequeue` |
| `Sessions.Peer.SendFile` | modules/client/src/utils/Network.ts:151-162 | header, then a new chunker's first partition, as `Protocol.StartFile` |
| `Sessions.Peer.SendNextPartition` | modules/client/src/utils/Network.ts:172-175 | as `Protocol.SendNextPartition` |
| `Sessions.Peer.OnFileHeader` | modules/client/src/utils/Network.ts:219-226 | as `Protocol.ReceiveHeader` |
| `Sessions.Peer.OnChunkReceived` | modules/client/src/utils/Network.ts:228-238 | as `Protocol.ReceiveChunk` |
| `Sessions.Peer.OnFileReceived` | modules/client/src/utils/Network.ts:245-248 | fires `file-received`, then sends `transfer-complete` |
| `Sessions.Peer.OnTransferCompleted` | modules/client/src/utils/Network.ts:250-255 | as `Protocol.TransferCompleted` |
| `Sessions.Peer.OnMessage` | modules/client/src/utils/Network.ts:181-217 | the dispatch on the frame's kind and type, as `Protocol.Receive` |
| `Framing.MessageJson` | modules/client/src/utils/Network.ts:132-134 | a sent message is a JSON object whose `type` is the message's type name |
| `Framing.MessageRoundTrip` | modules/client/src/utils/Network.ts:132-134 | reading back the JSON of a message gives the message exactly when it is representable (not an infinite progress, not an unknown type spelled like a known one) |
| `Framing.WsEnvelope` | modules/client/src/utils/Network.ts:494-498 | `WSPeer._send` sends an object whose `to` is the peer's id |
| `Framing.EnvelopeKeepsMessage` | modules/client/src/utils/Network.ts:494-497 | a text envelope carries the message's own fields and type, with `to` overriding |
| `Framing.BinaryBytesLost` | modules/client/src/utils/Network.ts:495 | every binary envelope is the same object, with `data` an empty object: the bytes do not reach the server |
| `Framing.EnvelopeHasNoPeerId` | modules/client/src/utils/Network.ts:494-498 | no envelope has a `data.peer_id` |
| `Registry.NewKind` | modules/client/src/utils/Network.ts:458-462 | a new peer is WebRTC iff both the local browser and the remote peer support it |
| `Registry.OnPeer` | modules/client/src/utils/Network.ts:453-463 | one snapshot entry. A known WebSocket peer throws in `refresh` and aborts. A known WebRTC peer is refreshed and keeps its kind. A known WebRTC peer's refresh count goes up by one, and an abort leaves the dictionary as it was. An unknown id gets a new entry of the kind both sides support, with no refreshes. No other entry changes, and the ids are the old ones plus this one |
| `Registry.IdsNamed` | modules/client/src/utils/Network.ts:449-452 | an id is among a snapshot's ids iff some entry names it |
| `Registry.OnPeersKeeps` | modules/client/src/utils/Network.ts:449-464 | `_onPeers` never removes an id or changes a kind; when it is not aborted, the ids after it are the old ids plus the snapshot's |
| `Registry.OnPeersCovers` | modules/client/src/utils/Network.ts:449-464 | when not aborted, every snapshot id has an entry |
| `Registry.AbortedStays` | modules/client/src/utils/Network.ts:453-457 | once `refresh` throws, the rest of the snapshot is not processed |
| `Registry.OnPeersEntries` | modules/client/src/utils/Network.ts:449-464 | for a snapshot of distinct ids that is not aborted: each known id is refreshed exactly once and keeps its kind, each new id gets one new entry of the kind both ends decide, and other entries are unchanged |
| `Registry.OnPeersAborted` | modules/client/src/utils/Network.ts:453-457 | for distinct ids, a snapshot aborts iff it names a known WebSocket peer |
| `Registry.OnPeerLeft` | modules/client/src/utils/Network.ts:478-483 | `_onPeerLeft` removes the id and keeps every other entry; an unknown id changes nothing |
| `Registry.OnSignal` | modules/client/src/utils/Network.ts:442-447 | a signal from an unknown sender creates a WebRTC entry first; other entries are kept; it is delivered iff the sender's entry is WebRTC |
| `Registry.UnknownSenderDelivered` | modules/client/src/utils/Network.ts:442-447 | a signal from an unknown sender is always delivered, to the new entry |
| `Registry.PeersManager.constructor` | modules/client/src/utils/Network.ts:421-433 | a new manager has no peers |
| `Registry.PeersManager.HandlePeers` | modules/client/src/utils/Network.ts:449-464 | the `forEach` loop leaves exactly the dictionary of the reference fold and reports whether it completed |
| `Registry.PeersManager.HandleSignal` | modules/client/src/utils/Network.ts:442-447 | as `OnSignal`; a delivered signal is recorded |
| `Registry.PeersManager.HandlePeerLeft` | modules/client/src/utils/Network.ts:478-483 | as `OnPeerLeft`; `close()` is attempted on the connection (which may be null) iff the removed entry was WebRTC |
| `Identity.IndexOf` | modules/server/src/index.ts:59 | the first occurrence of a pattern at or after a position, or none |
| `Identity.IncludesIff` | modules/server/src/index.ts:59 | `includes` holds iff the pattern occurs somewhere |
| `Identity.RemoveFirst` | modules/server/src/index.ts:200 | `replace` with a string pattern cuts out the first occurrence only, keeping the text on both sides, or leaves a string without one unchanged |
| `Identity.TrimEnd` | modules/server/src/index.ts:192 | removes exactly the trailing whitespace |
| `Identity.FirstListEntry` | modules/server/src/index.ts:192 | `split(/\s*,\s*/)[0]` is the text before the first comma with its trailing whitespace removed, or the whole string without a comma |
| `Identity.ExtractIPCases` | modules/server/src/index.ts:190-194 | no header and no socket address gives `unknown`; with no forwarded header, the socket address is used, the two loopback forms becoming `127.0.0.1`; with one, its first list entry is used, mapped the same way; a single forwarded address is used as is; the result is never a loopback form |
| `Identity.ForwardedListFirst` | modules/server/src/index.ts:192 | `first  ,rest` yields `first` |
| `Identity.TrimGap` | modules/server/src/index.ts:192 | trimming removes the whitespace after the last non-space character |
| `Identity.ExtractPeerId` | modules/server/src/index.ts:196-198 | an id attached by the handshake wins; otherwise the id is the cookie header with its first `peerid=` removed, or empty without a cookie header |
| `Identity.ExtractPeerIdOfCookie` | modules/server/src/index.ts:196-201 | a cookie of exactly `peerid=X` yields `X` |
| `Identity.ExtractPeerIdOfCookies` | modules/server/src/index.ts:196-201 | a cookie header `A + "peerid=" + B` with no `peerid=` inside `A` yields `A + B`: other cookies in front and after are kept in the id |
| `Identity.ExtractPeerIdOfTwoCookies` | modules/server/src/index.ts:199-200 | an instance of `ExtractPeerIdOfCookies`: `theme=dark; peerid=abc` yields `theme=dark; abc` |
| `Identity.OnHeaders` | modules/server/src/index.ts:58-62 | a cookie with `peerid=` leaves the handshake alone; otherwise the minted id is attached and exactly one `Set-Cookie` line is added |
| `Identity.CookieRoundTrip` | modules/server/src/index.ts:58-62 | the id minted in the handshake is the id of the connection, and the cookie it sets later yields that id |
| `Identity.RtcSupported` | modules/server/src/index.ts:185 | WebRTC support is claimed iff the URL contains `webrtc` |
| `Identity.Wrap32` | modules/server/src/index.ts:253 | `hash \|= 0` gives a value in [-2^31, 2^31) congruent to its argument modulo 2^32, and keeps one already there |
| `Identity.Hash` | modules/server/src/index.ts:248-256 | the reference fold over UTF-16 code units is a 32-bit value, and 0 for the empty string |
| `Identity.ShiftStep` | modules/server/src/index.ts:252-253 | `(h << 5) - h + c`, wrapped, equals `31 h + c` wrapped |
| `Identity.HashCode` | modules/server/src/index.ts:248-256 | the loop computes the reference fold |
| `Identity.HashSnoc` | modules/server/src/index.ts:250-254 | by unfolding `Hash`: each code unit updates the hash by `h := wrap32(31 h + c)` |
| `Identity.HashExample` | modules/server/src/index.ts:248-256 | a worked value of `Hash`: `"ab".hashCode()` is 3105 |
| `Rendezvous.ServerPeer.constructor` | modules/server/src/index.ts:181-188 | a connection's address, id and WebRTC support come from the request; its last beat is now; no timer yet |
| `Rendezvous.WireJson` | modules/server/src/index.ts:105-139 | every message the server itself builds is an object with a `type`; a relayed one goes out as it was changed |
| `Rendezvous.Broadcast` | modules/server/src/index.ts:103-109 | one delivery of the message per visited id, to that member, in order |
| `Rendezvous.BroadcastCount` | modules/server/src/index.ts:103-109 | a broadcast over distinct ids reaches a peer once if it is filed under a visited id, else never |
| `Rendezvous.BroadcastOnce` | modules/server/src/index.ts:138-140 | a broadcast over an enumeration of a room reaches each member exactly once and no one else |
| `Rendezvous.Members` | modules/server/src/index.ts:113-115 | the members filed under the visited ids, in order |
| `Rendezvous.InfosStep` | modules/server/src/index.ts:113-115 | each visit appends that member's `getInfo()` |
| `Rendezvous.MembersExact` | modules/server/src/index.ts:111-120 | the joiner's `peers` list holds every member present before it joined, only those, and no id twice |
| `Rendezvous.InfosIndex` | modules/server/src/index.ts:225-231 | the i-th info is the i-th peer's `getInfo()` |
| `Rendezvous.PeersListDistinct` | modules/server/src/index.ts:111-120 | the `peers` snapshot a client's registry receives never names an id twice |
| `Rendezvous.JoinRooms` | modules/server/src/index.ts:96-125 | joining creates the room if absent and files the joiner under its id; other rooms are unchanged |
| `Rendezvous.JoinRoomsValid` | modules/server/src/index.ts:96-125 | joining keeps each room non-empty and keyed by id and address, and afterwards the joiner is a member |
| `Rendezvous.JoinNoticesOnce` | modules/server/src/index.ts:102-109 | every member present before the join gets exactly one `peer-joined`; the joiner gets none |
| `Rendezvous.LeaveRoomsEffect` | modules/server/src/index.ts:127-142 | leaving is a no-op if the room or the member is absent; otherwise it removes the member, deletes the room iff it became empty, keeps the invariant and leaves other rooms unchanged |
| `Rendezvous.LeaveNoticesOnce` | modules/server/src/index.ts:135-141 | every member left behind gets exactly one `peer-left` with the leaver's id, and no one else any |
| `Rendezvous.RelayForwardsIff` | modules/server/src/index.ts:85-94 | a missing or null `data` throws; otherwise a message is forwarded iff `data.peer_id` is a non-empty id in the sender's own room, to that member, with `data.peer_id` removed, `sender` set to the sender's id and other fields kept |
| `Rendezvous.WsEnvelopeNeverRelayed` | modules/server/src/index.ts:85-94 | nothing a WebSocket-relayed client sends is forwarded; its JSON messages throw |
| `Rendezvous.Classify` | modules/server/src/index.ts:64-83 | unparseable JSON is dropped; `null` throws on `.type`; `disconnect` and `pong` are recognised by type; everything else goes to relay, unchanged |
| `Rendezvous.SilentPeerEvictedAtThirdProbe` | modules/server/src/index.ts:152-163 | probing every 30 s after a last beat at t evicts at the k-th probe iff k >= 3 |
| `Rendezvous.Server.constructor` | modules/server/src/index.ts:30-40 | the server starts with no rooms and nothing sent |
| `Rendezvous.Server.EnumerateKeys` | modules/server/src/index.ts:103 | a `for…in` loop visits every key of the room exactly once |
| `Rendezvous.Server.Notify` | modules/server/src/index.ts:138-140 | sends the message to each member in the order visited, and changes no room |
| `Rendezvous.Server.ListPeers` | modules/server/src/index.ts:112-115 | the list is the members' `getInfo()` in the order visited |
| `Rendezvous.Server.InfosOf` | modules/server/src/index.ts:113-115 | the loop collects each visited member's `getInfo()` |
| `Rendezvous.Server.JoinRoom` | modules/server/src/index.ts:96-125 | the rooms become `JoinRooms`; `sent` gains one `peer-joined` per member, then the `peers` list for the joiner |
| `Rendezvous.Server.LeaveRoom` | modules/server/src/index.ts:127-142 | the rooms become `LeaveRooms`. A member's timer is cancelled and its socket terminated. `sent` gains one `peer-left` per remaining member; a non-member changes nothing |
| `Rendezvous.Server.KeepAlive` | modules/server/src/index.ts:152-169 | cancels any timer. With more than 60000 ms since the last beat it evicts the peer as `LeaveRoom` does; otherwise it sends one `ping` and schedules one timer |
| `Rendezvous.Server.RelayMessage` | modules/server/src/index.ts:85-94 | sends to the target exactly when `Relay` forwards, and changes no room |
| `Rendezvous.Server.OnMessage` | modules/server/src/index.ts:64-83 | `disconnect` leaves; `pong` sets the last beat to now; anything else is relayed; a malformed or `null` message changes nothing |
| `Rendezvous.Server.OnConnection` | modules/server/src/index.ts:42-56 | a new connection joins its room, gets its `peers` list, a `ping` and its display name, in that order, and has a timer pending |

## Left out

- `ServerConnection` (the client's WebSocket, its reconnect timer,
  visibility and unload hooks) is plumbing. Only the object `WSPeer._send`
  hands to it is modelled.
- `RTCPeer` and WebRTC negotiation are foreign browser APIs. A WebRTC peer is
  an entry kind in the registry. The session model is the same for both
  kinds of transport.
- Text sharing (`sendText`, `_onTextReceived`) uses `btoa`, `atob` and
  `alert`. A `text` message is received as a message that changes no
  modelled field.
- `PeersManager.sendTo`, `_onFilesSelected` and `_onSendText` only look up a
  peer and call it.
- The chunker's `progress` getter is not used by the transfer; it is omitted.
- Progress is an exact real; IEEE rounding of `bytesReceived / size`, and of
  the 0.01 step, is not modelled.
- `FileReader` is asynchronous; each chunk read is modelled as completing
  at once, in order.
- The relative order of a peer's frames and its UI events is not kept; they
  are separate logs.
- `Framing.MessageJson`: only the messages a peer builds are modelled, not
  `JSON.stringify` in general. Infinity is written as `null`.
- `Rendezvous.Relay`: a truthy `peer_id` that is not a string (a number, say)
  is coerced to a key by JavaScript; here it is never forwarded. Lookups of
  `Object.prototype` keys such as `constructor` are not modelled.
- `Sessions.Peer.OnChunkReceived`: a chunk that arrives before any header
  makes the source throw on the missing digester. It is modelled as changing
  nothing.
- `Rendezvous.Classify`: an uncaught `TypeError` in the handler, such as
  relaying a message without `data`, is modelled as an outcome that changes
  nothing. The exception escapes the socket's `message` listener, so in
  Node.js it most likely ends the server process; process termination is
  not modelled.
- The server's `for…in` and `Object.values` order is left open. The model
  proves its properties for every enumeration.
- `_send`'s check that the socket is open is left out: every message is
  recorded as sent.
- `setTimeout` and `clearTimeout` are a `timerPending` flag. The timer firing
  is a call of `KeepAlive` at a given time.
- `_generateName`, with `ua-parser-js` and the name generator, is not
  modelled. A connection's name is a parameter.
- `Peer.uuid` draws from `Math.random`. The minted id is a parameter of
  `OnHeaders`.
- The server's signal handlers, the `WebSocketServer` and the process are
  runtime, not logic.
- Strings are sequences of Unicode characters. `hashCode` is stated on UTF-16
  code units (`Identity.codeUnit`); the conversion between the two is not
  modelled.
- `modules/client/src/utils/Events.ts` is a wrapper over `window` events.
  The models use the event names `Network.ts` spells out.
- The React components and `modules/client/src/types/PeerInfo.ts` are not
  part of this model.
