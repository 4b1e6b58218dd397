/**
 * What goes over the wire for a peer's messages.
 *
 * `sendJSON` turns a `Message` into a JSON object with a `type` field.
 * `WSPeer._send` (modules/client/src/utils/Network.ts) parses that string
 * back into an object, or wraps an ArrayBuffer as `{type: 'binary',
 * data}`. In both cases it sets `to` to the peer's id and gives the result
 * to the server connection, which sends `JSON.stringify` of it. An
 * ArrayBuffer has no enumerable properties, so it becomes `{}` and its
 * bytes never leave the client. Infinity becomes `null`.
 */
module Framing {
  import opened Base
  import opened JsonValues
  import opened Protocol

  /** The `type` field each message is sent with. */
  function TypeName(m: Message): string
  {
    match m
    case Header(_, _, _) => "header"
    case Partition(_) => "partition"
    case PartitionReceived(_) => "partition-received"
    case ProgressReport(_) => "progress"
    case TransferComplete => "transfer-complete"
    case Text(_) => "text"
    case PeerRequested => "peer-requested"
    case PeerDeclined => "peer-declined"
    case PeerDisconnected => "peer-disconnected"
    case Other(kind) => kind
  }

  predicate IsKnownType(t: string)
  {
    t in {"header", "partition", "partition-received", "progress", "transfer-complete",
          "text", "peer-requested", "peer-declined", "peer-disconnected"}
  }

  /** A number as `JSON.stringify` writes it, read back: `Infinity` becomes `null`. */
  function ProgressJson(p: Progress): Json
  {
    match p
    case Ratio(v) => JNumber(v)
    case Infinite => JNull
  }

  /** `JSON.parse(JSON.stringify(message))` for the objects `Peer` builds. */
  function MessageJson(m: Message): (r: Json)
    ensures r.JObject? && TypeOf(r) == Some(TypeName(m))
  {
    var t := map["type" := JString(TypeName(m))];
    match m
    case Header(name, mime, size) =>
      JObject(t["name" := JString(name)]["mime" := JString(mime)]["size" := JNumber(size as real)])
    case Partition(offset) => JObject(t["offset" := JNumber(offset as real)])
    case PartitionReceived(offset) => JObject(t["offset" := JNumber(offset as real)])
    case ProgressReport(p) => JObject(t["progress" := ProgressJson(p)])
    case Text(text) => JObject(t["text" := JString(text)])
    case _ => JObject(t)
  }

  /** A non-negative whole JSON number. */
  function NatOf(j: Option<Json>): (r: Option<nat>)
    ensures r.Some? ==> j == Some(JNumber(r.value as real))
  {
    if j.Some? && j.value.JNumber? && j.value.n >= 0.0 && j.value.n.Floor as real == j.value.n
    then Some(j.value.n.Floor as nat) else None
  }

  function StringOf(j: Option<Json>): (r: Option<string>)
    ensures r.Some? <==> j.Some? && j.value.JString?
  {
    if j.Some? && j.value.JString? then Some(j.value.s) else None
  }

  /**
   * How the receiving `_onMessage` reads a parsed JSON object as one of
   * the messages the protocol sends; None for a value that is not such a
   * message (a missing or mistyped field the handler would read as
   * `undefined`).
   */
  function DecodeMessage(j: Json): (r: Option<Message>)
    ensures r.Some? ==> TypeOf(j) == Some(TypeName(r.value))
  {
    match TypeOf(j)
    case None => None
    case Some(t) =>
      if t == "header" then
        match (StringOf(Property(j, "name")), StringOf(Property(j, "mime")), NatOf(Property(j, "size")))
        case (Some(name), Some(mime), Some(size)) => Some(Header(name, mime, size))
        case _ => None
      else if t == "partition" || t == "partition-received" then
        match NatOf(Property(j, "offset"))
        case Some(o) => Some(if t == "partition" then Partition(o) else PartitionReceived(o))
        case None => None
      else if t == "progress" then
        match Property(j, "progress")
        case Some(JNumber(v)) => Some(ProgressReport(Ratio(v)))
        case _ => None
      else if t == "text" then
        match StringOf(Property(j, "text"))
        case Some(text) => Some(Text(text))
        case None => None
      else if t == "transfer-complete" then Some(TransferComplete)
      else if t == "peer-requested" then Some(PeerRequested)
      else if t == "peer-declined" then Some(PeerDeclined)
      else if t == "peer-disconnected" then Some(PeerDisconnected)
      else Some(Other(t))
  }

  /** A message whose JSON form reads back as itself. */
  predicate Representable(m: Message)
  {
    && (m.ProgressReport? ==> m.progress.Ratio?)
    && (m.Other? ==> !IsKnownType(m.kind))
  }

  /**
   * JSON keeps every message the protocol sends, except a progress of
   * Infinity (sent as `null`) and an unknown type spelled like a known one.
   */
  lemma MessageRoundTrip(m: Message)
    ensures DecodeMessage(MessageJson(m)) == Some(m) <==> Representable(m)
  {
    var j := MessageJson(m);
    match m
    case Header(name, mime, size) =>
      assert Property(j, "name") == Some(JString(name));
      assert Property(j, "mime") == Some(JString(mime));
      assert Property(j, "size") == Some(JNumber(size as real));
    case Partition(o) =>
      assert Property(j, "offset") == Some(JNumber(o as real));
    case PartitionReceived(o) =>
      assert Property(j, "offset") == Some(JNumber(o as real));
    case ProgressReport(p) =>
      assert Property(j, "progress") == Some(ProgressJson(p));
    case Text(text) =>
      assert Property(j, "text") == Some(JString(text));
    case _ =>
  }

  /** `WSPeer._send(message)` as the server receives it. */
  function WsEnvelope(peerId: string, frame: Frame): (r: Json)
    ensures r.JObject? && Property(r, "to") == Some(JString(peerId))
  {
    match frame
    case TextFrame(m) => JObject(MessageJson(m).fields["to" := JString(peerId)])
    case BinaryFrame(_) =>
      JObject(map["type" := JString("binary"), "data" := JObject(map[]), "to" := JString(peerId)])
  }

  /**
   * A text frame reaches the server with its own fields, and `to` set to
   * the peer's id, overriding any `to` of its own.
   */
  lemma EnvelopeKeepsMessage(peerId: string, m: Message, key: string)
    requires key != "to"
    ensures Property(WsEnvelope(peerId, TextFrame(m)), key) == Property(MessageJson(m), key)
    ensures TypeOf(WsEnvelope(peerId, TextFrame(m))) == Some(TypeName(m))
  {
    assert Property(WsEnvelope(peerId, TextFrame(m)), "type") == Property(MessageJson(m), "type");
  }

  /**
   * A binary frame's bytes never leave the client: every chunk is sent as
   * the same envelope, whose `data` is an empty object.
   */
  lemma BinaryBytesLost(peerId: string, a: seq<byte>, b: seq<byte>)
    ensures WsEnvelope(peerId, BinaryFrame(a)) == WsEnvelope(peerId, BinaryFrame(b))
    ensures Property(WsEnvelope(peerId, BinaryFrame(a)), "data") == Some(JObject(map[]))
  {
  }

  /** Neither kind of envelope has a `data.peer_id`, the field the server relays by. */
  lemma EnvelopeHasNoPeerId(peerId: string, frame: Frame)
    ensures var d := Property(WsEnvelope(peerId, frame), "data");
      d.None? || Property(d.value, "peer_id").None?
  {
    var r := WsEnvelope(peerId, frame);
    match frame
    case TextFrame(m) =>
      assert "data" !in MessageJson(m).fields;
      assert "data" !in r.fields;
    case BinaryFrame(_) =>
  }
}
