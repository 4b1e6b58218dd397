/**
 * The rendezvous server of `modules/server/src/index.ts`: clients are
 * grouped into rooms by address, told about each other, relayed to one
 * another, and probed with `ping` until they stop answering.
 *
 * The server's `_rooms` is a dictionary from address to a dictionary from
 * peer id to the `Peer` object of a connection; everything `_send` is
 * given is appended to `sent`. `for…in` and `Object.values` visit a
 * room's ids in an order the model does not fix: each loop returns the
 * order it used, and the contracts hold for every order.
 */
module Rendezvous {
  import opened Base
  import opened JsonValues
  import opened Identity
  import Framing
  import Protocol
  import Registry

  /** What `_generateName` derives from the user agent and the id's hash. */
  datatype PeerName = PeerName(
    model: string, os: string, browser: string, deviceType: string,
    deviceName: string, displayName: string)

  /** The server's `Peer`: one connection. */
  class ServerPeer {
    const ip: string
    const id: string
    const rtcSupported: bool
    const name: PeerName
    var lastBeat: int
    /** Whether a keep-alive timer is scheduled. */
    var timerPending: bool
    /** Whether `socket.terminate()` was called. */
    var terminated: bool

    constructor (request: Request, name: PeerName, now: int)
      ensures ip == ExtractIP(request) && id == ExtractPeerId(request)
      ensures rtcSupported == RtcSupported(request) && this.name == name
      ensures lastBeat == now && !timerPending && !terminated
    {
      ip := ExtractIP(request);
      id := ExtractPeerId(request);
      rtcSupported := RtcSupported(request);
      this.name := name;
      lastBeat := now;
      timerPending := false;
      terminated := false;
    }
  }

  /** What `getInfo()` returns. */
  datatype ServerInfo = ServerInfo(id: string, name: PeerName, rtcSupported: bool)

  /** `getInfo()` */
  function Info(p: ServerPeer): ServerInfo
  {
    ServerInfo(p.id, p.name, p.rtcSupported)
  }

  /** The messages the server sends, by their `type`. */
  datatype Outgoing =
    | PeerJoined(peer: ServerInfo)
    | PeersList(peers: seq<ServerInfo>)
    | PeerLeft(peerId: string)
    | Ping
    | DisplayName(displayName: string, deviceName: string)
    | Relayed(message: Json)

  function NameJson(n: PeerName): Json
  {
    JObject(map["model" := JString(n.model), "os" := JString(n.os), "browser" := JString(n.browser),
                "type" := JString(n.deviceType), "deviceName" := JString(n.deviceName),
                "displayName" := JString(n.displayName)])
  }

  function InfoJson(info: ServerInfo): Json
  {
    JObject(map["id" := JString(info.id), "name" := NameJson(info.name), "rtcSupported" := JBool(info.rtcSupported)])
  }

  function InfosJson(infos: seq<ServerInfo>): (r: seq<Json>)
    ensures |r| == |infos|
  {
    if infos == [] then [] else [InfoJson(infos[0])] + InfosJson(infos[1..])
  }

  /** The object `_send` stringifies for each message. */
  function WireJson(m: Outgoing): (r: Json)
    ensures m.Relayed? ==> r == m.message
    ensures !m.Relayed? ==> r.JObject? && "type" in r.fields
  {
    match m
    case PeerJoined(info) => JObject(map["type" := JString("peer-joined"), "peer" := InfoJson(info)])
    case PeersList(infos) => JObject(map["type" := JString("peers"), "peers" := JArray(InfosJson(infos))])
    case PeerLeft(id) => JObject(map["type" := JString("peer-left"), "peerId" := JString(id)])
    case Ping => JObject(map["type" := JString("ping")])
    case DisplayName(display, device) =>
      JObject(map["type" := JString("display-name"),
                  "message" := JObject(map["displayName" := JString(display), "deviceName" := JString(device)])])
    case Relayed(msg) => msg
  }

  datatype Delivery = Delivery(to: ServerPeer, message: Outgoing)

  type Room = map<string, ServerPeer>
  type Rooms = map<string, Room>

  function RoomOf(rooms: Rooms, ip: string): Room
  {
    if ip in rooms then rooms[ip] else map[]
  }

  /** Every member is filed under its own id. */
  predicate Keyed(room: Room)
  {
    forall k :: k in room ==> room[k].id == k
  }

  /** Rooms are never empty, and file each member under its id and address. */
  predicate RoomsValid(rooms: Rooms)
  {
    forall ip :: ip in rooms ==>
      && rooms[ip] != map[]
      && Keyed(rooms[ip])
      && (forall k :: k in rooms[ip] ==> rooms[ip][k].ip == ip)
  }

  predicate Distinct(order: seq<string>)
  {
    forall i, j :: 0 <= i < j < |order| ==> order[i] != order[j]
  }

  /** `order` visits each of `keys` once. */
  predicate Enumerates(order: seq<string>, keys: set<string>)
  {
    && Distinct(order)
    && (forall i :: 0 <= i < |order| ==> order[i] in keys)
    && (forall k :: k in keys ==> k in order)
  }

  // ---------------------------------------------------------------------
  // Deliveries
  // ---------------------------------------------------------------------

  /** The number of deliveries to p. */
  function Received(ds: seq<Delivery>, p: ServerPeer): nat
  {
    if ds == [] then 0
    else Received(ds[..|ds| - 1], p) + (if ds[|ds| - 1].to == p then 1 else 0)
  }

  lemma ReceivedConcat(a: seq<Delivery>, b: seq<Delivery>, p: ServerPeer)
    ensures Received(a + b, p) == Received(a, p) + Received(b, p)
    decreases |b|
  {
    if b != [] {
      var b' := b[..|b| - 1];
      assert (a + b)[..|a + b| - 1] == a + b';
      assert (a + b)[|a + b| - 1] == b[|b| - 1];
      ReceivedConcat(a, b', p);
      assert Received(a + b, p) == Received(a + b', p) + (if b[|b| - 1].to == p then 1 else 0);
      assert Received(b, p) == Received(b', p) + (if b[|b| - 1].to == p then 1 else 0);
    } else {
      assert a + b == a;
    }
  }

  /** The same message to the members filed under `order`, in that order. */
  function Broadcast(room: Room, order: seq<string>, msg: Outgoing): (r: seq<Delivery>)
    requires forall i :: 0 <= i < |order| ==> order[i] in room
    ensures |r| == |order|
    ensures forall i :: 0 <= i < |r| ==> r[i] == Delivery(room[order[i]], msg)
  {
    if order == [] then []
    else Broadcast(room, order[..|order| - 1], msg) + [Delivery(room[order[|order| - 1]], msg)]
  }

  lemma {:induction false} BroadcastCount(room: Room, order: seq<string>, msg: Outgoing, p: ServerPeer)
    requires Keyed(room) && Distinct(order)
    requires forall i :: 0 <= i < |order| ==> order[i] in room
    ensures Received(Broadcast(room, order, msg), p)
         == if p.id in order && p.id in room && room[p.id] == p then 1 else 0
  {
    if order != [] {
      var init := order[..|order| - 1];
      var last := order[|order| - 1];
      BroadcastCount(room, init, msg, p);
      var b := Broadcast(room, order, msg);
      assert b[..|b| - 1] == Broadcast(room, init, msg);
      assert Received(b, p) == Received(Broadcast(room, init, msg), p) + (if room[last] == p then 1 else 0);
      assert room[last] == p <==> p.id == last && room[p.id] == p;
      assert p.id in order <==> p.id in init || p.id == last;
      assert last !in init;
    }
  }

  /**
   * A broadcast over an enumeration of a room reaches every member exactly
   * once and no one else.
   */
  lemma BroadcastOnce(room: Room, order: seq<string>, msg: Outgoing, p: ServerPeer)
    requires Keyed(room) && Enumerates(order, room.Keys)
    ensures Received(Broadcast(room, order, msg), p) == if p in room.Values then 1 else 0
  {
    BroadcastCount(room, order, msg, p);
    if p in room.Values {
      var k :| k in room && room[k] == p;
    }
  }

  /** The members filed under `order`, in that order. */
  function Members(room: Room, order: seq<string>): (r: seq<ServerPeer>)
    requires forall i :: 0 <= i < |order| ==> order[i] in room
    ensures |r| == |order|
    ensures forall i :: 0 <= i < |r| ==> r[i] == room[order[i]]
  {
    if order == [] then []
    else Members(room, order[..|order| - 1]) + [room[order[|order| - 1]]]
  }

  /** `getInfo()` of each peer, in order. */
  function Infos(ps: seq<ServerPeer>): (r: seq<ServerInfo>)
    ensures |r| == |ps|
  {
    if ps == [] then [] else Infos(ps[..|ps| - 1]) + [Info(ps[|ps| - 1])]
  }

  /** One more visited key adds its member's info at the end of the list. */
  lemma InfosStep(room: Room, order: seq<string>, i: nat)
    requires i < |order| && forall j :: 0 <= j < |order| ==> order[j] in room
    ensures Infos(Members(room, order[..i + 1])) == Infos(Members(room, order[..i])) + [Info(room[order[i]])]
  {
    var ms := Members(room, order[..i + 1]);
    assert order[..i + 1][..i] == order[..i];
    assert ms[..|ms| - 1] == Members(room, order[..i]);
  }

  /**
   * The peers a joiner is told about are exactly the members present
   * before it joined, each once: every member is listed, every listed
   * peer is a member, and no id is listed twice.
   */
  lemma MembersExact(room: Room, order: seq<string>)
    requires Keyed(room) && Enumerates(order, room.Keys)
    ensures var ms := Members(room, order);
      && (forall k :: k in room ==> room[k] in ms)
      && (forall i :: 0 <= i < |ms| ==> ms[i] in room.Values)
      && (forall i, j :: 0 <= i < j < |ms| ==> ms[i].id != ms[j].id)
  {
    var ms := Members(room, order);
    forall k | k in room ensures room[k] in ms {
      var i :| 0 <= i < |order| && order[i] == k;
      assert ms[i] == room[k];
    }
  }

  lemma {:induction false} InfosIndex(ps: seq<ServerPeer>)
    ensures forall i :: 0 <= i < |ps| ==> Infos(ps)[i] == Info(ps[i])
  {
    if ps != [] {
      InfosIndex(ps[..|ps| - 1]);
    }
  }

  /** The part of a `peers` list entry the client's `PeersManager` reads. */
  function ClientView(infos: seq<ServerInfo>): (r: seq<Registry.PeerInfo>)
    ensures |r| == |infos|
    ensures forall i :: 0 <= i < |r| ==> r[i] == Registry.PeerInfo(infos[i].id, infos[i].rtcSupported)
  {
    if infos == [] then []
    else ClientView(infos[..|infos| - 1]) + [Registry.PeerInfo(infos[|infos| - 1].id, infos[|infos| - 1].rtcSupported)]
  }

  /**
   * The `peers` list a joiner receives never names an id twice, which is
   * what the client's registry needs to end with one entry per listed id.
   */
  lemma PeersListDistinct(room: Room, order: seq<string>)
    requires Keyed(room) && Enumerates(order, room.Keys)
    ensures Registry.DistinctIds(ClientView(Infos(Members(room, order))))
  {
    MembersExact(room, order);
    InfosIndex(Members(room, order));
  }

  // ---------------------------------------------------------------------
  // Joining and leaving
  // ---------------------------------------------------------------------

  /** The rooms after `_joinRoom(peer)`. */
  function JoinRooms(rooms: Rooms, peer: ServerPeer): (r: Rooms)
    ensures peer.ip in r && r[peer.ip] == RoomOf(rooms, peer.ip)[peer.id := peer]
    ensures forall ip :: ip in rooms && ip != peer.ip ==> ip in r && r[ip] == rooms[ip]
    ensures r.Keys == rooms.Keys + {peer.ip}
  {
    rooms[peer.ip := RoomOf(rooms, peer.ip)[peer.id := peer]]
  }

  /**
   * Joining creates the room if it is absent, makes the joiner a member
   * under its id, and keeps the invariant; no other room changes.
   */
  lemma JoinRoomsValid(rooms: Rooms, peer: ServerPeer)
    requires RoomsValid(rooms)
    ensures RoomsValid(JoinRooms(rooms, peer))
    ensures JoinRooms(rooms, peer)[peer.ip][peer.id] == peer
  {
  }

  /**
   * Every member present before the join gets exactly one `peer-joined`;
   * the joiner gets none.
   */
  lemma JoinNoticesOnce(rooms: Rooms, peer: ServerPeer, order: seq<string>, p: ServerPeer)
    requires RoomsValid(rooms)
    requires Enumerates(order, RoomOf(rooms, peer.ip).Keys)
    requires peer !in RoomOf(rooms, peer.ip).Values
    ensures var room := RoomOf(rooms, peer.ip);
      var notices := Broadcast(room, order, PeerJoined(Info(peer)));
      && Received(notices, p) == (if p in room.Values then 1 else 0)
      && Received(notices, peer) == 0
  {
    var room := RoomOf(rooms, peer.ip);
    BroadcastOnce(room, order, PeerJoined(Info(peer)), p);
    BroadcastOnce(room, order, PeerJoined(Info(peer)), peer);
  }

  /** The rooms after `_leaveRoom(peer)`. */
  function LeaveRooms(rooms: Rooms, peer: ServerPeer): Rooms
  {
    if peer.ip !in rooms || peer.id !in rooms[peer.ip] then rooms
    else
      var room := rooms[peer.ip] - {peer.id};
      if room == map[] then rooms - {peer.ip} else rooms[peer.ip := room]
  }

  predicate IsMember(rooms: Rooms, peer: ServerPeer)
  {
    peer.ip in rooms && peer.id in rooms[peer.ip]
  }

  /** The room the leaver's id is removed from. */
  function Remaining(rooms: Rooms, peer: ServerPeer): Room
  {
    RoomOf(rooms, peer.ip) - {peer.id}
  }

  /**
   * Leaving does nothing when the room or the id is absent; otherwise the
   * id goes, and the room with it exactly when no one is left. No other
   * room changes, and the invariant is kept.
   */
  lemma LeaveRoomsEffect(rooms: Rooms, peer: ServerPeer)
    ensures var r := LeaveRooms(rooms, peer);
      && (!IsMember(rooms, peer) ==> r == rooms)
      && (IsMember(rooms, peer) ==>
            && !IsMember(r, peer)
            && (peer.ip in r <==> Remaining(rooms, peer) != map[])
            && (peer.ip in r ==> r[peer.ip] == Remaining(rooms, peer)))
      && (forall ip :: ip != peer.ip ==> (ip in r <==> ip in rooms) && (ip in r ==> r[ip] == rooms[ip]))
      && (RoomsValid(rooms) ==> RoomsValid(r))
  {
  }

  /** What `_leaveRoom(peer)` sends: one `peer-left` to each member left behind. */
  function LeaveNotices(rooms: Rooms, peer: ServerPeer, order: seq<string>): seq<Delivery>
    requires IsMember(rooms, peer) ==> forall i :: 0 <= i < |order| ==> order[i] in Remaining(rooms, peer)
  {
    if IsMember(rooms, peer) then Broadcast(Remaining(rooms, peer), order, PeerLeft(peer.id)) else []
  }

  /** Every member left behind gets exactly one `peer-left`, and no one else any. */
  lemma LeaveNoticesOnce(rooms: Rooms, peer: ServerPeer, order: seq<string>, p: ServerPeer)
    requires RoomsValid(rooms) && IsMember(rooms, peer)
    requires Enumerates(order, Remaining(rooms, peer).Keys)
    ensures Received(LeaveNotices(rooms, peer, order), p)
         == if p in Remaining(rooms, peer).Values then 1 else 0
  {
    BroadcastOnce(Remaining(rooms, peer), order, PeerLeft(peer.id), p);
  }

  // ---------------------------------------------------------------------
  // Relay and dispatch
  // ---------------------------------------------------------------------

  /**
   * What `_relayMessage` does: forward, do nothing, or throw a TypeError
   * (reading `peer_id` of a missing or null `data`) before changing
   * anything.
   */
  datatype RelayOutcome = Forward(to: ServerPeer, message: Json) | NotForwarded | Throws

  function Relay(rooms: Rooms, sender: ServerPeer, msg: Json): RelayOutcome
  {
    var data := Property(msg, "data");
    if data.None? || data.value.JNull? then Throws
    else
      var target := Property(data.value, "peer_id");
      if !Truthy(target) || sender.ip !in rooms || !target.value.JString? then NotForwarded
      else if target.value.s !in rooms[sender.ip] then NotForwarded
      else
        var stripped := JObject(data.value.fields - {"peer_id"});
        Forward(rooms[sender.ip][target.value.s],
                JObject(msg.fields["data" := stripped]["sender" := JString(sender.id)]))
  }

  /**
   * A message is forwarded exactly when its `data.peer_id` is a non-empty
   * id filed in the sender's own room, and then to that member, with
   * `data.peer_id` removed, `sender` set to the sender's id, and every
   * other field as it was. A message without `data` (or with a null one)
   * throws.
   */
  lemma RelayForwardsIff(rooms: Rooms, sender: ServerPeer, msg: Json)
    ensures var r := Relay(rooms, sender, msg);
      var data := Property(msg, "data");
      var target := if data.Some? then Property(data.value, "peer_id") else None;
      && (r.Throws? <==> data.None? || data == Some(JNull))
      && (r.Forward? <==>
            && target.Some? && target.value.JString? && target.value.s != []
            && sender.ip in rooms && target.value.s in rooms[sender.ip])
      && (r.Forward? ==>
            && r.to == rooms[sender.ip][target.value.s]
            && Property(r.message, "sender") == Some(JString(sender.id))
            && Property(Property(r.message, "data").value, "peer_id").None?
            && (forall key :: key in msg.fields && key != "data" && key != "sender" ==>
                  Property(r.message, key) == Property(msg, key)))
  {
  }

  /**
   * Nothing a WebSocket-relayed client sends is ever forwarded: its
   * envelopes carry the target in `to`, not in `data.peer_id`. A JSON
   * message has no `data` and throws; a binary chunk's `data` is `{}`.
   */
  lemma WsEnvelopeNeverRelayed(rooms: Rooms, sender: ServerPeer, peerId: string, frame: Protocol.Frame)
    ensures !Relay(rooms, sender, Framing.WsEnvelope(peerId, frame)).Forward?
    ensures frame.TextFrame? ==> Relay(rooms, sender, Framing.WsEnvelope(peerId, frame)).Throws?
  {
    Framing.EnvelopeHasNoPeerId(peerId, frame);
    if frame.TextFrame? {
      assert "data" !in Framing.MessageJson(frame.message).fields;
    }
  }

  /** How `_onMessage` treats a message: a parse failure, a throw, or a type. */
  datatype Action = Malformed | ThrowsOnType | Disconnect | Pong | RelayIt(msg: Json)

  /** `parsed` is None when `JSON.parse` threw. */
  function Classify(parsed: Option<Json>): (a: Action)
    ensures a == Malformed <==> parsed.None?
    ensures a == ThrowsOnType <==> parsed == Some(JNull)
    ensures a == Disconnect <==> parsed.Some? && TypeOf(parsed.value) == Some("disconnect")
    ensures a == Pong <==> parsed.Some? && TypeOf(parsed.value) == Some("pong")
    ensures a.RelayIt? ==> Some(a.msg) == parsed
  {
    match parsed
    case None => Malformed
    case Some(JNull) => ThrowsOnType
    case Some(m) =>
      if TypeOf(m) == Some("disconnect") then Disconnect
      else if TypeOf(m) == Some("pong") then Pong
      else RelayIt(m)
  }

  // ---------------------------------------------------------------------
  // Heartbeat
  // ---------------------------------------------------------------------

  const KeepAliveTimeout := 30000

  /** `Date.now() - peer.lastBeat > 2 * timeout` */
  predicate Evicts(now: int, lastBeat: int)
  {
    now - lastBeat > 2 * KeepAliveTimeout
  }

  /**
   * A peer that stops answering after a beat at t is probed every 30 s:
   * the first two probes after t still ping it, the third evicts it, 90 s
   * after its last beat.
   */
  lemma SilentPeerEvictedAtThirdProbe(t: int, k: nat)
    ensures Evicts(t + k * KeepAliveTimeout, t) <==> k >= 3
  {
  }

  // ---------------------------------------------------------------------
  // The server object
  // ---------------------------------------------------------------------

  class Server {
    var rooms: Rooms
    var sent: seq<Delivery>

    constructor ()
      ensures rooms == map[] && sent == []
    {
      rooms := map[];
      sent := [];
    }

    /**
     * The keys a `for…in` loop visits: it takes them all before the first
     * iteration, in an order the model leaves open.
     */
    static method EnumerateKeys(keys: set<string>) returns (order: seq<string>)
      ensures Enumerates(order, keys)
    {
      order := [];
      var remaining := keys;
      while remaining != {}
        invariant remaining <= keys
        invariant Distinct(order)
        invariant forall i :: 0 <= i < |order| ==> order[i] in keys && order[i] !in remaining
        invariant forall k :: k in keys ==> k in remaining || k in order
        decreases |remaining|
      {
        var k :| k in remaining;
        order := order + [k];
        remaining := remaining - {k};
      }
    }

    /** Sends `msg` to every member of `room`, in the order it returns. */
    method Notify(room: Room, msg: Outgoing) returns (order: seq<string>)
      modifies this
      ensures Enumerates(order, room.Keys)
      ensures sent == old(sent) + Broadcast(room, order, msg)
      ensures rooms == old(rooms)
    {
      order := EnumerateKeys(room.Keys);
      for i := 0 to |order|
        invariant sent == old(sent) + Broadcast(room, order[..i], msg)
        invariant rooms == old(rooms)
      {
        assert order[..i + 1][..i] == order[..i];
        sent := sent + [Delivery(room[order[i]], msg)];
      }
      assert order[..|order|] == order;
    }

    /** The `peers` list of `room`'s members, in the order it returns. */
    static method ListPeers(room: Room) returns (list: seq<ServerInfo>, order: seq<string>)
      ensures Enumerates(order, room.Keys) && list == Infos(Members(room, order))
    {
      order := EnumerateKeys(room.Keys);
      list := InfosOf(room, order);
    }

    /** The loop of `ListPeers`: each visited member's `getInfo()`. */
    static method InfosOf(room: Room, order: seq<string>) returns (list: seq<ServerInfo>)
      requires forall i :: 0 <= i < |order| ==> order[i] in room
      ensures list == Infos(Members(room, order))
    {
      list := [];
      for i := 0 to |order|
        invariant list == Infos(Members(room, order[..i]))
      {
        InfosStep(room, order, i);
        list := list + [Info(room[order[i]])];
      }
      assert order[..|order|] == order;
    }

    /**
     * `_joinRoom(peer)`; returns the orders the two loops visited the room
     * in. The source files an empty room first; here the room is a local
     * until the joiner is added, which leaves the same rooms.
     */
    method JoinRoom(peer: ServerPeer) returns (notified: seq<string>, listed: seq<string>)
      modifies this
      ensures rooms == JoinRooms(old(rooms), peer)
      ensures Enumerates(notified, RoomOf(old(rooms), peer.ip).Keys)
      ensures Enumerates(listed, RoomOf(old(rooms), peer.ip).Keys)
      ensures sent == old(sent) + Broadcast(RoomOf(old(rooms), peer.ip), notified, PeerJoined(Info(peer)))
                 + [Delivery(peer, PeersList(Infos(Members(RoomOf(old(rooms), peer.ip), listed))))]
    {
      var room := RoomOf(rooms, peer.ip);
      notified := Notify(room, PeerJoined(Info(peer)));
      var others;
      others, listed := ListPeers(room);
      sent := sent + [Delivery(peer, PeersList(others))];
      rooms := rooms[peer.ip := room[peer.id := peer]];
    }

    /** `_leaveRoom(peer)`; returns the order the remaining members were told in. */
    method LeaveRoom(peer: ServerPeer) returns (notified: seq<string>)
      modifies this, peer
      ensures rooms == LeaveRooms(old(rooms), peer)
      ensures IsMember(old(rooms), peer) ==> Enumerates(notified, Remaining(old(rooms), peer).Keys)
      ensures !IsMember(old(rooms), peer) ==> notified == []
      ensures sent == old(sent) + LeaveNotices(old(rooms), peer, notified)
      ensures peer.timerPending == (old(peer.timerPending) && !IsMember(old(rooms), peer))
      ensures peer.terminated == (old(peer.terminated) || IsMember(old(rooms), peer))
      ensures peer.lastBeat == old(peer.lastBeat)
    {
      notified := [];
      if peer.ip !in rooms || peer.id !in rooms[peer.ip] {
        return;
      }
      var room := rooms[peer.ip];
      peer.timerPending := false;
      room := room - {peer.id};
      peer.terminated := true;
      if room == map[] {
        rooms := rooms - {peer.ip};
      } else {
        rooms := rooms[peer.ip := room];
        notified := Notify(room, PeerLeft(peer.id));
      }
    }

    /** `_keepAlive(peer)` at time `now`; returns whether the peer was evicted. */
    method KeepAlive(peer: ServerPeer, now: int) returns (evicted: bool, notified: seq<string>)
      modifies this, peer
      ensures evicted <==> Evicts(now, old(peer.lastBeat))
      ensures evicted ==>
        && rooms == LeaveRooms(old(rooms), peer)
        && (IsMember(old(rooms), peer) ==> Enumerates(notified, Remaining(old(rooms), peer).Keys))
        && sent == old(sent) + LeaveNotices(old(rooms), peer, notified)
        && !peer.timerPending
        && peer.terminated == (old(peer.terminated) || IsMember(old(rooms), peer))
      ensures !evicted ==>
        && rooms == old(rooms) && sent == old(sent) + [Delivery(peer, Ping)]
        && peer.timerPending && peer.terminated == old(peer.terminated) && notified == []
      ensures peer.lastBeat == old(peer.lastBeat)
    {
      peer.timerPending := false;
      notified := [];
      if now - peer.lastBeat > 2 * KeepAliveTimeout {
        notified := LeaveRoom(peer);
        return true, notified;
      }
      sent := sent + [Delivery(peer, Ping)];
      peer.timerPending := true;
      evicted := false;
    }

    /** `_relayMessage(sender, message)`; returns what it did. */
    method RelayMessage(sender: ServerPeer, msg: Json) returns (outcome: RelayOutcome)
      modifies this
      ensures outcome == Relay(old(rooms), sender, msg)
      ensures rooms == old(rooms)
      ensures sent == old(sent) + (if outcome.Forward? then [Delivery(outcome.to, Relayed(outcome.message))] else [])
    {
      outcome := Relay(rooms, sender, msg);
      if outcome.Forward? {
        sent := sent + [Delivery(outcome.to, Relayed(outcome.message))];
      }
    }

    /**
     * `_onMessage(sender, message)` at time `now`, with `parsed` what
     * `JSON.parse` returned (None when it threw).
     */
    method OnMessage(sender: ServerPeer, parsed: Option<Json>, now: int) returns (action: Action, notified: seq<string>)
      modifies this, sender
      ensures action == Classify(parsed)
      ensures action.Disconnect? ==>
        && rooms == LeaveRooms(old(rooms), sender)
        && (IsMember(old(rooms), sender) ==> Enumerates(notified, Remaining(old(rooms), sender).Keys))
        && sent == old(sent) + LeaveNotices(old(rooms), sender, notified)
      ensures action.Pong? ==> rooms == old(rooms) && sent == old(sent) && sender.lastBeat == now
      ensures action.RelayIt? ==>
        && rooms == old(rooms)
        && sent == old(sent) + (match Relay(old(rooms), sender, action.msg)
                                case Forward(to, m) => [Delivery(to, Relayed(m))]
                                case _ => [])
      ensures action in {Malformed, ThrowsOnType} ==>
        rooms == old(rooms) && sent == old(sent) && sender.lastBeat == old(sender.lastBeat)
    {
      action := Classify(parsed);
      notified := [];
      match action
      case Disconnect => notified := LeaveRoom(sender);
      case Pong => sender.lastBeat := now;
      case RelayIt(m) => var _ := RelayMessage(sender, m);
      case _ =>
    }

    /**
     * `_onConnection(socket, request)` at time `now`, with `name` what
     * `_generateName` made of the user agent; returns the new peer.
     */
    method OnConnection(request: Request, name: PeerName, now: int)
      returns (peer: ServerPeer, notified: seq<string>, listed: seq<string>)
      modifies this
      ensures fresh(peer)
      ensures peer.ip == ExtractIP(request) && peer.id == ExtractPeerId(request)
      ensures rooms == JoinRooms(old(rooms), peer)
      ensures var room := RoomOf(old(rooms), peer.ip);
        && Enumerates(notified, room.Keys) && Enumerates(listed, room.Keys)
        && sent == old(sent) + Broadcast(room, notified, PeerJoined(Info(peer)))
                 + [Delivery(peer, PeersList(Infos(Members(room, listed)))),
                    Delivery(peer, Ping),
                    Delivery(peer, DisplayName(name.displayName, name.deviceName))]
      ensures peer.timerPending && peer.lastBeat == now && !peer.terminated
    {
      peer := new ServerPeer(request, name, now);
      notified, listed := JoinRoom(peer);
      var evicted, _ := KeepAlive(peer, now);
      sent := sent + [Delivery(peer, DisplayName(name.displayName, name.deviceName))];
    }
  }
}
