/**
 * `PeersManager` of `modules/client/src/utils/Network.ts`: the dictionary
 * from peer id to the `Peer` object that talks to it. Only the kind of
 * each entry (WebRTC or server-relayed WebSocket) and how often it was
 * refreshed are kept; the objects themselves are the concern of `Sessions`.
 *
 * The manager handles the server's `peers` snapshot, `signal` messages and
 * `peer-left`; it registers no handler for `peer-joined`, so a peer that
 * joins later enters the dictionary only through a signal or the next
 * snapshot.
 */
module Registry {

  datatype PeerKind = Rtc | Ws

  /** A dictionary entry: the class of the object, and the number of `refresh()` calls it got. */
  datatype Entry = Entry(kind: PeerKind, refreshes: nat)

  /** One element of a `peers` snapshot. */
  datatype PeerInfo = PeerInfo(id: string, rtcSupported: bool)

  /** The class `_onPeers` creates for a new id: WebRTC when both ends support it. */
  function NewKind(localRtc: bool, remoteRtc: bool): (k: PeerKind)
    ensures k == Rtc <==> localRtc && remoteRtc
  {
    if localRtc && remoteRtc then Rtc else Ws
  }

  /**
   * The dictionary after (part of) a snapshot, and whether the `forEach`
   * was aborted: `WSPeer.refresh()` throws, which ends the loop.
   */
  datatype Outcome = Outcome(peers: map<string, Entry>, aborted: bool)

  /** One iteration of the `forEach` in `_onPeers`. */
  function OnPeer(peers: map<string, Entry>, info: PeerInfo, localRtc: bool): (r: Outcome)
    ensures peers.Keys <= r.peers.Keys
    ensures info.id in r.peers
    ensures r.aborted <==> info.id in peers && peers[info.id].kind == Ws
    ensures info.id in peers ==> r.peers[info.id].kind == peers[info.id].kind
    ensures forall id :: id in peers && id != info.id ==> r.peers[id] == peers[id]
    ensures r.peers.Keys == peers.Keys + {info.id}
    ensures info.id !in peers ==> r.peers[info.id] == Entry(NewKind(localRtc, info.rtcSupported), 0)
    ensures info.id in peers && !r.aborted ==> r.peers[info.id].refreshes == peers[info.id].refreshes + 1
    ensures r.aborted ==> r.peers == peers
  {
    if info.id in peers then
      var e := peers[info.id];
      if e.kind == Ws then Outcome(peers, true)
      else Outcome(peers[info.id := e.(refreshes := e.refreshes + 1)], false)
    else Outcome(peers[info.id := Entry(NewKind(localRtc, info.rtcSupported), 0)], false)
  }

  /** `_onPeers(snapshot)`, as the iterations over a prefix of the snapshot leave it. */
  function OnPeers(peers: map<string, Entry>, snapshot: seq<PeerInfo>, localRtc: bool): Outcome
  {
    if snapshot == [] then Outcome(peers, false)
    else
      var o := OnPeers(peers, snapshot[..|snapshot| - 1], localRtc);
      if o.aborted then o else OnPeer(o.peers, snapshot[|snapshot| - 1], localRtc)
  }

  /** The ids a snapshot names. */
  function Ids(snapshot: seq<PeerInfo>): (r: set<string>)
  {
    if snapshot == [] then {} else Ids(snapshot[..|snapshot| - 1]) + {snapshot[|snapshot| - 1].id}
  }

  lemma {:induction false} IdsNamed(snapshot: seq<PeerInfo>, id: string)
    ensures id in Ids(snapshot) <==> exists i :: 0 <= i < |snapshot| && snapshot[i].id == id
  {
    if snapshot != [] {
      var init := snapshot[..|snapshot| - 1];
      IdsNamed(init, id);
      if id in Ids(init) {
        var i :| 0 <= i < |init| && init[i].id == id;
        assert snapshot[i].id == id;
      }
      if i :| 0 <= i < |snapshot| && snapshot[i].id == id {
        if i < |init| { assert init[i].id == id; }
      }
    }
  }

  /**
   * A snapshot never loses an entry or changes its class. When it is not
   * aborted, exactly the ids of the snapshot were added.
   */
  lemma {:induction false} OnPeersKeeps(peers: map<string, Entry>, snapshot: seq<PeerInfo>, localRtc: bool)
    ensures var r := OnPeers(peers, snapshot, localRtc);
      && peers.Keys <= r.peers.Keys
      && (forall id :: id in peers ==> r.peers[id].kind == peers[id].kind)
      && (!r.aborted ==> r.peers.Keys == peers.Keys + Ids(snapshot))
  {
    if snapshot != [] {
      OnPeersKeeps(peers, snapshot[..|snapshot| - 1], localRtc);
    }
  }

  /** After a snapshot that was not aborted, every id in it has an entry. */
  lemma OnPeersCovers(peers: map<string, Entry>, snapshot: seq<PeerInfo>, localRtc: bool)
    ensures var r := OnPeers(peers, snapshot, localRtc);
      !r.aborted ==> forall i :: 0 <= i < |snapshot| ==> snapshot[i].id in r.peers
  {
    OnPeersKeeps(peers, snapshot, localRtc);
    forall i | 0 <= i < |snapshot|
      ensures snapshot[i].id in Ids(snapshot)
    {
      IdsNamed(snapshot, snapshot[i].id);
    }
  }

  /** Once a refresh has thrown, the rest of the snapshot is not looked at. */
  lemma {:induction false} AbortedStays(peers: map<string, Entry>, snapshot: seq<PeerInfo>, k: nat, localRtc: bool)
    requires k <= |snapshot| && OnPeers(peers, snapshot[..k], localRtc).aborted
    ensures OnPeers(peers, snapshot, localRtc) == OnPeers(peers, snapshot[..k], localRtc)
    decreases |snapshot| - k
  {
    if k < |snapshot| {
      assert snapshot[..k + 1][..k] == snapshot[..k];
      AbortedStays(peers, snapshot, k + 1, localRtc);
    } else {
      assert snapshot[..k] == snapshot;
    }
  }

  predicate DistinctIds(snapshot: seq<PeerInfo>)
  {
    forall i, j :: 0 <= i < j < |snapshot| ==> snapshot[i].id != snapshot[j].id
  }

  /** The entry a snapshot of distinct ids leaves for its i-th id. */
  function Expected(peers: map<string, Entry>, info: PeerInfo, localRtc: bool): Entry
  {
    if info.id in peers then peers[info.id].(refreshes := peers[info.id].refreshes + 1)
    else Entry(NewKind(localRtc, info.rtcSupported), 0)
  }

  predicate KnownWs(peers: map<string, Entry>, id: string)
  {
    id in peers && peers[id].kind == Ws
  }

  /**
   * For a snapshot of distinct ids (the server sends the members of a
   * room, a dictionary) that is not aborted: a known id keeps its entry and
   * is refreshed once, a new id gets a fresh entry of the class both ends'
   * support decides, and ids not in the snapshot keep their entries.
   */
  lemma {:induction false} OnPeersEntries(peers: map<string, Entry>, snapshot: seq<PeerInfo>, localRtc: bool)
    requires DistinctIds(snapshot)
    ensures var r := OnPeers(peers, snapshot, localRtc);
      && (!r.aborted ==> forall i :: 0 <= i < |snapshot| ==>
            snapshot[i].id in r.peers && r.peers[snapshot[i].id] == Expected(peers, snapshot[i], localRtc))
      && (!r.aborted ==> forall id :: id in peers && id !in Ids(snapshot) ==>
            id in r.peers && r.peers[id] == peers[id])
  {
    if snapshot != [] {
      var init := snapshot[..|snapshot| - 1];
      var last := snapshot[|snapshot| - 1];
      assert DistinctIds(init);
      OnPeersEntries(peers, init, localRtc);
      OnPeersKeeps(peers, init, localRtc);
      var o := OnPeers(peers, init, localRtc);
      if !o.aborted {
        IdsNamed(init, last.id);
        assert last.id !in Ids(init);
        var r := OnPeer(o.peers, last, localRtc);
        if !r.aborted {
          forall i | 0 <= i < |snapshot|
            ensures snapshot[i].id in r.peers && r.peers[snapshot[i].id] == Expected(peers, snapshot[i], localRtc)
          {
            if i < |init| {
              assert snapshot[i] == init[i];
            }
          }
        }
      }
    }
  }

  /**
   * For a snapshot of distinct ids, the handler is aborted exactly when
   * some id of it is known as a WebSocket peer.
   */
  lemma {:induction false} OnPeersAborted(peers: map<string, Entry>, snapshot: seq<PeerInfo>, localRtc: bool)
    requires DistinctIds(snapshot)
    ensures OnPeers(peers, snapshot, localRtc).aborted
        <==> exists i :: 0 <= i < |snapshot| && KnownWs(peers, snapshot[i].id)
  {
    if snapshot != [] {
      var init := snapshot[..|snapshot| - 1];
      var last := snapshot[|snapshot| - 1];
      assert DistinctIds(init);
      OnPeersAborted(peers, init, localRtc);
      var o := OnPeers(peers, init, localRtc);
      if o.aborted {
        var k :| 0 <= k < |init| && KnownWs(peers, init[k].id);
        assert snapshot[k] == init[k];
      } else {
        OnPeersEntries(peers, init, localRtc);
        OnPeersKeeps(peers, init, localRtc);
        IdsNamed(init, last.id);
        assert last.id !in Ids(init);
        assert KnownWs(o.peers, last.id) <==> KnownWs(peers, last.id);
        forall i | 0 <= i < |init| ensures !KnownWs(peers, snapshot[i].id) {
          assert snapshot[i] == init[i];
        }
      }
    }
  }

  /** `_onPeerLeft(peerId)`: the entry goes; an unknown id changes nothing. */
  function OnPeerLeft(peers: map<string, Entry>, id: string): (r: map<string, Entry>)
    ensures id !in r && r.Keys == peers.Keys - {id}
    ensures forall k :: k in r ==> r[k] == peers[k]
    ensures id !in peers ==> r == peers
  {
    peers - {id}
  }

  /**
   * `_onMessage(signal)`: an unknown sender first gets a new WebRTC entry;
   * the signal is then handed to the entry, which a WebSocket peer cannot
   * take (it has no `onServerMessage`, so the call throws).
   */
  datatype SignalOutcome = SignalOutcome(peers: map<string, Entry>, delivered: bool)

  function OnSignal(peers: map<string, Entry>, sender: string): (r: SignalOutcome)
    ensures sender in r.peers && r.peers.Keys == peers.Keys + {sender}
    ensures forall k :: k in peers ==> r.peers[k] == peers[k]
    ensures sender !in peers ==> r.peers[sender] == Entry(Rtc, 0)
    ensures r.delivered <==> r.peers[sender].kind == Rtc
  {
    var p := if sender in peers then peers else peers[sender := Entry(Rtc, 0)];
    SignalOutcome(p, p[sender].kind == Rtc)
  }

  /** A signal from an unknown sender always reaches the entry created for it. */
  lemma UnknownSenderDelivered(peers: map<string, Entry>, sender: string)
    requires sender !in peers
    ensures OnSignal(peers, sender).delivered
    ensures OnSignal(peers, sender).peers == peers[sender := Entry(Rtc, 0)]
  {
  }

  class PeersManager {
    /** `isRtcSupported` of the local browser. */
    const localRtc: bool
    var peers: map<string, Entry>
    /** The senders whose signals reached an entry, in order. */
    var signalled: seq<string>

    constructor (localRtc: bool)
      ensures this.localRtc == localRtc && peers == map[] && signalled == []
    {
      this.localRtc := localRtc;
      peers := map[];
      signalled := [];
    }

    /** `_onPeers(snapshot)`; returns false when a refresh threw and ended the loop. */
    method HandlePeers(snapshot: seq<PeerInfo>) returns (completed: bool)
      modifies this
      ensures OnPeers(old(peers), snapshot, localRtc) == Outcome(peers, !completed)
      ensures signalled == old(signalled)
    {
      for i := 0 to |snapshot|
        invariant OnPeers(old(peers), snapshot[..i], localRtc) == Outcome(peers, false)
        invariant signalled == old(signalled)
      {
        assert snapshot[..i + 1][..i] == snapshot[..i];
        var info := snapshot[i];
        if info.id in peers {
          var e := peers[info.id];
          if e.kind == Ws {
            AbortedStays(old(peers), snapshot, i + 1, localRtc);
            return false;
          }
          peers := peers[info.id := e.(refreshes := e.refreshes + 1)];
        } else {
          peers := peers[info.id := Entry(NewKind(localRtc, info.rtcSupported), 0)];
        }
      }
      assert snapshot[..|snapshot|] == snapshot;
      completed := true;
    }

    /** `_onMessage(signal)`; returns whether the entry took the signal. */
    method HandleSignal(sender: string) returns (delivered: bool)
      modifies this
      ensures OnSignal(old(peers), sender) == SignalOutcome(peers, delivered)
      ensures signalled == old(signalled) + (if delivered then [sender] else [])
    {
      if sender !in peers {
        peers := peers[sender := Entry(Rtc, 0)];
      }
      if peers[sender].kind != Rtc {
        return false;
      }
      signalled := signalled + [sender];
      delivered := true;
    }

    /**
     * `_onPeerLeft(peerId)`; returns whether the peer was a WebRTC peer, the
     * case in which `close()` is attempted on its (possibly null) connection.
     */
    method HandlePeerLeft(id: string) returns (wasRtc: bool)
      modifies this
      ensures peers == OnPeerLeft(old(peers), id) && signalled == old(signalled)
      ensures wasRtc <==> id in old(peers) && old(peers)[id].kind == Rtc
    {
      wasRtc := id in peers && peers[id].kind == Rtc;
      peers := peers - {id};
    }
  }
}
