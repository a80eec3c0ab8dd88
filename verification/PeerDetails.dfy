/** The peer directory object (`src/peerDetails/peerDetails.go`): the global
    `peers` map and the methods that read and extend the rooms' logs. */
module PeerDetails {
  import opened GoText
  import opened Blocks
  import opened ChainStore
  import opened PeerLog
  import opened PeerHistory

  /** How `RemovePeer` ends: done, the error for an unlisted key, or the panic of a
      list that cannot be read. */
  datatype Removal = Removed | NotFound | Panicked

  class Directory {
    var peers: map<string, seq<Peer>>
    const store: Blockchains

    constructor (store: Blockchains)
      ensures this.store == store && peers == map[]
    {
      this.store := store;
      peers := map[];
    }

    /** `None` is the index panic of a peer block that cannot be read. */
    method GetPeersInRoom(room: string) returns (r: Option<seq<Peer>>)
      modifies store
      ensures store.State() == Loaded(old(store.State()), room)
      ensures r == Peers(LogOf(old(store.State()), room))
    {
      var chain := store.GetBlockchain(room);
      var i := |chain| - 1;
      while i >= 0
        invariant -1 <= i < |chain|
        invariant PeersIn(Log(chain), i + 1) == Peers(Log(chain))
      {
        if HasPrefix(chain[i].data, PEER_PREFIX) {
          r := ReadPeerBlock(chain[i].data);
          return;
        }
        i := i - 1;
      }
      r := Some([]);
    }

    static method ReadPeerBlock(data: string) returns (r: Option<seq<Peer>>)
      ensures r == ParseBlock(data)
    {
      var dataArray := SplitN(data, '$', 2);
      if |dataArray| < 2 {
        return None;
      }
      dataArray := SplitN(dataArray[1], '{', -1);
      var roomPeers: seq<Peer> := [];
      var i := 1;
      assert Prepend(roomPeers, ParseFrom(ParsePeer, dataArray, 1)) == ParseFrom(ParsePeer, dataArray, 1) by {
        PrependNothing(ParseFrom(ParsePeer, dataArray, 1));
      }
      while i < |dataArray|
        invariant 1 <= i
        invariant Prepend(roomPeers, ParseFrom(ParsePeer, dataArray, i)) == ParseFrom(ParsePeer, dataArray, 1)
      {
        ghost var before := roomPeers;
        var element := SplitN(dataArray[i], '}', 2)[0];
        var fields := SplitN(element, ' ', 3);
        if |fields| < 3 {
          return None;
        }
        var isAdmin := match ParseBool(fields[2]) case Some(b) => b case None => false;
        roomPeers := roomPeers + [Peer(fields[0], DeriveIP(fields[0]), isAdmin)];
        PrependTwice(before, roomPeers[|before|], ParseFrom(ParsePeer, dataArray, i + 1));
        i := i + 1;
      }
      assert roomPeers + [] == roomPeers;
      return Some(roomPeers);
    }

    static method PrintPeer(p: Peer) returns (text: string)
      ensures text == "{" + Fields(p) + "}"
    {
      text := "{";
      text := text + p.publicKey;
      text := text + " " + p.ip;
      text := text + " " + FormatBool(p.isAdmin);
      text := text + "}";
    }

    static method PrintList(all: seq<Peer>) returns (peerList: string)
      ensures peerList == "[" + PrintFrom(all, 0)
    {
      peerList := "[";
      var i := 0;
      while i < |all|
        invariant 0 <= i <= |all|
        invariant peerList + PrintFrom(all, i) == "[" + PrintFrom(all, 0)
      {
        PrintFromStep(peerList, all, i);
        var text := PrintPeer(all[i]);
        peerList := peerList + text;
        if i != |all| - 1 {
          peerList := peerList + ", ";
        }
        i := i + 1;
      }
      peerList := peerList + "]";
    }

    /** Appends a snapshot with the new peer; `ok` is false after a panic. */
    method AddPeer(publicKey: string, ip: string, isAdmin: bool, room: string, now: string) returns (ok: bool)
      requires View(store.State(), room) != []
      modifies this, store
      ensures ok <==> Peers(LogOf(old(store.State()), room)).Some?
      ensures ok ==>
        var all := Peers(LogOf(old(store.State()), room)).value + [Peer(publicKey, ip, isAdmin)];
        && peers == old(peers)[room := all]
        && store.State() == Added(Loaded(old(store.State()), room), room, PeerBlock(all), now)
      ensures !ok ==> peers == old(peers) && store.State() == Loaded(old(store.State()), room)
    {
      var peer := Peer(publicKey, ip, isAdmin);
      var current := GetPeersInRoom(room);
      if current == None {
        return false;
      }
      peers := peers[room := current.value];
      peers := peers[room := peers[room] + [peer]];
      var all := peers[room];
      AppendSnapshot(all, room, now);
      return true;
    }

    method AppendSnapshot(all: seq<Peer>, room: string, now: string)
      requires View(store.State(), room) != []
      modifies store
      ensures store.State() == Added(old(store.State()), room, PeerBlock(all), now)
    {
      var peerList := PrintList(all);
      store.AddBlock(PEER_ADDED + "$" + peerList, room, now);
    }

    /** The loop of `RemovePeer` over the listed peers. */
    static method FilterPeers(listed: seq<Peer>, publicKey: string) returns (newPeerList: seq<Peer>, found: bool)
      ensures newPeerList == WithoutKey(listed, publicKey)
      ensures found <==> exists p :: p in listed && p.publicKey == publicKey
    {
      newPeerList, found := [], false;
      var i := 0;
      while i < |listed|
        invariant 0 <= i <= |listed|
        invariant newPeerList == WithoutKey(listed[..i], publicKey)
        invariant found <==> exists p :: p in listed[..i] && p.publicKey == publicKey
      {
        assert listed[..i + 1] == listed[..i] + [listed[i]];
        WithoutKeySnoc(listed[..i], listed[i], publicKey);
        if listed[i].publicKey != publicKey {
          newPeerList := newPeerList + [listed[i]];
        } else {
          found := true;
        }
        i := i + 1;
      }
      assert listed[..i] == listed;
    }

    /** Appends the list without the peer; an unknown peer is an error. */
    method RemovePeer(publicKey: string, room: string, now: string) returns (r: Removal)
      requires View(store.State(), room) != []
      modifies this, store
      ensures var listed := Peers(LogOf(old(store.State()), room));
        r == if listed == None then Panicked
             else if exists p :: p in listed.value && p.publicKey == publicKey then Removed
             else NotFound
      ensures r == Removed ==>
        var left := WithoutKey(Peers(LogOf(old(store.State()), room)).value, publicKey);
        && peers == old(peers)[room := left]
        && store.State() == Added(Loaded(old(store.State()), room), room, PEER_REMOVED + MarshalPeers(left), now)
      ensures r != Removed ==> peers == old(peers) && store.State() == Loaded(old(store.State()), room)
    {
      var current := GetPeersInRoom(room);
      if current == None {
        return Panicked;
      }
      var newPeerList, found := FilterPeers(current.value, publicKey);
      if !found {
        return NotFound;
      }
      peers := peers[room := newPeerList];
      store.AddBlock(PEER_REMOVED + MarshalPeers(newPeerList), room, now);
      return Removed;
    }
  }

  /** The store after `AddPeer` carries the log of one `Join` event, and the
      other rooms' logs are untouched. */
  lemma AddPeerIsJoin(s: Stored, room: string, p: Peer, now: string)
    requires Coherent(s) && Peers(LogOf(s, room)).Some?
    ensures var t := Added(Loaded(s, room), room, PeerBlock(Peers(LogOf(s, room)).value + [p]), now);
      && Coherent(t)
      && After(LogOf(s, room), Join(p)) == Some(LogOf(t, room))
      && forall other :: other != room ==> LogOf(t, other) == LogOf(s, other)
  {
    var data := PeerBlock(Peers(LogOf(s, room)).value + [p]);
    var l := Loaded(s, room);
    CoherentExactlyWhenHarmless(s, Load(room));
    CoherentExactlyWhenHarmless(l, Add(room, data, now));
    LogsAfter(s, Load(room), room);
    LogsAfter(l, Add(room, data, now), room);
    forall other | other != room
      ensures LogOf(Added(l, room, data, now), other) == LogOf(s, other)
    {
      LogsAfter(s, Load(room), other);
      LogsAfter(l, Add(room, data, now), other);
    }
  }

  lemma PrintFromStep(front: string, all: seq<Peer>, i: nat)
    requires i < |all|
    ensures var text := "{" + Fields(all[i]) + "}";
      front + PrintFrom(all, i) ==
      (if i != |all| - 1 then front + text + ", " else front + text) + PrintFrom(all, i + 1)
  {}

  ghost function Prepend(front: seq<Peer>, r: Option<seq<Peer>>): Option<seq<Peer>> {
    match r
    case None => None
    case Some(rest) => Some(front + rest)
  }

  lemma PrependNothing(r: Option<seq<Peer>>)
    ensures Prepend([], r) == r
  {
    if r.Some? {
      assert [] + r.value == r.value;
    }
  }

  lemma PrependTwice(front: seq<Peer>, p: Peer, r: Option<seq<Peer>>)
    ensures Prepend(front, Prepend([p], r)) == Prepend(front + [p], r)
  {
    if r.Some? {
      assert front + ([p] + r.value) == front + [p] + r.value;
    }
  }

  /** The peers with another key, in order. */
  function WithoutKey(peers: seq<Peer>, publicKey: string): seq<Peer> {
    if peers == [] then []
    else
      var rest := WithoutKey(peers[1..], publicKey);
      if peers[0].publicKey != publicKey then [peers[0]] + rest else rest
  }

  lemma {:induction false} WithoutKeySnoc(peers: seq<Peer>, p: Peer, publicKey: string)
    ensures WithoutKey(peers + [p], publicKey) ==
            WithoutKey(peers, publicKey) + (if p.publicKey != publicKey then [p] else [])
  {
    if peers != [] {
      assert (peers + [p])[0] == peers[0] && (peers + [p])[1..] == peers[1..] + [p];
      WithoutKeySnoc(peers[1..], p, publicKey);
    }
  }
}
