/** The node object `GossipNetwork` (`src/network_gossip/network_gossip.go`): its
    maps and lists, and the methods that update them in place.  Message ids, times
    and random draws come in as parameters; sent messages go out as results. */
module Gossip {
  import opened GoText
  import opened ChainStore
  import opened PeerHistory
  import opened PeerDetails
  import opened AckProtocol
  import opened GossipHandler

  datatype GossipNode = GossipNode(id: NodeID, address: string, publicKey: string, isAlive: bool)

  datatype Send = Send(peer: GossipNode, msg: Message)

  // ---------- Effects on the store ----------

  /** The store has gone from `s` to `t` by these effects and no others. */
  ghost predicate LogsMoved(s: Stored, t: Stored, effects: seq<Effect>) {
    Coherent(t) && forall room :: LogOf(t, room) == LogEffects(LogOf(s, room), room, effects)
  }

  lemma NoEffect(s: Stored, room: string)
    requires Coherent(s)
    ensures LogsMoved(s, s, []) && LogsMoved(s, Loaded(s, room), [])
  {
    CoherentExactlyWhenHarmless(s, Load(room));
    forall r
      ensures LogOf(Loaded(s, room), r) == LogOf(s, r)
    {
      LogsAfter(s, Load(room), r);
    }
  }

  lemma OneEffect(log: seq<string>, room: string, e: Effect)
    ensures LogEffects(log, room, [e]) == LogEffect(log, room, e)
  {}

  lemma CommitEffect(s: Stored, room: string, chat: Message, now: string)
    requires Coherent(s) && View(s, room) != []
    ensures LogsMoved(s, Added(s, room, ChatData(chat), now), [Commit(room, chat)])
  {
    var op := Add(room, ChatData(chat), now);
    CoherentExactlyWhenHarmless(s, op);
    forall r
      ensures LogOf(Do(s, op), r) == LogEffects(LogOf(s, r), r, [Commit(room, chat)])
    {
      LogsAfter(s, op, r);
      OneEffect(LogOf(s, r), r, Commit(room, chat));
    }
  }

  lemma ClearEffect(s: Stored, room: string)
    requires Coherent(s)
    ensures LogsMoved(s, ChainStore.ClearRoom(s, room), [Effect.Clear(room)])
  {
    ClearRoomTruncates(s, room);
    forall r
      ensures LogOf(ChainStore.ClearRoom(s, room), r) == LogEffects(LogOf(s, r), r, [Effect.Clear(room)])
    {
      OneEffect(LogOf(s, r), r, Effect.Clear(room));
    }
  }

  lemma EffectsInTurn(s: Stored, t: Stored, u: Stored, a: seq<Effect>, b: seq<Effect>)
    requires LogsMoved(s, t, a) && LogsMoved(t, u, b)
    ensures LogsMoved(s, u, a + b)
  {
    forall r
      ensures LogOf(u, r) == LogEffects(LogOf(s, r), r, a + b)
    {
      EffectsJoin(LogOf(s, r), r, a, b);
    }
  }

  lemma NothingThen(s: Stored, t: Stored, u: Stored, effects: seq<Effect>)
    requires LogsMoved(s, t, []) && LogsMoved(t, u, effects)
    ensures LogsMoved(s, u, effects)
  {}

  lemma ThenNothing(s: Stored, t: Stored, u: Stored, effects: seq<Effect>)
    requires LogsMoved(s, t, effects) && LogsMoved(t, u, [])
    ensures LogsMoved(s, u, effects)
  {}

  lemma CoherentChains(s: Stored, room: string)
    requires Coherent(s)
    ensures View(s, room) != [] && (room in s.disk ==> s.disk[room] != [])
  {}

  // ---------- Choosing peers ----------

  ghost predicate DistinctIndices(indices: seq<nat>, n: nat) {
    && (forall i :: 0 <= i < |indices| ==> indices[i] < n)
    && forall i, j :: 0 <= i < j < |indices| ==> indices[i] != indices[j]
  }

  /** The peers at some distinct positions of a list. */
  ghost predicate IsSelection(peers: seq<GossipNode>, selected: seq<GossipNode>) {
    exists indices: seq<nat> :: SelectedAt(peers, selected, indices)
  }

  ghost predicate SelectedAt(peers: seq<GossipNode>, selected: seq<GossipNode>, indices: seq<nat>) {
    && |indices| == |selected| && DistinctIndices(indices, |peers|)
    && forall i :: 0 <= i < |selected| ==> selected[i] == peers[indices[i]]
  }

  /** The indices that a series of random draws offers. */
  function Offered(draws: seq<nat>, n: nat): set<nat>
    requires n > 0
  {
    set d | d in draws :: d % n
  }

  lemma AllIndices(peers: seq<GossipNode>)
    ensures IsSelection(peers, peers)
  {
    var all: seq<nat> := seq(|peers|, i requires 0 <= i < |peers| => i);
    assert SelectedAt(peers, peers, all);
  }

  ghost function IndicesBelow(n: nat): (s: set<nat>)
    ensures |s| == n
    ensures forall i: nat :: i in s <==> i < n
  {
    if n == 0 then {} else IndicesBelow(n - 1) + {n - 1}
  }

  /** While fewer peers are chosen than there are, some index is still unused, so
      a draw that ends the inner loop always exists. */
  lemma UnusedIndexExists(used: set<nat>, n: nat)
    requires used <= IndicesBelow(n) && |used| < n
    ensures IndicesBelow(n) - used != {}
  {}

  class GossipNetwork {
    const st: Settings
    const isAttackerNode: bool
    const directory: Directory
    var forwardingFanout: int
    var gossipPeers: map<NodeID, GossipNode>
    var messageHistory: set<string>
    var msgsToProcess: seq<Message>
    var processedAcks: map<string, set<string>>
    var pendingAcks: map<string, seq<Message>>

    constructor (st: Settings, isAttackerNode: bool, forwardingFanout: int, directory: Directory,
                 gossipPeers: map<NodeID, GossipNode>)
      ensures this.st == st && this.isAttackerNode == isAttackerNode && this.directory == directory
      ensures this.forwardingFanout == forwardingFanout && this.gossipPeers == gossipPeers
      ensures State() == Node({}, [], map[], map[])
    {
      this.st := st;
      this.isAttackerNode := isAttackerNode;
      this.directory := directory;
      this.forwardingFanout := forwardingFanout;
      this.gossipPeers := gossipPeers;
      messageHistory := {};
      msgsToProcess := [];
      processedAcks := map[];
      pendingAcks := map[];
    }

    ghost function State(): Node
      reads this
    {
      Node(messageHistory, msgsToProcess, processedAcks, pendingAcks)
    }

    /** The files are sound and the room's peer list can be read. */
    ghost predicate Valid()
      reads `gossipPeers, directory.store
    {
      && Coherent(directory.store.State())
      && Healthy(LogOf(directory.store.State(), st.cfg.room))
      && forall id :: id in gossipPeers ==> gossipPeers[id].id == id
    }

    ghost function RoomMembers(): set<string>
      reads directory.store
    {
      Members(LogOf(directory.store.State(), st.cfg.room))
    }

    ghost function KnownKeys(): set<string>
      reads `gossipPeers
    {
      set id | id in gossipPeers :: gossipPeers[id].publicKey
    }

    /** Live peers other than the node itself. */
    ghost function Candidates(): set<GossipNode>
      reads `gossipPeers
    {
      set id | id in gossipPeers && gossipPeers[id].isAlive && gossipPeers[id].id != st.nodeID :: gossipPeers[id]
    }

    // ---------- Membership and authentication ----------

    method IsInRoom(publicKey: string) returns (r: bool)
      requires Valid()
      modifies directory.store
      ensures Valid()
      ensures r <==> publicKey in old(RoomMembers())
      ensures LogsMoved(old(directory.store.State()), directory.store.State(), [])
    {
      NoEffect(directory.store.State(), st.cfg.room);
      var peers := directory.GetPeersInRoom(st.cfg.room);
      assert LogOf(directory.store.State(), st.cfg.room) ==
             LogEffects(LogOf(old(directory.store.State()), st.cfg.room), st.cfg.room, []);
      var i := 0;
      r := false;
      while i < |peers.value|
        modifies {}
        invariant 0 <= i <= |peers.value|
        invariant forall j :: 0 <= j < i ==> peers.value[j].publicKey != publicKey
      {
        if peers.value[i].publicKey == publicKey {
          return true;
        }
        i := i + 1;
      }
    }

    method AuthenticateMessage(m: Message, peer: GossipNode) returns (r: bool)
      requires Valid()
      modifies directory.store
      ensures Valid()
      ensures r <==> AuthenticFrom(st, old(RoomMembers()), peer.publicKey, m)
      ensures LogsMoved(old(directory.store.State()), directory.store.State(), [])
    {
      NoEffect(directory.store.State(), "");
      if st.disableAuth {
        return true;
      }
      var inRoom := IsInRoom(peer.publicKey);
      if !inRoom {
        return false;
      }
      var formats := SignedForms(m);
      var verified := Verify(formats[0], m.signature, peer.publicKey);
      if !verified {
        var i := 1;
        while i < |formats|
          modifies {}
          invariant 1 <= i <= |formats|
          invariant !verified && forall j :: 0 <= j < i ==> !Verify(formats[j], m.signature, peer.publicKey)
        {
          if Verify(formats[i], m.signature, peer.publicKey) {
            verified := true;
            break;
          }
          i := i + 1;
        }
        if !verified {
          return false;
        }
      }
      if m.publicKey != peer.publicKey {
        return false;
      }
      return m.roomID == st.cfg.room;
    }

    /** The loop that finds the peer with the message's key. */
    method FindPeer(publicKey: string) returns (found: bool, peer: GossipNode)
      ensures found <==> publicKey in KnownKeys()
      ensures found ==> peer.publicKey == publicKey
    {
      var ids := gossipPeers.Keys;
      peer := GossipNode(NodeID(0), "", "", false);
      while ids != {}
        invariant ids <= gossipPeers.Keys
        invariant forall id :: id in gossipPeers && id !in ids ==> gossipPeers[id].publicKey != publicKey
      {
        var id :| id in ids;
        if gossipPeers[id].publicKey == publicKey {
          return true, gossipPeers[id];
        }
        ids := ids - {id};
      }
      return false, peer;
    }

    // ---------- The sections under the mutex ----------

    /** Whether no other queued message is strictly earlier than the one at `i`. */
    method NoEarlierMessage(i: nat) returns (canSave: bool)
      requires i < |msgsToProcess|
      ensures canSave <==> CanSave(msgsToProcess, i)
    {
      canSave := true;
      var j := 0;
      while j < |msgsToProcess|
        invariant 0 <= j <= |msgsToProcess|
        invariant canSave
        invariant forall k :: 0 <= k < j && msgsToProcess[k].id != msgsToProcess[i].id ==>
                    msgsToProcess[i].timestamp <= msgsToProcess[k].timestamp
      {
        var other := msgsToProcess[j];
        if other.id != msgsToProcess[i].id && other.timestamp < msgsToProcess[i].timestamp {
          return false;
        }
        j := j + 1;
      }
    }

    method FindQueued(id: string) returns (i: nat)
      ensures i == Find(msgsToProcess, id)
    {
      i := 0;
      while i < |msgsToProcess| && msgsToProcess[i].id != id
        invariant 0 <= i <= |msgsToProcess|
        invariant forall j :: 0 <= j < i ==> msgsToProcess[j].id != id
      {
        i := i + 1;
      }
      FindIsFirst(msgsToProcess, id, i);
    }

    method SaveToBlockchain(room: string, m: Message, now: string)
      requires Valid()
      modifies directory.store
      ensures Valid() && RoomMembers() == old(RoomMembers())
      ensures LogsMoved(old(directory.store.State()), directory.store.State(), [Commit(room, m)])
    {
      ghost var before := directory.store.State();
      CoherentChains(before, room);
      CommitEffect(before, room, m, now);
      EffectsKeepMembers(LogOf(before, st.cfg.room), st.cfg.room, [Commit(room, m)]);
      directory.store.AddBlock(ChatData(m), room, now);
    }

    method ProcessAck(m: Message, now: string)
      requires Valid()
      modifies `msgsToProcess, `processedAcks, `pendingAcks, directory.store
      ensures Valid() && RoomMembers() == old(RoomMembers())
      ensures State() == AckIfOn(st, old(State()), m).node
      ensures LogsMoved(old(directory.store.State()), directory.store.State(), AckIfOn(st, old(State()), m).effects)
    {
      NoEffect(directory.store.State(), "");
      if st.blockChainState {
        ProcessAckFor(AckTarget(m.data), m, now);
      }
    }

    /** Lines 854-917. */
    method ProcessAckFor(messageID: string, m: Message, now: string)
      requires Valid()
      modifies `msgsToProcess, `processedAcks, `pendingAcks, directory.store
      ensures Valid() && RoomMembers() == old(RoomMembers())
      ensures State() == AckFor(st.cfg, old(State()), messageID, m).node
      ensures LogsMoved(old(directory.store.State()), directory.store.State(),
                        AckFor(st.cfg, old(State()), messageID, m).effects)
    {
      NoEffect(directory.store.State(), "");
      var isNew := MarkProcessed(messageID, m.publicKey);
      if isNew && messageID != "" {
        ProcessNewAck(messageID, m, now);
      }
    }

    /** Lines 865-913. */
    method ProcessNewAck(messageID: string, m: Message, now: string)
      requires Valid()
      modifies `msgsToProcess, `pendingAcks, directory.store
      ensures Valid() && RoomMembers() == old(RoomMembers())
      ensures State() == NewAck(st.cfg, old(State()), messageID, m).node
      ensures LogsMoved(old(directory.store.State()), directory.store.State(),
                        NewAck(st.cfg, old(State()), messageID, m).effects)
    {
      NoEffect(directory.store.State(), "");
      var i := FindQueued(messageID);
      if i < |msgsToProcess| {
        CountAck(i, m.roomID, now);
      } else {
        BufferAck(messageID, m);
      }
    }

    /** Lines 856-862: whether this is the first ack of the peer for the chat. */
    method MarkProcessed(id: string, key: string) returns (isNew: bool)
      modifies `processedAcks
      ensures isNew <==> key !in AcksOf(old(processedAcks), id)
      ensures processedAcks ==
              if isNew then old(processedAcks)[id := AcksOf(old(processedAcks), id) + {key}] else old(processedAcks)
    {
      if id in processedAcks && key in processedAcks[id] {
        return false;
      }
      if id !in processedAcks {
        processedAcks := processedAcks[id := {}];
      }
      processedAcks := processedAcks[id := processedAcks[id] + {key}];
      return true;
    }

    /** Lines 906-912: keeps an ack until its chat arrives. */
    method BufferAck(id: string, m: Message)
      modifies `pendingAcks
      ensures pendingAcks == old(pendingAcks)[id := PendingOf(old(pendingAcks), id) + [m]]
    {
      if id !in pendingAcks {
        pendingAcks := pendingAcks[id := []];
      }
      pendingAcks := pendingAcks[id := pendingAcks[id] + [m]];
    }

    /** Lines 869-900: counts an ack for the chat at `i` and commits the chat to
        the ack's room if it now can be. */
    method CountAck(i: nat, room: string, now: string)
      requires Valid() && i < |msgsToProcess|
      modifies `msgsToProcess, directory.store
      ensures Valid() && RoomMembers() == old(RoomMembers())
      ensures var chat := OneMoreAck(old(msgsToProcess)[i]);
        var q := old(msgsToProcess)[i := chat];
        if chat.acksReceived >= st.cfg.threshold && CanSave(q, i)
        then msgsToProcess == AckProtocol.Without(q, i)
             && LogsMoved(old(directory.store.State()), directory.store.State(), [Commit(room, chat)])
        else msgsToProcess == q && LogsMoved(old(directory.store.State()), directory.store.State(), [])
    {
      NoEffect(directory.store.State(), "");
      msgsToProcess := msgsToProcess[i := OneMoreAck(msgsToProcess[i])];
      if msgsToProcess[i].acksReceived >= st.cfg.threshold {
        var canSave := NoEarlierMessage(i);
        if canSave {
          CommitQueued(i, room, now);
        }
      }
    }

    /** Lines 723-739: counts the early acks of a chat afresh. */
    method ReplayPendingAcks(id: string) returns (received: nat)
      requires id in pendingAcks
      modifies `processedAcks, `pendingAcks
      ensures received == |Keys(old(pendingAcks)[id])|
      ensures processedAcks ==
              if old(pendingAcks)[id] == [] then old(processedAcks) - {id}
              else old(processedAcks)[id := Keys(old(pendingAcks)[id])]
      ensures pendingAcks == old(pendingAcks) - {id}
    {
      var acks := pendingAcks[id];
      processedAcks := processedAcks - {id};
      received := 0;
      var k := 0;
      while k < |acks|
        modifies `processedAcks
        invariant 0 <= k <= |acks|
        invariant received == |Keys(acks[..k])|
        invariant processedAcks - {id} == old(processedAcks) - {id}
        invariant AcksOf(processedAcks, id) == Keys(acks[..k]) && (id in processedAcks <==> k > 0)
      {
        KeysGrow(acks, k);
        ghost var before := processedAcks;
        var isNew := MarkProcessed(id, acks[k].publicKey);
        OnlyKeyChanged(before, processedAcks, id);
        if isNew {
          received := received + 1;
        }
        k := k + 1;
      }
      assert acks[..k] == acks;
      RestoreKey(old(processedAcks), processedAcks, id);
      pendingAcks := pendingAcks - {id};
    }

    method EnqueueChat(m: Message)
      modifies `msgsToProcess, `processedAcks, `pendingAcks
      ensures State() == EnqueueSection(old(State()), m)
    {
      var i := FindQueued(m.id);
      if i < |msgsToProcess| {
        return;
      }
      var received := 0;
      if m.id in pendingAcks {
        received := ReplayPendingAcks(m.id);
      }
      msgsToProcess := msgsToProcess + [m.(acksReceived := received)];
    }

    /** Commits the chat at `i` and takes it off the queue. */
    method CommitQueued(i: nat, room: string, now: string)
      requires Valid() && i < |msgsToProcess|
      modifies `msgsToProcess, directory.store
      ensures Valid() && RoomMembers() == old(RoomMembers())
      ensures msgsToProcess == AckProtocol.Without(old(msgsToProcess), i)
      ensures LogsMoved(old(directory.store.State()), directory.store.State(), [Commit(room, old(msgsToProcess)[i])])
    {
      SaveToBlockchain(room, msgsToProcess[i], now);
      msgsToProcess := msgsToProcess[..i] + msgsToProcess[i + 1..];
    }

    method TickChat(id: string, now: string)
      requires Valid()
      modifies `msgsToProcess, directory.store
      ensures Valid() && RoomMembers() == old(RoomMembers())
      ensures State() == TickSection(st.cfg, old(State()), id).node
      ensures LogsMoved(old(directory.store.State()), directory.store.State(),
                        TickSection(st.cfg, old(State()), id).effects)
    {
      NoEffect(directory.store.State(), "");
      var i := FindQueued(id);
      if i < |msgsToProcess| && msgsToProcess[i].acksReceived >= st.cfg.threshold {
        var canSave := NoEarlierMessage(i);
        if canSave {
          CommitQueued(i, st.cfg.room, now);
        }
      }
    }

    method TimeoutChat(id: string)
      modifies `msgsToProcess
      ensures State() == TimeoutSection(old(State()), id)
    {
      var i := FindQueued(id);
      if i < |msgsToProcess| {
        msgsToProcess := msgsToProcess[..i] + msgsToProcess[i + 1..];
      }
    }

    method ClearBlockchain(room: string)
      requires Valid()
      modifies directory.store
      ensures Valid() && RoomMembers() == old(RoomMembers())
      ensures LogsMoved(old(directory.store.State()), directory.store.State(), [Effect.Clear(room)])
      ensures CutBehindPeers(LogOf(old(directory.store.State()), room), LogOf(directory.store.State(), room))
    {
      ghost var before := directory.store.State();
      ClearRoomTruncates(before, room);
      ClearEffect(before, room);
      EffectsKeepMembers(LogOf(before, st.cfg.room), st.cfg.room, [Effect.Clear(room)]);
      CoherentChains(before, room);
      directory.store.ClearBlockchain(room);
      var ok := directory.store.ClearBlockchainForRoom(room);
    }

    // ---------- Forwarding ----------

    /** Draws indices until `count` different ones have come up; `None` if the
        draws end first. */
    static method SelectRandomPeers(peers: seq<GossipNode>, count: nat, draws: seq<nat>)
      returns (r: Option<seq<GossipNode>>)
      ensures r.Some? ==> IsSelection(peers, r.value)
      ensures r.Some? ==> |r.value| == if count < |peers| then count else |peers|
      ensures r.Some? <==> (count < |peers| ==> count <= |Offered(draws, |peers|)|)
    {
      if count >= |peers| {
        AllIndices(peers);
        return Some(peers);
      }
      var selected: seq<GossipNode> := [];
      var indices: set<nat> := {};
      ghost var chosen: seq<nat> := [];
      var next := 0;
      while |selected| < count
        invariant 0 <= next <= |draws|
        invariant indices == Offered(draws[..next], |peers|)
        invariant |indices| == |selected| <= count
        invariant SelectedAt(peers, selected, chosen)
        invariant forall i :: i in chosen ==> i in indices
        decreases |draws| - next
      {
        if next == |draws| {
          assert draws[..next] == draws;
          return None;
        }
        var idx := draws[next] % |peers|;
        OneMoreDraw(draws, next, |peers|);
        if idx !in indices {
          OneMoreChosen(peers, selected, chosen, idx);
          indices := indices + {idx};
          selected := selected + [peers[idx]];
          chosen := chosen + [idx];
        } else {
          assert indices + {idx} == indices;
        }
        next := next + 1;
      }
      OfferedGrows(draws, next, |peers|);
      return Some(selected);
    }

    /** What `forwardGossipMessage` may send: nothing from an attacker; otherwise
        the message to different live peers, never to itself, as many as the
        fanout says. */
    ghost predicate Forwarding(sends: seq<Send>, m: Message)
      reads `gossipPeers, `forwardingFanout
    {
      if isAttackerNode then sends == []
      else
        && (forall i :: 0 <= i < |sends| ==> sends[i].msg == m && sends[i].peer in Candidates())
        && (forall i, j :: 0 <= i < j < |sends| ==> sends[i].peer.id != sends[j].peer.id)
        && |sends| == if 0 < forwardingFanout < |Candidates()| then forwardingFanout else |Candidates()|
    }

    /** The random draws do not end before the fanout is reached; without a fanout
        limit none are needed. */
    ghost predicate CanForward(draws: seq<nat>)
      reads `gossipPeers, `forwardingFanout
    {
      || isAttackerNode
      || !(0 < forwardingFanout < |Candidates()|)
      || forwardingFanout <= |Offered(draws, |Candidates()|)|
    }

    /** `None` if the random draws end too early. */
    method ForwardGossipMessage(m: Message, draws: seq<nat>) returns (r: Option<seq<Send>>)
      requires forall id :: id in gossipPeers ==> gossipPeers[id].id == id
      ensures r.Some? <==> CanForward(draws)
      ensures r.Some? ==> Forwarding(r.value, m)
    {
      if isAttackerNode {
        return Some([]);
      }
      var peers: seq<GossipNode> := [];
      var ids := gossipPeers.Keys;
      while ids != {}
        invariant ids <= gossipPeers.Keys
        invariant forall p :: p in peers <==>
                    p.id in gossipPeers && p.id !in ids && gossipPeers[p.id] == p && p in Candidates()
        invariant forall i, j :: 0 <= i < j < |peers| ==> peers[i].id != peers[j].id
      {
        var id :| id in ids;
        var peer := gossipPeers[id];
        if peer.isAlive && peer.id != st.nodeID {
          peers := peers + [peer];
        }
        ids := ids - {id};
      }
      CandidatesListed(peers, Candidates());
      var selected := peers;
      if 0 < forwardingFanout < |peers| {
        var some := SelectRandomPeers(peers, forwardingFanout, draws);
        if some == None {
          return None;
        }
        selected := some.value;
      } else {
        AllIndices(peers);
      }
      SelectionKeepsDistinct(peers, selected);
      return Some(seq(|selected|, i requires 0 <= i < |selected| => Send(selected[i], m)));
    }

    // ---------- The handler ----------

    /** What becomes of a message: passed on with one unit of TTL less if it is
        `accepted` and has TTL left, `None` exactly if the draws do not suffice for
        that, and otherwise not sent at all. */
    ghost predicate Forwarded(accepted: bool, m: Message, draws: seq<nat>, r: Option<seq<Send>>)
      reads `gossipPeers, `forwardingFanout
    {
      if accepted && m.ttl > 0
      then (r.Some? <==> CanForward(draws)) && (r.Some? ==> Forwarding(r.value, m.(ttl := m.ttl - 1)))
      else r == Some([])
    }

    /** The node accepts a message, seen from the state before it. */
    ghost predicate AcceptsAfter(members: set<string>, before: Node, m: Message)
      reads `gossipPeers
    {
      Accepted(st, members, KnownKeys(), before, m)
    }

    /** The node acks the chats that it accepts. */
    ghost predicate AcksChats() {
      st.blockChainState && !st.noAckBlockchainSave && !st.disableAckSending
    }

    /** `GossipMessage` for the ack of a chat. */
    method GossipAck(m: Message, id: string, time: int, now: string, draws: seq<nat>)
      returns (acked: Option<seq<Send>>)
      requires Valid()
      modifies `messageHistory, `msgsToProcess, `processedAcks, `pendingAcks, directory.store
      ensures Valid() && RoomMembers() == old(RoomMembers())
      ensures var o := HandleAck(st, old(RoomMembers()), KnownKeys(), old(State()), OwnAck(st, m, id, time));
        State() == o.node && LogsMoved(old(directory.store.State()), directory.store.State(), o.effects)
      ensures var ack := OwnAck(st, m, id, time);
        Forwarded(AcceptsAfter(old(RoomMembers()), old(State()), ack), ack, draws, acked)
      decreases 1, 1
    {
      var data := ACK_TEXT + (m.id + " from " + m.publicKey);
      var ack := Message(id, "ack", data, Itoa(st.nodeID.value), m.roomID, time, 10, st.ownKey,
                         Sign(id + "ack" + data + Itoa(time)), 0);
      var none;
      acked, none := HandleGossipMessage(ack, "", 0, now, draws, []);
    }

    /** Lines 695-703: the node's own ack, unless that is off. */
    method AckChat(m: Message, ackID: string, time: int, now: string, draws: seq<nat>)
      returns (acked: Option<seq<Send>>)
      requires Valid()
      modifies `messageHistory, `msgsToProcess, `processedAcks, `pendingAcks, directory.store
      ensures Valid() && RoomMembers() == old(RoomMembers())
      ensures var o := OwnAckHandled(st, old(RoomMembers()), KnownKeys(), old(State()), OwnAck(st, m, ackID, time));
        State() == o.node && LogsMoved(old(directory.store.State()), directory.store.State(), o.effects)
      ensures var ack := OwnAck(st, m, ackID, time);
        Forwarded(!st.disableAckSending && AcceptsAfter(old(RoomMembers()), old(State()), ack), ack, draws, acked)
      decreases 1, 2
    {
      NoEffect(directory.store.State(), "");
      acked := Some([]);
      if !st.disableAckSending {
        acked := GossipAck(m, ackID, time, now, draws);
      }
    }

    /** Lines 695-752: acks the chat, unless that is off, and enqueues it. */
    method AckAndEnqueue(m: Message, ackID: string, time: int, now: string, draws: seq<nat>)
      returns (acked: Option<seq<Send>>)
      requires Valid()
      modifies `messageHistory, `msgsToProcess, `processedAcks, `pendingAcks, directory.store
      ensures Valid() && RoomMembers() == old(RoomMembers())
      ensures var o := OwnAckHandled(st, old(RoomMembers()), KnownKeys(), old(State()), OwnAck(st, m, ackID, time));
        && State() == EnqueueSection(o.node, m)
        && LogsMoved(old(directory.store.State()), directory.store.State(), o.effects)
      ensures var ack := OwnAck(st, m, ackID, time);
        Forwarded(!st.disableAckSending && AcceptsAfter(old(RoomMembers()), old(State()), ack), ack, draws, acked)
      decreases 1, 3
    {
      acked := AckChat(m, ackID, time, now, draws);
      EnqueueChat(m);
    }

    method ProcessChatMessage(m: Message, ackID: string, time: int, now: string, draws: seq<nat>)
      returns (acked: Option<seq<Send>>)
      requires Valid()
      modifies `messageHistory, `msgsToProcess, `processedAcks, `pendingAcks, directory.store
      ensures Valid() && RoomMembers() == old(RoomMembers())
      ensures var o := ProcessChat(st, old(RoomMembers()), KnownKeys(), old(State()), m, OwnAck(st, m, ackID, time));
        State() == o.node && LogsMoved(old(directory.store.State()), directory.store.State(), o.effects)
      ensures var ack := OwnAck(st, m, ackID, time);
        Forwarded(AcksChats() && AcceptsAfter(old(RoomMembers()), old(State()), ack), ack, draws, acked)
      decreases 1, 4
    {
      NoEffect(directory.store.State(), "");
      acked := Some([]);
      if st.noAckBlockchainSave && st.blockChainState {
        SaveToBlockchain(m.roomID, m, now);
      } else if st.blockChainState {
        acked := AckAndEnqueue(m, ackID, time, now, draws);
      }
    }

    /** Handles one received message; `ackID` and `time` are those of the ack that
        a chat makes the node send. */
    method HandleGossipMessage(m: Message, ackID: string, time: int, now: string, draws: seq<nat>, ackDraws: seq<nat>)
      returns (sent: Option<seq<Send>>, acked: Option<seq<Send>>)
      requires Valid()
      modifies `messageHistory, `msgsToProcess, `processedAcks, `pendingAcks, directory.store
      ensures Valid() && RoomMembers() == old(RoomMembers())
      ensures var o := Handle(st, old(RoomMembers()), KnownKeys(), old(State()), m, OwnAck(st, m, ackID, time));
        State() == o.node && LogsMoved(old(directory.store.State()), directory.store.State(), o.effects)
      ensures Forwarded(AcceptsAfter(old(RoomMembers()), old(State()), m), m, draws, sent)
      ensures var ack := OwnAck(st, m, ackID, time);
        Forwarded(m.kind == "chat" && AcksChats() && AcceptsAfter(old(RoomMembers()), old(State()), m)
                  && AcceptsAfter(old(RoomMembers()), Seen(old(State()), m.id), ack), ack, ackDraws, acked)
      decreases if m.kind == "ack" then 0 else 1, 9
    {
      NoEffect(directory.store.State(), "");
      sent, acked := Some([]), Some([]);
      if m.id in messageHistory {
        return;
      }
      messageHistory := messageHistory + {m.id};
      if m.kind == "heartbeat" && m.publicKey == st.ownKey {
        return;
      }
      HandlerInOrder(st, old(RoomMembers()), KnownKeys(), old(State()), m, OwnAck(st, m, ackID, time));
      sent, acked := HandleNewMessage(m, ackID, time, now, draws, ackDraws);
    }

    /** A known peer's authentic message. */
    ghost predicate Passes(members: set<string>, m: Message)
      reads `gossipPeers
    {
      m.publicKey in KnownKeys() && Authentic(st, members, m)
    }

    /** Lines 601-642. */
    method HandleNewMessage(m: Message, ackID: string, time: int, now: string, draws: seq<nat>, ackDraws: seq<nat>)
      returns (sent: Option<seq<Send>>, acked: Option<seq<Send>>)
      requires Valid()
      modifies `messageHistory, `msgsToProcess, `processedAcks, `pendingAcks, directory.store
      ensures Valid() && RoomMembers() == old(RoomMembers())
      ensures var o := HandleNew(st, old(RoomMembers()), KnownKeys(), old(State()), m, OwnAck(st, m, ackID, time));
        State() == o.node && LogsMoved(old(directory.store.State()), directory.store.State(), o.effects)
      ensures Forwarded(Passes(old(RoomMembers()), m), m, draws, sent)
      ensures var ack := OwnAck(st, m, ackID, time);
        Forwarded(m.kind == "chat" && AcksChats() && Passes(old(RoomMembers()), m)
                  && AcceptsAfter(old(RoomMembers()), old(State()), ack), ack, ackDraws, acked)
      decreases if m.kind == "ack" then 0 else 1, 8
    {
      ghost var members, known, ack := RoomMembers(), KnownKeys(), OwnAck(st, m, ackID, time);
      ghost var s0, first := directory.store.State(), FirstPass(st, members, State(), m);
      FirstAckPass(m, now);
      ghost var s1 := directory.store.State();
      sent, acked := AuthenticateAndProcess(m, ackID, time, now, draws, ackDraws);
      EffectsInTurn(s0, s1, directory.store.State(), first.effects,
                    SecondPass(st, members, known, first.node, m, ack).effects);
    }

    /** Lines 609-642. */
    method AuthenticateAndProcess(m: Message, ackID: string, time: int, now: string,
                                  draws: seq<nat>, ackDraws: seq<nat>)
      returns (sent: Option<seq<Send>>, acked: Option<seq<Send>>)
      requires Valid()
      modifies `messageHistory, `msgsToProcess, `processedAcks, `pendingAcks, directory.store
      ensures Valid() && RoomMembers() == old(RoomMembers())
      ensures var o := SecondPass(st, old(RoomMembers()), KnownKeys(), old(State()), m, OwnAck(st, m, ackID, time));
        State() == o.node && LogsMoved(old(directory.store.State()), directory.store.State(), o.effects)
      ensures Forwarded(Passes(old(RoomMembers()), m), m, draws, sent)
      ensures var ack := OwnAck(st, m, ackID, time);
        Forwarded(m.kind == "chat" && AcksChats() && Passes(old(RoomMembers()), m)
                  && AcceptsAfter(old(RoomMembers()), old(State()), ack), ack, ackDraws, acked)
      decreases if m.kind == "ack" then 0 else 1, 7
    {
      ghost var s0 := directory.store.State();
      sent, acked := Some([]), Some([]);
      var accepted := PassesAuthentication(m);
      if accepted {
        ghost var s1 := directory.store.State();
        ghost var o := Process(st, RoomMembers(), KnownKeys(), State(), m, OwnAck(st, m, ackID, time));
        sent, acked := ProcessAndForward(m, ackID, time, now, draws, ackDraws);
        NothingThen(s0, s1, directory.store.State(), o.effects);
      }
    }

    /** Lines 630-642. */
    method ProcessAndForward(m: Message, ackID: string, time: int, now: string, draws: seq<nat>, ackDraws: seq<nat>)
      returns (sent: Option<seq<Send>>, acked: Option<seq<Send>>)
      requires Valid()
      modifies `messageHistory, `msgsToProcess, `processedAcks, `pendingAcks, directory.store
      ensures Valid() && RoomMembers() == old(RoomMembers())
      ensures var o := Process(st, old(RoomMembers()), KnownKeys(), old(State()), m, OwnAck(st, m, ackID, time));
        State() == o.node && LogsMoved(old(directory.store.State()), directory.store.State(), o.effects)
      ensures Forwarded(true, m, draws, sent)
      ensures var ack := OwnAck(st, m, ackID, time);
        Forwarded(m.kind == "chat" && AcksChats() && AcceptsAfter(old(RoomMembers()), old(State()), ack),
                  ack, ackDraws, acked)
      decreases if m.kind == "ack" then 0 else 1, 6
    {
      acked := ProcessGossipMessage(m, ackID, time, now, ackDraws);
      sent := ForwardIfAlive(m, draws);
    }

    /** Lines 639-642. */
    method ForwardIfAlive(m: Message, draws: seq<nat>) returns (sent: Option<seq<Send>>)
      requires forall id :: id in gossipPeers ==> gossipPeers[id].id == id
      ensures Forwarded(true, m, draws, sent)
    {
      sent := Some([]);
      if m.ttl > 0 {
        sent := ForwardGossipMessage(m.(ttl := m.ttl - 1), draws);
      }
    }

    /** Lines 609-628: the lookup of the peer and its authentication. */
    method PassesAuthentication(m: Message) returns (r: bool)
      requires Valid()
      modifies directory.store
      ensures Valid() && RoomMembers() == old(RoomMembers())
      ensures r <==> Passes(old(RoomMembers()), m)
      ensures LogsMoved(old(directory.store.State()), directory.store.State(), [])
    {
      NoEffect(directory.store.State(), "");
      var found, peer := FindPeer(m.publicKey);
      if !found {
        return false;
      }
      r := AuthenticateMessage(m, peer);
    }

    method ProcessGossipMessage(m: Message, ackID: string, time: int, now: string, ackDraws: seq<nat>)
      returns (acked: Option<seq<Send>>)
      requires Valid()
      modifies `messageHistory, `msgsToProcess, `processedAcks, `pendingAcks, directory.store
      ensures Valid() && RoomMembers() == old(RoomMembers())
      ensures var o := Process(st, old(RoomMembers()), KnownKeys(), old(State()), m, OwnAck(st, m, ackID, time));
        State() == o.node && LogsMoved(old(directory.store.State()), directory.store.State(), o.effects)
      ensures var ack := OwnAck(st, m, ackID, time);
        Forwarded(m.kind == "chat" && AcksChats() && AcceptsAfter(old(RoomMembers()), old(State()), ack),
                  ack, ackDraws, acked)
      decreases if m.kind == "ack" then 0 else 1, 5
    {
      NoEffect(directory.store.State(), "");
      acked := Some([]);
      if m.kind == "chat" {
        acked := ProcessChatMessage(m, ackID, time, now, ackDraws);
      } else if m.kind == "clear_blockchain" {
        ClearBlockchain(m.roomID);
      } else if m.kind == "ack" {
        ProcessAck(m, now);
      }
    }

    /** Lines 602-607. */
    method FirstAckPass(m: Message, now: string)
      requires Valid()
      modifies `msgsToProcess, `processedAcks, `pendingAcks, directory.store
      ensures Valid() && RoomMembers() == old(RoomMembers())
      ensures var o := FirstPass(st, old(RoomMembers()), old(State()), m);
        State() == o.node && LogsMoved(old(directory.store.State()), directory.store.State(), o.effects)
    {
      NoEffect(directory.store.State(), "");
      if m.kind == "ack" {
        var inRoom := IsInRoom(m.publicKey);
        if inRoom {
          ghost var middle := directory.store.State();
          ProcessAck(m, now);
          NothingThen(old(directory.store.State()), middle, directory.store.State(),
                      AckIfOn(st, old(State()), m).effects);
        }
      }
    }
  }

  // ---------- Facts used by the loops ----------

  lemma {:induction false} FindIsFirst(q: seq<Message>, id: string, i: nat)
    requires i <= |q| && (i < |q| ==> q[i].id == id)
    requires forall j :: 0 <= j < i ==> q[j].id != id
    ensures Find(q, id) == i
  {}

  lemma OnlyKeyChanged(before: map<string, set<string>>, after: map<string, set<string>>, id: string)
    requires after == before || (id in after && after == before[id := after[id]])
    ensures after - {id} == before - {id}
  {}

  lemma RestoreKey(before: map<string, set<string>>, after: map<string, set<string>>, id: string)
    requires after - {id} == before - {id}
    ensures after == if id in after then before[id := after[id]] else before - {id}
  {
    assert forall k :: k in after && k != id ==> k in after - {id} && after[k] == (after - {id})[k];
    assert forall k :: k in before && k != id ==> k in before - {id} && before[k] == (before - {id})[k];
  }

  lemma KeysGrow(acks: seq<Message>, k: nat)
    requires k < |acks|
    ensures Keys(acks[..k + 1]) == Keys(acks[..k]) + {acks[k].publicKey}
    ensures |Keys(acks[..k + 1])| == |Keys(acks[..k])| + (if acks[k].publicKey in Keys(acks[..k]) then 0 else 1)
  {}

  lemma OneMoreDraw(draws: seq<nat>, k: nat, n: nat)
    requires k < |draws| && n > 0
    ensures Offered(draws[..k + 1], n) == Offered(draws[..k], n) + {draws[k] % n}
  {
    var before, after := draws[..k], draws[..k + 1];
    assert after == before + [draws[k]];
    assert forall d :: d in after <==> d in before || d == draws[k];
    forall i: nat
      ensures i in Offered(after, n) <==> i in Offered(before, n) || i == draws[k] % n
    {
      if i in Offered(after, n) {
        var d: nat :| d in after && d % n == i;
      }
      if i in Offered(before, n) {
        var d: nat :| d in before && d % n == i;
        assert d in after;
      }
      assert draws[k] in after;
    }
  }

  lemma OneMoreChosen(peers: seq<GossipNode>, selected: seq<GossipNode>, chosen: seq<nat>, idx: nat)
    requires SelectedAt(peers, selected, chosen) && idx < |peers| && idx !in chosen
    ensures SelectedAt(peers, selected + [peers[idx]], chosen + [idx])
  {}

  lemma OfferedGrows(draws: seq<nat>, k: nat, n: nat)
    requires k <= |draws| && n > 0
    ensures |Offered(draws[..k], n)| <= |Offered(draws, n)|
  {
    var a, b := Offered(draws[..k], n), Offered(draws, n);
    forall i | i in a
      ensures i in b
    {
      var d: nat :| d in draws[..k] && d % n == i;
      assert d in draws;
    }
    assert b == a + (b - a);
  }

  lemma {:induction false} CandidatesListed(peers: seq<GossipNode>, all: set<GossipNode>)
    requires forall p :: p in peers <==> p in all
    requires forall i, j :: 0 <= i < j < |peers| ==> peers[i].id != peers[j].id
    ensures |peers| == |all|
  {
    if peers != [] {
      var front, last := peers[..|peers| - 1], peers[|peers| - 1];
      assert forall p :: p in peers <==> p in front || p == last;
      CandidatesListed(front, all - {last});
    } else {
      assert forall p :: p !in peers;
      assert all == {};
    }
  }

  lemma SelectionKeepsDistinct(peers: seq<GossipNode>, selected: seq<GossipNode>)
    requires IsSelection(peers, selected)
    requires forall i, j :: 0 <= i < j < |peers| ==> peers[i].id != peers[j].id
    ensures forall p :: p in selected ==> p in peers
    ensures forall i, j :: 0 <= i < j < |selected| ==> selected[i].id != selected[j].id
  {}
}
