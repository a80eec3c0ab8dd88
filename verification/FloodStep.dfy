/** The nodes of `Flood` are `GossipNetwork` objects: what one handler call sends
    is one delivery of the flood. */
module FloodStep {
  import opened GoText
  import opened FiniteSets
  import opened AckProtocol
  import opened GossipHandler
  import opened Flood
  import opened Gossip

  function PeerOf(id: NodeID): Peer {
    Peer(id.value)
  }

  /** The ids of the live peers that a node knows. */
  function LiveIds(peers: map<NodeID, GossipNode>): set<NodeID> {
    set id | id in peers && peers[id].isAlive
  }

  function LivePeers(peers: map<NodeID, GossipNode>): set<Peer> {
    set id | id in LiveIds(peers) :: PeerOf(id)
  }

  /** The net gives the node's place, peers, fanout and role. */
  ghost predicate Places(net: Net, g: GossipNetwork)
    requires WellFormed(net)
    reads g
  {
    var v := PeerOf(g.st.nodeID);
    && v in net.nodes
    && net.peers[v] == LivePeers(g.gossipPeers)
    && net.fanout[v] == g.forwardingFanout
    && (v in net.attackers <==> g.isAttackerNode)
  }

  /** The live peers but the node itself. */
  function Others(g: GossipNetwork): set<NodeID>
    reads g
  {
    LiveIds(g.gossipPeers) - {g.st.nodeID}
  }

  lemma CountCandidates(g: GossipNetwork)
    requires forall id :: id in g.gossipPeers ==> g.gossipPeers[id].id == id
    ensures |g.Candidates()| == |Others(g)|
  {
    var idOf := (p: GossipNode) => p.id;
    forall id | id in Others(g)
      ensures exists p :: p in g.Candidates() && idOf(p) == id
    {
      assert g.gossipPeers[id] in g.Candidates() && idOf(g.gossipPeers[id]) == id;
    }
    PairedSize(g.Candidates(), Others(g), idOf);
  }

  lemma CountTargets(net: Net, g: GossipNetwork)
    requires WellFormed(net) && Places(net, g)
    ensures |Targets(net, PeerOf(g.st.nodeID))| == |Others(g)|
  {
    var targets := Targets(net, PeerOf(g.st.nodeID));
    var idOf := (p: Peer) => NodeID(p.id);
    forall id | id in Others(g)
      ensures exists p :: p in targets && idOf(p) == id
    {
      assert PeerOf(id) in targets && idOf(PeerOf(id)) == id;
    }
    PairedSize(targets, Others(g), idOf);
  }

  /** The flood has as many targets for the node as it has candidates. */
  lemma TargetsAreCandidates(net: Net, g: GossipNetwork)
    requires WellFormed(net) && Places(net, g)
    requires forall id :: id in g.gossipPeers ==> g.gossipPeers[id].id == id
    ensures |Targets(net, PeerOf(g.st.nodeID))| == |g.Candidates()|
    ensures forall p :: p in g.Candidates() ==> PeerOf(p.id) in Targets(net, PeerOf(g.st.nodeID))
  {
    CountCandidates(g);
    CountTargets(net, g);
  }

  /** The nodes that a series of sends goes to. */
  function Receivers(sends: seq<Send>): set<Peer> {
    set s | s in sends :: PeerOf(s.peer.id)
  }

  /** The copies that a series of sends puts in flight. */
  function Copies(sends: seq<Send>): multiset<Copy> {
    if sends == [] then multiset{}
    else Copies(sends[..|sends| - 1]) + multiset{Copy(PeerOf(sends[|sends| - 1].peer.id), sends[|sends| - 1].msg.ttl)}
  }

  lemma {:induction false} CopiesAreSent(sends: seq<Send>, ttl: int)
    requires forall s :: s in sends ==> s.msg.ttl == ttl
    requires forall i, j :: 0 <= i < j < |sends| ==> sends[i].peer.id != sends[j].peer.id
    ensures Copies(sends) == Sent(Receivers(sends), ttl) && |Receivers(sends)| == |sends|
  {
    if sends != [] {
      var front, last := sends[..|sends| - 1], sends[|sends| - 1];
      CopiesAreSent(front, ttl);
      OneMoreReceiver(sends);
      SentOneMore(Receivers(front), PeerOf(last.peer.id), ttl);
    } else {
      assert Receivers(sends) == {};
    }
  }

  lemma OneMoreReceiver(sends: seq<Send>)
    requires sends != [] && forall i, j :: 0 <= i < j < |sends| ==> sends[i].peer.id != sends[j].peer.id
    ensures var front, v := sends[..|sends| - 1], PeerOf(sends[|sends| - 1].peer.id);
      && Receivers(sends) == Receivers(front) + {v} && v !in Receivers(front)
      && |Receivers(sends)| == |Receivers(front)| + 1
  {
    var front, last := sends[..|sends| - 1], sends[|sends| - 1];
    assert sends == front + [last];
    assert Receivers(sends) == Receivers(front) + {PeerOf(last.peer.id)};
  }

  lemma SentOneMore(picked: set<Peer>, v: Peer, ttl: int)
    requires v !in picked
    ensures Sent(picked + {v}, ttl) == Sent(picked, ttl) + multiset{Copy(v, ttl)}
  {}

  /** A forwarder picks as many targets as its degree and sends one copy to each. */
  lemma ForwardingPicks(net: Net, g: GossipNetwork, m: Message, sends: seq<Send>)
    requires WellFormed(net) && Places(net, g)
    requires forall id :: id in g.gossipPeers ==> g.gossipPeers[id].id == id
    requires !g.isAttackerNode && g.Forwarding(sends, m)
    ensures SendsPick(net, PeerOf(g.st.nodeID), m.ttl, sends)
  {
    TargetsAreCandidates(net, g);
    CopiesAreSent(sends, m.ttl);
    forall w | w in Receivers(sends)
      ensures w in Targets(net, PeerOf(g.st.nodeID))
    {
      var x :| x in sends && PeerOf(x.peer.id) == w;
    }
  }

  ghost predicate SendsPick(net: Net, v: Peer, ttl: int, sends: seq<Send>)
    requires WellFormed(net) && v in net.nodes
  {
    && Receivers(sends) <= Targets(net, v)
    && |Receivers(sends)| == Degree(net, v)
    && Copies(sends) == Sent(Receivers(sends), ttl)
  }

  /** The sends are a delivery's, seen from the flood. */
  lemma PickedIsDelivery(net: Net, s: Wave, c: Copy, sends: seq<Send>)
    requires WellFormed(net) && c.to in net.nodes && c in s.inflight
    requires if c.to !in s.seen && Forwards(net, c.to, c.ttl)
      then SendsPick(net, c.to, c.ttl - 1, sends)
      else sends == []
    ensures Possible(net, s, Delivery(c, Receivers(sends)))
    ensures Deliver(s, Delivery(c, Receivers(sends))).inflight == s.inflight - multiset{c} + Copies(sends)
  {}

  /** Handling a copy of the flooded message is a delivery that the flood allows:
      it puts exactly the delivery's copies in flight, a first copy enters with
      its TTL what the flood has seen, and the node remembers the message as the
      flood does. */
  lemma HandlerIsDelivery(net: Net, s: Wave, g: GossipNetwork, members: set<string>, before: Node,
                          m: Message, ack: Message, draws: seq<nat>, sends: seq<Send>)
    requires WellFormed(net) && Places(net, g)
    requires forall id :: id in g.gossipPeers ==> g.gossipPeers[id].id == id
    requires var v := PeerOf(g.st.nodeID);
      && (v in net.accepts <==> Accepts(g.st, members, g.KnownKeys(), m))
      && (v in s.seen <==> m.id in before.history)
      && Copy(v, m.ttl) in s.inflight
    requires g.Forwarded(g.AcceptsAfter(members, before, m), m, draws, Some(sends))
    ensures var c := Copy(PeerOf(g.st.nodeID), m.ttl);
      var d := Delivery(c, Receivers(sends));
      && Possible(net, s, d)
      && Deliver(s, d).inflight == s.inflight - multiset{c} + Copies(sends)
      && Deliver(s, d).seen == (if m.id in before.history then s.seen else s.seen[c.to := m.ttl])
    ensures m.id in Handle(g.st, members, g.KnownKeys(), before, m, ack).node.history
  {
    var v := PeerOf(g.st.nodeID);
    if v !in s.seen && Forwards(net, v, m.ttl) {
      ForwardingPicks(net, g, m.(ttl := m.ttl - 1), sends);
    } else {
      NoneSent(net, s, g, members, before, m, draws, sends);
    }
    PickedIsDelivery(net, s, Copy(v, m.ttl), sends);
    HandlerRemembers(g.st, members, g.KnownKeys(), before, m, ack);
  }

  lemma NoneSent(net: Net, s: Wave, g: GossipNetwork, members: set<string>, before: Node,
                 m: Message, draws: seq<nat>, sends: seq<Send>)
    requires WellFormed(net) && Places(net, g)
    requires g.Forwarded(g.AcceptsAfter(members, before, m), m, draws, Some(sends))
    requires var v := PeerOf(g.st.nodeID);
      && (v in net.accepts <==> Accepts(g.st, members, g.KnownKeys(), m))
      && (v in s.seen <==> m.id in before.history)
      && !(v !in s.seen && Forwards(net, v, m.ttl))
    ensures sends == []
  {}
}
