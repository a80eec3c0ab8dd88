/** The flood of one message through many nodes: `HandleGossipMessage`,
    `forwardGossipMessage` and `GossipMessage` of
    `src/network_gossip/network_gossip.go`, with the copies in flight delivered
    in any order. */
module Flood {
  import opened FiniteSets

  /** A node, by its 64-bit id. */
  datatype Peer = Peer(id: int)

  /** `peers[v]` are the live peers that `v` knows; `accepts` are the nodes that
      know and authenticate the origin; `attackers` do not forward. */
  datatype Net = Net(nodes: set<Peer>, peers: map<Peer, set<Peer>>, accepts: set<Peer>, attackers: set<Peer>,
                     fanout: map<Peer, int>)

  ghost predicate WellFormed(net: Net) {
    && net.peers.Keys == net.nodes && net.fanout.Keys == net.nodes
    && forall v, w :: v in net.nodes && w in net.peers[v] ==> w in net.nodes
  }

  datatype Copy = Copy(to: Peer, ttl: int)

  /** The TTL with which each node first heard the message, and the copies on
      their way. */
  datatype Wave = Wave(seen: map<Peer, int>, inflight: multiset<Copy>)

  const INITIAL_TTL := 10

  /** `GossipMessage` hands the message to the origin's own handler. */
  function Start(origin: Peer): Wave {
    Wave(map[], multiset{Copy(origin, INITIAL_TTL)})
  }

  /** The candidates of `forwardGossipMessage`: every live peer but the node. */
  function Targets(net: Net, v: Peer): set<Peer>
    requires WellFormed(net) && v in net.nodes
  {
    net.peers[v] - {v}
  }

  /** How many targets a node picks. */
  function Degree(net: Net, v: Peer): nat
    requires WellFormed(net) && v in net.nodes
  {
    var n := |Targets(net, v)|;
    var f := net.fanout[v];
    if 0 < f < n then f else n
  }

  ghost predicate Forwards(net: Net, v: Peer, ttl: int) {
    v in net.accepts && v !in net.attackers && ttl > 0
  }

  /** A delivery: the copy taken and, when the node forwards, the peers that its
      fanout picks. */
  datatype Delivery = Delivery(copy: Copy, picked: set<Peer>)

  ghost predicate Possible(net: Net, s: Wave, d: Delivery)
    requires WellFormed(net)
  {
    && d.copy in s.inflight && d.copy.to in net.nodes
    && (if d.copy.to !in s.seen && Forwards(net, d.copy.to, d.copy.ttl)
        then d.picked <= Targets(net, d.copy.to) && |d.picked| == Degree(net, d.copy.to)
        else d.picked == {})
  }

  function Sent(picked: set<Peer>, ttl: int): multiset<Copy> {
    multiset(set w | w in picked :: Copy(w, ttl))
  }

  function Deliver(s: Wave, d: Delivery): Wave {
    if d.copy.to in s.seen then Wave(s.seen, s.inflight - multiset{d.copy})
    else Wave(s.seen[d.copy.to := d.copy.ttl], s.inflight - multiset{d.copy} + Sent(d.picked, d.copy.ttl - 1))
  }

  function Run(s: Wave, ds: seq<Delivery>): Wave
    decreases |ds|
  {
    if ds == [] then s else Run(Deliver(s, ds[0]), ds[1..])
  }

  ghost predicate PossibleRun(net: Net, s: Wave, ds: seq<Delivery>)
    requires WellFormed(net)
    decreases |ds|
  {
    ds == [] || (Possible(net, s, ds[0]) && PossibleRun(net, Deliver(s, ds[0]), ds[1..]))
  }

  lemma SentMembers(picked: set<Peer>, ttl: int)
    ensures forall c :: c in Sent(picked, ttl) <==> c.to in picked && c.ttl == ttl
    ensures |Sent(picked, ttl)| == |picked|
  {
    SentSize(picked, ttl);
  }

  lemma {:induction false} SentSize(picked: set<Peer>, ttl: int)
    ensures |Sent(picked, ttl)| == |picked|
  {
    if picked != {} {
      var w :| w in picked;
      SentSize(picked - {w}, ttl);
      var copies := set x | x in picked :: Copy(x, ttl);
      var fewer := set x | x in picked - {w} :: Copy(x, ttl);
      assert copies == fewer + {Copy(w, ttl)} && Copy(w, ttl) !in fewer;
      assert Sent(picked, ttl) == multiset(fewer) + multiset{Copy(w, ttl)};
    }
  }

  // ---------- First receipts follow trails of distinct nodes ----------

  ghost predicate Distinct(p: seq<Peer>) {
    forall i, j :: 0 <= i < j < |p| ==> p[i] != p[j]
  }

  /** Node `i` of a path is a forwarding target of the one before. */
  ghost predicate Hop(net: Net, p: seq<Peer>, i: nat)
    requires WellFormed(net) && 0 < i < |p|
  {
    p[i - 1] in net.nodes && p[i] in Targets(net, p[i - 1])
  }

  /** A trail of distinct nodes from the origin along which the message has
      travelled so far: each first heard it with one unit of TTL less than the one
      before, and each but the last forwarded it. */
  ghost predicate Trail(net: Net, origin: Peer, seen: map<Peer, int>, p: seq<Peer>)
    requires WellFormed(net)
  {
    && p != [] && p[0] == origin && Distinct(p)
    && (forall i :: 0 <= i < |p| ==> p[i] in seen && p[i] in net.nodes && seen[p[i]] == INITIAL_TTL - i)
    && (forall i :: 0 < i < |p| ==> Hop(net, p, i))
    && (forall i :: 0 <= i < |p| - 1 ==> Forwards(net, p[i], INITIAL_TTL - i))
  }

  /** `v` first heard the message at the end of a trail. */
  ghost predicate HeardAlong(net: Net, origin: Peer, s: Wave, v: Peer, p: seq<Peer>)
    requires WellFormed(net)
  {
    Trail(net, origin, s.seen, p) && p[|p| - 1] == v
  }

  /** A copy was sent from the end of a trail, or is the origin's own. */
  ghost predicate SentAlong(net: Net, origin: Peer, s: Wave, c: Copy, p: seq<Peer>)
    requires WellFormed(net)
  {
    if p == [] then c == Copy(origin, INITIAL_TTL)
    else
      && Trail(net, origin, s.seen, p) && c.to in Targets(net, p[|p| - 1])
      && Forwards(net, p[|p| - 1], INITIAL_TTL - (|p| - 1))
      && c.ttl == INITIAL_TTL - |p|
  }

  ghost predicate Heard(net: Net, origin: Peer, s: Wave, v: Peer)
    requires WellFormed(net)
  {
    exists p :: HeardAlong(net, origin, s, v, p)
  }

  ghost predicate Tracked(net: Net, origin: Peer, s: Wave, c: Copy)
    requires WellFormed(net)
  {
    exists p :: SentAlong(net, origin, s, c, p)
  }

  ghost predicate Trails(net: Net, origin: Peer, s: Wave)
    requires WellFormed(net)
  {
    && s.seen.Keys <= net.nodes
    && (forall v :: v in s.seen ==> Heard(net, origin, s, v))
    && (forall c :: c in s.inflight ==> Tracked(net, origin, s, c))
  }

  lemma TrailGrows(net: Net, origin: Peer, seen: map<Peer, int>, p: seq<Peer>, v: Peer)
    requires WellFormed(net) && Trail(net, origin, seen, p)
    requires v !in seen && v in net.nodes && v in Targets(net, p[|p| - 1])
    requires Forwards(net, p[|p| - 1], INITIAL_TTL - (|p| - 1))
    ensures Trail(net, origin, seen[v := INITIAL_TTL - |p|], p + [v])
  {
    var q := p + [v];
    forall i | 0 < i < |q|
      ensures Hop(net, q, i)
    {
      if i < |p| {
        assert Hop(net, p, i);
      }
    }
  }

  /** The trail of the node that a copy reaches first. */
  lemma FirstReceiptTrail(net: Net, origin: Peer, s: Wave, d: Delivery) returns (p: seq<Peer>)
    requires WellFormed(net) && Trails(net, origin, s) && Possible(net, s, d) && d.copy.to !in s.seen
    ensures HeardAlong(net, origin, Deliver(s, d), d.copy.to, p)
  {
    var c := d.copy;
    var t := Deliver(s, d);
    var q :| SentAlong(net, origin, s, c, q);
    p := q + [c.to];
    if q != [] {
      TrailGrows(net, origin, s.seen, q, c.to);
    }
  }

  lemma TrailStays(net: Net, origin: Peer, seen: map<Peer, int>, more: map<Peer, int>, p: seq<Peer>)
    requires WellFormed(net) && Trail(net, origin, seen, p)
    requires forall v :: v in seen ==> v in more && more[v] == seen[v]
    ensures Trail(net, origin, more, p)
  {}

  /** Older receipts and older copies keep their trails. */
  lemma TrailsStay(net: Net, origin: Peer, s: Wave, t: Wave)
    requires WellFormed(net) && Trails(net, origin, s)
    requires s.seen.Keys <= t.seen.Keys && forall v :: v in s.seen ==> t.seen[v] == s.seen[v]
    ensures forall v :: v in s.seen ==> Heard(net, origin, t, v)
    ensures forall c :: c in s.inflight ==> Tracked(net, origin, t, c)
  {
    forall v | v in s.seen
      ensures Heard(net, origin, t, v)
    {
      var p :| HeardAlong(net, origin, s, v, p);
      TrailStays(net, origin, s.seen, t.seen, p);
      assert HeardAlong(net, origin, t, v, p);
    }
    forall c | c in s.inflight
      ensures Tracked(net, origin, t, c)
    {
      var p :| SentAlong(net, origin, s, c, p);
      if p != [] {
        TrailStays(net, origin, s.seen, t.seen, p);
      }
      assert SentAlong(net, origin, t, c, p);
    }
  }

  /** The copies that a node sends continue its trail. */
  lemma SentContinues(net: Net, origin: Peer, s: Wave, d: Delivery, own: seq<Peer>, c: Copy)
    requires WellFormed(net) && Possible(net, s, d) && d.copy.to !in s.seen
    requires HeardAlong(net, origin, Deliver(s, d), d.copy.to, own)
    requires c in Sent(d.picked, d.copy.ttl - 1)
    ensures SentAlong(net, origin, Deliver(s, d), c, own)
  {}

  lemma DeliverKeepsTrails(net: Net, origin: Peer, s: Wave, d: Delivery)
    requires WellFormed(net) && Trails(net, origin, s) && Possible(net, s, d)
    ensures Trails(net, origin, Deliver(s, d))
  {
    var t := Deliver(s, d);
    TrailsStay(net, origin, s, t);
    if d.copy.to !in s.seen {
      FirstCopyKeepsTrails(net, origin, s, d);
    } else {
      assert t.seen == s.seen;
      assert forall c :: c in t.inflight ==> c in s.inflight;
    }
  }

  lemma FirstCopyKeepsTrails(net: Net, origin: Peer, s: Wave, d: Delivery)
    requires WellFormed(net) && Trails(net, origin, s) && Possible(net, s, d) && d.copy.to !in s.seen
    ensures Trails(net, origin, Deliver(s, d))
  {
    var t := Deliver(s, d);
    TrailsStay(net, origin, s, t);
    var own := FirstReceiptTrail(net, origin, s, d);
    assert Heard(net, origin, t, d.copy.to);
    forall c | c in t.inflight
      ensures Tracked(net, origin, t, c)
    {
      InflightAfter(s, d, c);
      if c !in s.inflight {
        SentContinues(net, origin, s, d, own, c);
      }
    }
  }

  lemma InflightAfter(s: Wave, d: Delivery, c: Copy)
    requires c in Deliver(s, d).inflight
    ensures c in s.inflight || (d.copy.to !in s.seen && c in Sent(d.picked, d.copy.ttl - 1))
  {}

  lemma StartHasTrails(net: Net, origin: Peer)
    requires WellFormed(net)
    ensures Trails(net, origin, Start(origin))
  {
    assert SentAlong(net, origin, Start(origin), Copy(origin, INITIAL_TTL), []);
  }

  /** In every run, a node's first copy came along a trail of distinct forwarders
      that starts at the origin; every node of the trail first heard the message
      with TTL 10 less its hops. */
  lemma {:induction false} FirstReceiptTtl(net: Net, origin: Peer, s: Wave, ds: seq<Delivery>)
    requires WellFormed(net) && Trails(net, origin, s) && PossibleRun(net, s, ds)
    ensures Trails(net, origin, Run(s, ds))
    decreases |ds|
  {
    if ds != [] {
      DeliverKeepsTrails(net, origin, s, ds[0]);
      FirstReceiptTtl(net, origin, Deliver(s, ds[0]), ds[1..]);
    }
  }

  lemma {:induction false} DistinctFits(p: seq<Peer>, s: set<Peer>)
    requires Distinct(p) && forall i :: 0 <= i < |p| ==> p[i] in s
    ensures |p| <= |s|
  {
    if p != [] {
      DistinctFits(p[..|p| - 1], s - {p[|p| - 1]});
    }
  }

  // ---------- Coverage ----------

  ghost predicate FloodsAll(net: Net)
    requires WellFormed(net)
  {
    forall v :: v in net.nodes ==> Degree(net, v) == |Targets(net, v)|
  }

  ghost predicate OnItsWay(s: Wave, w: Peer) {
    exists c :: c in s.inflight && c.to == w
  }

  /** Every node that forwarded has passed the message on: each of its targets
      has seen it or has a copy on its way. */
  ghost predicate PassedOn(net: Net, origin: Peer, s: Wave)
    requires WellFormed(net)
  {
    && (origin in s.seen || Copy(origin, INITIAL_TTL) in s.inflight)
    && forall v, w :: v in s.seen && v in net.nodes && Forwards(net, v, s.seen[v]) && w in Targets(net, v) ==>
         w in s.seen || OnItsWay(s, w)
  }

  lemma SendsTo(s: Wave, d: Delivery, w: Peer)
    requires d.copy.to !in s.seen && w in d.picked
    ensures Copy(w, d.copy.ttl - 1) in Deliver(s, d).inflight
  {}

  lemma NewForwarderPassesOn(net: Net, s: Wave, d: Delivery, w: Peer)
    requires WellFormed(net) && FloodsAll(net) && Possible(net, s, d)
    requires d.copy.to !in s.seen && Forwards(net, d.copy.to, d.copy.ttl) && w in Targets(net, d.copy.to)
    ensures OnItsWay(Deliver(s, d), w)
  {
    SubsetSize(d.picked, Targets(net, d.copy.to));
    SendsTo(s, d, w);
  }

  /** A target that has seen the message or has a copy coming still does. */
  lemma StillReached(s: Wave, d: Delivery, w: Peer)
    requires w in s.seen || OnItsWay(s, w)
    ensures w in Deliver(s, d).seen || OnItsWay(Deliver(s, d), w)
  {}

  lemma OriginStillReached(origin: Peer, s: Wave, d: Delivery)
    requires origin in s.seen || Copy(origin, INITIAL_TTL) in s.inflight
    ensures origin in Deliver(s, d).seen || Copy(origin, INITIAL_TTL) in Deliver(s, d).inflight
  {}

  lemma DeliverKeepsPassedOn(net: Net, origin: Peer, s: Wave, d: Delivery)
    requires WellFormed(net) && FloodsAll(net) && PassedOn(net, origin, s) && Possible(net, s, d)
    ensures PassedOn(net, origin, Deliver(s, d))
  {
    var t := Deliver(s, d);
    var u := d.copy.to;
    forall v, w | v in t.seen && v in net.nodes && Forwards(net, v, t.seen[v]) && w in Targets(net, v)
      ensures w in t.seen || OnItsWay(t, w)
    {
      if u !in s.seen && v == u {
        NewForwarderPassesOn(net, s, d, w);
      } else {
        assert v in s.seen && t.seen[v] == s.seen[v];
        StillReached(s, d, w);
      }
    }
    OriginStillReached(origin, s, d);
  }

  lemma {:induction false} RunKeepsPassedOn(net: Net, origin: Peer, s: Wave, ds: seq<Delivery>)
    requires WellFormed(net) && FloodsAll(net) && PassedOn(net, origin, s) && PossibleRun(net, s, ds)
    ensures PassedOn(net, origin, Run(s, ds))
    decreases |ds|
  {
    if ds != [] {
      DeliverKeepsPassedOn(net, origin, s, ds[0]);
      RunKeepsPassedOn(net, origin, Deliver(s, ds[0]), ds[1..]);
    }
  }

  /** A route from the origin through accepting forwarders; the last node need
      not forward or accept. */
  ghost predicate Route(net: Net, origin: Peer, p: seq<Peer>)
    requires WellFormed(net)
  {
    && p != [] && p[0] == origin
    && (forall i :: 0 <= i < |p| ==> p[i] in net.nodes)
    && (forall i :: 0 < i < |p| ==> Hop(net, p, i))
    && (forall i :: 0 <= i < |p| - 1 ==> p[i] in net.accepts && p[i] !in net.attackers)
  }

  /** Every way through forwarders that visits exactly twelve different nodes has a
      short cut: its last node is a target of one of the first ten. */
  ghost predicate ShortCuts(net: Net, origin: Peer)
    requires WellFormed(net)
  {
    forall p :: Route(net, origin, p) && Distinct(p) && |p| == 12 ==>
      exists i :: 0 <= i < 10 && p[11] in Targets(net, p[i])
  }

  /** A trail and a target of its last node that has not seen the message make a
      longer way through different nodes. */
  lemma TrailOnward(net: Net, origin: Peer, seen: map<Peer, int>, p: seq<Peer>, w: Peer)
    requires WellFormed(net) && Trail(net, origin, seen, p) && w !in seen && w in Targets(net, p[|p| - 1])
    requires p[|p| - 1] in net.accepts && p[|p| - 1] !in net.attackers
    ensures Route(net, origin, p + [w]) && Distinct(p + [w])
  {
    var q := p + [w];
    forall i | 0 < i < |q|
      ensures Hop(net, q, i)
    {
      if i < |p| {
        assert Hop(net, p, i);
      }
    }
  }

  lemma RoutePrefix(net: Net, origin: Peer, p: seq<Peer>)
    requires WellFormed(net) && Route(net, origin, p) && |p| > 1
    ensures Route(net, origin, p[..|p| - 1])
  {
    var front := p[..|p| - 1];
    forall i | 0 < i < |front|
      ensures Hop(net, front, i)
    {
      assert Hop(net, p, i);
    }
  }

  /** The trail to a forwarder that heard the message with no TTL left has exactly
      eleven nodes. */
  lemma SpentTrail(net: Net, origin: Peer, s: Wave, v: Peer, p: seq<Peer>)
    requires WellFormed(net) && HeardAlong(net, origin, s, v, p) && s.seen[v] <= 0
    ensures |p| == 11
  {
    assert s.seen[p[|p| - 1]] == INITIAL_TTL - (|p| - 1);
    assert |p| > 11 ==> Forwards(net, p[10], INITIAL_TTL - 10);
  }

  /** A forwarder that heard the message too late to pass it on sits at the end of
      a trail of eleven nodes, and earlier nodes of the trail told its targets. */
  lemma QuietForwarder(net: Net, origin: Peer, s: Wave, v: Peer, w: Peer)
    requires WellFormed(net) && Trails(net, origin, s) && PassedOn(net, origin, s)
    requires s.inflight == multiset{} && ShortCuts(net, origin)
    requires v in s.seen && v in net.nodes && v in net.accepts && v !in net.attackers && w in Targets(net, v)
    ensures w in s.seen
  {
    if Forwards(net, v, s.seen[v]) {
      assert !OnItsWay(s, w);
    } else if w !in s.seen {
      var p :| HeardAlong(net, origin, s, v, p);
      SpentTrail(net, origin, s, v, p);
      TrailOnward(net, origin, s.seen, p, w);
      var q := p + [w];
      var i :| 0 <= i < 10 && q[11] in Targets(net, q[i]);
      ToldByTrail(net, origin, s, p, i, w);
    }
  }

  /** When nothing is in flight, whoever forwarded has told its targets. */
  lemma ToldByTrail(net: Net, origin: Peer, s: Wave, p: seq<Peer>, i: nat, w: Peer)
    requires WellFormed(net) && Trail(net, origin, s.seen, p) && PassedOn(net, origin, s)
    requires s.inflight == multiset{} && i < |p| - 1 && w in Targets(net, p[i])
    ensures w in s.seen
  {
    assert Forwards(net, p[i], s.seen[p[i]]);
    assert !OnItsWay(s, w);
  }

  lemma {:induction false} RouteIsSeen(net: Net, origin: Peer, s: Wave, p: seq<Peer>)
    requires WellFormed(net) && Trails(net, origin, s) && PassedOn(net, origin, s)
    requires s.inflight == multiset{} && ShortCuts(net, origin)
    requires Route(net, origin, p)
    ensures p[|p| - 1] in s.seen
  {
    if |p| > 1 {
      var front := p[..|p| - 1];
      var v, w := p[|p| - 2], p[|p| - 1];
      RoutePrefix(net, origin, p);
      RouteIsSeen(net, origin, s, front);
      assert Hop(net, p, |p| - 1);
      QuietForwarder(net, origin, s, v, w);
    }
  }

  /** With short cuts and no fanout limit, when no copy is left in flight every node
      that forwarders connect to the origin has seen the message, in whatever
      order the copies arrived. */
  lemma FloodCoverage(net: Net, origin: Peer, ds: seq<Delivery>, p: seq<Peer>)
    requires WellFormed(net) && FloodsAll(net) && ShortCuts(net, origin)
    requires PossibleRun(net, Start(origin), ds) && Run(Start(origin), ds).inflight == multiset{}
    requires Route(net, origin, p)
    ensures p[|p| - 1] in Run(Start(origin), ds).seen
  {
    StartHasTrails(net, origin);
    FirstReceiptTtl(net, origin, Start(origin), ds);
    RunKeepsPassedOn(net, origin, Start(origin), ds);
    RouteIsSeen(net, origin, Run(Start(origin), ds), p);
  }

  /** No way through forwarders visits more than eleven different nodes. */
  ghost predicate Shallow(net: Net, origin: Peer)
    requires WellFormed(net)
  {
    forall p :: Route(net, origin, p) && Distinct(p) ==> |p| <= 11
  }

  /** Eleven nodes have no ways of twelve, and where there are none, no short cut
      is needed. */
  lemma SmallNetIsCovered(net: Net, origin: Peer)
    requires WellFormed(net)
    ensures |net.nodes| <= 11 ==> Shallow(net, origin)
    ensures Shallow(net, origin) ==> ShortCuts(net, origin)
  {
    if |net.nodes| <= 11 {
      forall p | Route(net, origin, p) && Distinct(p)
        ensures |p| <= 11
      {
        DistinctFits(p, net.nodes);
      }
    }
  }

  /** An origin that knows every other node is covered, whatever the size of the
      net; a full mesh is the case in point. */
  lemma WellConnectedOriginIsCovered(net: Net, origin: Peer)
    requires WellFormed(net) && origin in net.nodes
    requires forall v :: v in net.nodes && v != origin ==> v in Targets(net, origin)
    ensures ShortCuts(net, origin)
  {
    forall p | Route(net, origin, p) && Distinct(p) && |p| == 12
      ensures exists i :: 0 <= i < 10 && p[11] in Targets(net, p[i])
    {
      assert p[0] != p[11] && p[11] in Targets(net, p[0]);
    }
  }

  // ---------- Cost and termination ----------

  ghost function Pick(s: set<Peer>): (v: Peer)
    requires s != {}
    ensures v in s
  {
    var v :| v in s; v
  }

  /** The sends that the nodes of a set can make together. */
  ghost function TotalDegree(net: Net, s: set<Peer>): nat
    requires WellFormed(net) && s <= net.nodes
  {
    if s == {} then 0
    else Degree(net, Pick(s)) + TotalDegree(net, s - {Pick(s)})
  }

  lemma {:induction false} TotalDegreeSplit(net: Net, s: set<Peer>, v: Peer)
    requires WellFormed(net) && s <= net.nodes && v in s
    ensures TotalDegree(net, s) == Degree(net, v) + TotalDegree(net, s - {v})
  {
    var w := Pick(s);
    if w != v {
      TotalDegreeSplit(net, s - {w}, v);
      TotalDegreeSplit(net, s - {v}, w);
      assert s - {w} - {v} == s - {v} - {w};
    }
  }

  lemma {:induction false} TotalDegreeMonotone(net: Net, a: set<Peer>, b: set<Peer>)
    requires WellFormed(net) && a <= b <= net.nodes
    ensures TotalDegree(net, a) <= TotalDegree(net, b)
    decreases |b - a|
  {
    if b - a == {} {
      assert a == b;
    } else {
      var v :| v in b - a;
      TotalDegreeSplit(net, b, v);
      assert |b - {v} - a| < |b - a| by {
        assert b - {v} - a == b - a - {v};
      }
      TotalDegreeMonotone(net, a, b - {v});
    }
  }

  /** Deliveries made and copies on their way never exceed the copies at the
      start and one forwarding of each node first reached since. */
  lemma {:induction false} RunIsPaidFor(net: Net, s: Wave, ds: seq<Delivery>)
    requires WellFormed(net) && s.seen.Keys <= net.nodes && PossibleRun(net, s, ds)
    ensures var t := Run(s, ds);
      && s.seen.Keys <= t.seen.Keys <= net.nodes
      && |ds| + |t.inflight| <= |s.inflight| + TotalDegree(net, t.seen.Keys - s.seen.Keys)
    decreases |ds|
  {
    if ds != [] {
      RunIsPaidFor(net, Deliver(s, ds[0]), ds[1..]);
      StepIsPaidFor(net, s, ds[0], Run(s, ds).seen.Keys);
    }
  }

  /** A delivery spends a copy, and a first receipt the forwarding of its node. */
  lemma StepIsPaidFor(net: Net, s: Wave, d: Delivery, later: set<Peer>)
    requires WellFormed(net) && Possible(net, s, d) && Deliver(s, d).seen.Keys <= later <= net.nodes
    ensures |Deliver(s, d).inflight| + 1 + TotalDegree(net, later - Deliver(s, d).seen.Keys) <=
            |s.inflight| + TotalDegree(net, later - s.seen.Keys)
  {
    DeliveryIsPaidFor(net, s, d);
    if d.copy.to !in s.seen {
      assert Deliver(s, d).seen.Keys == s.seen.Keys + {d.copy.to};
      OneMoreSeen(net, s.seen.Keys, d.copy.to, later);
    }
  }

  lemma OneMoreSeen(net: Net, seen: set<Peer>, v: Peer, later: set<Peer>)
    requires WellFormed(net) && later <= net.nodes && v !in seen && seen + {v} <= later
    ensures TotalDegree(net, later - seen) == Degree(net, v) + TotalDegree(net, later - (seen + {v}))
  {
    TotalDegreeSplit(net, later - seen, v);
    assert later - seen - {v} == later - (seen + {v});
  }

  lemma DeliveryIsPaidFor(net: Net, s: Wave, d: Delivery)
    requires WellFormed(net) && Possible(net, s, d)
    ensures |Deliver(s, d).inflight| + 1 <=
            |s.inflight| + (if d.copy.to in s.seen then 0 else Degree(net, d.copy.to))
  {
    SentMembers(d.picked, d.copy.ttl - 1);
    assert |s.inflight - multiset{d.copy}| == |s.inflight| - 1;
  }

  /** Every flood ends: a run has no more deliveries, and so no more sends, than
      one forwarding of every node allows, plus the origin's own copy. */
  lemma FloodCost(net: Net, origin: Peer, ds: seq<Delivery>)
    requires WellFormed(net) && PossibleRun(net, Start(origin), ds)
    ensures var t := Run(Start(origin), ds);
      t.seen.Keys <= net.nodes &&
      |ds| + |t.inflight| <= 1 + TotalDegree(net, t.seen.Keys) <= 1 + TotalDegree(net, net.nodes)
  {
    RunIsPaidFor(net, Start(origin), ds);
    var t := Run(Start(origin), ds);
    assert t.seen.Keys - Start(origin).seen.Keys == t.seen.Keys;
    TotalDegreeMonotone(net, t.seen.Keys, net.nodes);
  }
}
