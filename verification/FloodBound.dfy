/** Why flood coverage stops at 11 nodes: the TTL limits every flood to ten hops,
    and with one more node a long way round can use it up before the short way
    is tried. */
module FloodBound {
  import opened FiniteSets
  import opened Flood

  // ---------- No node is reached over more than ten hops ----------

  /** `h` grows by at most one along each forwarding edge. */
  ghost predicate HopCount(net: Net, h: Peer -> int)
    requires WellFormed(net)
  {
    forall v, w :: v in net.nodes && w in Targets(net, v) ==> h(w) <= h(v) + 1
  }

  ghost predicate WithinHops(s: Wave, h: Peer -> int) {
    && (forall v :: v in s.seen ==> h(v) <= INITIAL_TTL)
    && (forall c :: c in s.inflight ==> c.ttl >= 0 && h(c.to) <= INITIAL_TTL - c.ttl)
  }

  lemma DeliverStaysWithinHops(net: Net, h: Peer -> int, s: Wave, d: Delivery)
    requires WellFormed(net) && HopCount(net, h) && WithinHops(s, h) && Possible(net, s, d)
    ensures WithinHops(Deliver(s, d), h)
  {}

  /** In every run on every net, a node that has seen the message is at most ten
      hops from the origin, by any hop count. */
  lemma {:induction false} HopLimit(net: Net, h: Peer -> int, s: Wave, ds: seq<Delivery>)
    requires WellFormed(net) && HopCount(net, h) && WithinHops(s, h) && PossibleRun(net, s, ds)
    ensures forall v :: v in Run(s, ds).seen ==> h(v) <= INITIAL_TTL
    decreases |ds|
  {
    if ds != [] {
      DeliverStaysWithinHops(net, h, s, ds[0]);
      HopLimit(net, h, Deliver(s, ds[0]), ds[1..]);
    }
  }

  // ---------- Every flood can be run to its end ----------

  /** Copies are only addressed to nodes of the net. */
  ghost predicate Inside(net: Net, s: Wave) {
    s.seen.Keys <= net.nodes && forall c :: c in s.inflight ==> c.to in net.nodes
  }

  lemma DeliverStaysInside(net: Net, s: Wave, d: Delivery)
    requires WellFormed(net) && Inside(net, s) && Possible(net, s, d)
    ensures Inside(net, Deliver(s, d))
  {}

  /** What a run from `s` still can cost. */
  ghost function Left(net: Net, s: Wave): nat
    requires WellFormed(net)
  {
    |s.inflight| + TotalDegree(net, net.nodes - s.seen.Keys)
  }

  lemma SeenAfter(s: Wave, d: Delivery)
    ensures Deliver(s, d).seen.Keys == s.seen.Keys + {d.copy.to}
  {}

  lemma DeliverCosts(net: Net, s: Wave, d: Delivery)
    requires WellFormed(net) && Inside(net, s) && Possible(net, s, d)
    ensures Left(net, Deliver(s, d)) < Left(net, s)
  {
    DeliveryIsPaidFor(net, s, d);
    SeenAfter(s, d);
    var v := d.copy.to;
    if v in s.seen {
      assert s.seen.Keys + {v} == s.seen.Keys;
    } else {
      OneMoreSeen(net, s.seen.Keys, v, net.nodes);
    }
  }

  /** Any copy in flight can be delivered. */
  lemma SomeDelivery(net: Net, s: Wave) returns (d: Delivery)
    requires WellFormed(net) && Inside(net, s) && s.inflight != multiset{}
    ensures Possible(net, s, d)
  {
    var c :| c in s.inflight;
    if c.to !in s.seen && Forwards(net, c.to, c.ttl) {
      var picked := SubsetOfSize(Targets(net, c.to), Degree(net, c.to));
      d := Delivery(c, picked);
    } else {
      d := Delivery(c, {});
    }
  }

  lemma RunFrom(net: Net, s: Wave, d: Delivery, rest: seq<Delivery>)
    requires WellFormed(net) && Possible(net, s, d) && PossibleRun(net, Deliver(s, d), rest)
    ensures PossibleRun(net, s, [d] + rest) && Run(s, [d] + rest) == Run(Deliver(s, d), rest)
  {}

  lemma {:induction false} SomeRunFinishes(net: Net, s: Wave) returns (ds: seq<Delivery>)
    requires WellFormed(net) && Inside(net, s)
    ensures PossibleRun(net, s, ds) && Run(s, ds).inflight == multiset{}
    decreases Left(net, s)
  {
    if s.inflight == multiset{} {
      ds := [];
    } else {
      var d := SomeDelivery(net, s);
      DeliverStaysInside(net, s, d);
      DeliverCosts(net, s, d);
      var rest := SomeRunFinishes(net, Deliver(s, d));
      RunFrom(net, s, d, rest);
      ds := [d] + rest;
    }
  }

  // ---------- A line of nodes ----------

  function FirstNodes(n: nat): (nodes: set<Peer>)
    ensures forall v :: v in nodes <==> 0 <= v.id < n
  {
    var nodes := set i | 0 <= i < n :: Peer(i);
    assert forall v: Peer :: v == Peer(v.id);
    nodes
  }

  lemma {:induction false} CountFirstNodes(n: nat)
    ensures |FirstNodes(n)| == n
  {
    if n > 0 {
      CountFirstNodes(n - 1);
      assert FirstNodes(n) == FirstNodes(n - 1) + {Peer(n - 1)};
    }
  }

  function LinePeers(n: nat, v: Peer): (peers: set<Peer>)
    ensures forall w :: w in peers <==> w in FirstNodes(n) && (w.id == v.id + 1 || w.id == v.id - 1)
  {
    set w | w in FirstNodes(n) && (w.id == v.id + 1 || w.id == v.id - 1)
  }

  /** `n` honest nodes, each linked to the next. */
  function Line(n: nat): Net {
    var nodes := FirstNodes(n);
    Net(nodes, map v | v in nodes :: LinePeers(n, v), nodes, {}, map v | v in nodes :: 0)
  }

  /** The first `n` nodes of a line, in order. */
  function Stretch(n: nat): (p: seq<Peer>)
    ensures |p| == n && forall i :: 0 <= i < n ==> p[i] == Peer(i)
  {
    seq(n, i => Peer(i))
  }

  /** What the proofs use of the line. */
  ghost predicate IsLine(net: Net, n: nat) {
    && WellFormed(net) && net.nodes == FirstNodes(n)
    && net.accepts == net.nodes && net.attackers == {}
    && forall v, w :: v in net.nodes ==>
         (w in Targets(net, v) <==> w in net.nodes && (w.id == v.id + 1 || w.id == v.id - 1))
  }

  lemma LineIsLine(n: nat)
    ensures IsLine(Line(n), n) && FloodsAll(Line(n))
  {}

  lemma LineIsRoute(net: Net, n: nat, k: nat)
    requires IsLine(net, n) && 0 < k <= n
    ensures Route(net, Peer(0), Stretch(k))
  {}

  /** On a line of 12 or more nodes, no run ever reaches the twelfth. */
  lemma LineStopsAtEleven(net: Net, n: nat, ds: seq<Delivery>)
    requires IsLine(net, n) && PossibleRun(net, Start(Peer(0)), ds)
    ensures Peer(11) !in Run(Start(Peer(0)), ds).seen
  {
    var h := (v: Peer) => v.id;
    assert HopCount(net, h);
    HopLimit(net, h, Start(Peer(0)), ds);
    assert h(Peer(11)) == 11;
  }

  // ---------- Eleven is exactly the bound ----------

  /** Every finished flood on every net of `n` nodes reaches every node that
      forwarders connect to the origin. */
  ghost predicate Covers(n: nat) {
    forall net, origin, ds, p ::
      WellFormed(net) && FloodsAll(net) && |net.nodes| == n && PossibleRun(net, Start(origin), ds)
      && Run(Start(origin), ds).inflight == multiset{} && Route(net, origin, p)
      ==> p[|p| - 1] in Run(Start(origin), ds).seen
  }

  lemma UpToElevenCovers(n: nat)
    requires n <= 11
    ensures Covers(n)
  {
    forall net, origin, ds, p |
      WellFormed(net) && FloodsAll(net) && |net.nodes| == n && PossibleRun(net, Start(origin), ds)
      && Run(Start(origin), ds).inflight == multiset{} && Route(net, origin, p)
      ensures p[|p| - 1] in Run(Start(origin), ds).seen
    {
      SmallNetIsCovered(net, origin);
      FloodCoverage(net, origin, ds, p);
    }
  }

  lemma MissedNodeRefutes(net: Net, origin: Peer, ds: seq<Delivery>, p: seq<Peer>)
    requires WellFormed(net) && FloodsAll(net) && PossibleRun(net, Start(origin), ds)
    requires Run(Start(origin), ds).inflight == multiset{} && Route(net, origin, p)
    requires p[|p| - 1] !in Run(Start(origin), ds).seen
    ensures !Covers(|net.nodes|)
  {}

  lemma LongLineRefutes(n: nat)
    requires n >= 12
    ensures !Covers(n)
  {
    var net := Line(n);
    LineIsLine(n);
    LineIsRoute(net, n, 12);
    CountFirstNodes(n);
    StartIsInside(net, Peer(0));
    var ds := SomeRunFinishes(net, Start(Peer(0)));
    LineStopsAtEleven(net, n, ds);
    MissedNodeRefutes(net, Peer(0), ds, Stretch(12));
  }

  lemma StartIsInside(net: Net, origin: Peer)
    requires origin in net.nodes
    ensures Inside(net, Start(origin))
  {}

  /** The flood covers every net of `n` nodes exactly when `n` is at most 11. */
  lemma CoverageExactlyUpToEleven(n: nat)
    ensures Covers(n) <==> n <= 11
  {
    if n <= 11 {
      UpToElevenCovers(n);
    } else {
      LongLineRefutes(n);
    }
  }

  // ---------- A node two hops away can be missed ----------

  /** Twelve nodes: a ring of eleven, 0 to 10, and node 11 behind node 10. */
  function Detour(): Net {
    var nodes := FirstNodes(12);
    Net(nodes, map v | v in nodes :: DetourPeers(v.id), nodes, {}, map v | v in nodes :: 0)
  }

  predicate DetourLink(i: int, j: int) {
    || (0 <= i < 10 && j == i + 1) || (0 <= j < 10 && i == j + 1)
    || (i == 0 && j == 10) || (i == 10 && j == 0)
    || (i == 10 && j == 11) || (i == 11 && j == 10)
  }

  function DetourPeers(k: int): (peers: set<Peer>)
    ensures forall w :: w in peers <==> w in FirstNodes(12) && DetourLink(k, w.id)
  {
    set w | w in FirstNodes(12) && DetourLink(k, w.id)
  }

  /** What the proofs use of the detour net. */
  ghost predicate IsDetour(net: Net) {
    && WellFormed(net) && net.nodes == FirstNodes(12)
    && net.accepts == net.nodes && net.attackers == {}
    && (forall v :: v in net.nodes ==> Targets(net, v) == DetourPeers(v.id))
    && (forall v :: v in net.nodes ==> Degree(net, v) == |DetourPeers(v.id)|)
  }

  lemma DetourIsDetour()
    ensures IsDetour(Detour()) && FloodsAll(Detour()) && |Detour().nodes| == 12
  {
    CountFirstNodes(12);
    forall v | v in Detour().nodes
      ensures Detour().peers[v] <= Detour().nodes && Detour().peers[v] - {v} == Detour().peers[v]
    {}
  }

  lemma ShortRoute(net: Net)
    requires IsDetour(net)
    ensures Route(net, Peer(0), [Peer(0), Peer(10), Peer(11)])
  {
    assert Peer(0) in net.nodes && Peer(10) in net.nodes && Peer(11) in net.nodes;
    assert Peer(10) in Targets(net, Peer(0)) && Peer(11) in Targets(net, Peer(10));
    TwoHops(net, Peer(0), Peer(10), Peer(11));
  }

  lemma TwoHops(net: Net, a: Peer, b: Peer, c: Peer)
    requires WellFormed(net) && net.accepts == net.nodes && net.attackers == {}
    requires a in net.nodes && b in net.nodes && c in net.nodes && b in Targets(net, a) && c in Targets(net, b)
    ensures Route(net, a, [a, b, c])
  {}

  ghost predicate NoneFor(s: Wave, v: Peer) {
    v !in s.seen && forall c :: c in s.inflight ==> c.to != v
  }

  /** The message has gone round the ring up to the node before `k`, and is
      about to reach node `k` with what is left of its TTL. */
  ghost predicate RingReaches(s: Wave, k: nat) {
    && s.seen.Keys == FirstNodes(k)
    && Copy(Peer(k), INITIAL_TTL - k) in s.inflight
    && NoneFor(s, Peer(11))
  }

  /** A delivery that sends no copy to `v` leaves none for it. */
  lemma StillNoneFor(s: Wave, d: Delivery, v: Peer)
    requires NoneFor(s, v) && d.copy.to != v && v !in d.picked
    ensures NoneFor(Deliver(s, d), v)
  {}

  /** The delivery that takes the message from node `k` to the next. */
  function Onward(k: nat): Delivery {
    Delivery(Copy(Peer(k), INITIAL_TTL - k), DetourPeers(k))
  }

  lemma OnwardIsPossible(net: Net, s: Wave, k: nat)
    requires IsDetour(net) && k <= 9
    requires Onward(k).copy in s.inflight && Peer(k) !in s.seen
    ensures Possible(net, s, Onward(k))
  {
    assert Peer(k) in net.nodes;
    assert Forwards(net, Peer(k), INITIAL_TTL - k);
  }

  lemma OnwardMoves(s: Wave, k: nat)
    requires k <= 9 && RingReaches(s, k)
    ensures RingReaches(Deliver(s, Onward(k)), k + 1)
  {
    SeenAfter(s, Onward(k));
    assert FirstNodes(k + 1) == FirstNodes(k) + {Peer(k)};
    assert Peer(k + 1) in DetourPeers(k) && Peer(11) !in DetourPeers(k);
    SendsTo(s, Onward(k), Peer(k + 1));
    StillNoneFor(s, Onward(k), Peer(11));
  }

  /** Once node 10 has heard the message without passing it on, nobody else can
      tell node 11. */
  lemma {:induction false} NeighbourStaysUntold(net: Net, s: Wave, ds: seq<Delivery>)
    requires IsDetour(net) && PossibleRun(net, s, ds)
    requires Peer(10) in s.seen && NoneFor(s, Peer(11))
    ensures NoneFor(Run(s, ds), Peer(11))
    decreases |ds|
  {
    if ds != [] {
      OnlyTenTellsEleven(net, s, ds[0]);
      StillNoneFor(s, ds[0], Peer(11));
      NeighbourStaysUntold(net, Deliver(s, ds[0]), ds[1..]);
    }
  }

  lemma OnlyTenTellsEleven(net: Net, s: Wave, d: Delivery)
    requires IsDetour(net) && Possible(net, s, d)
    requires Peer(10) in s.seen && NoneFor(s, Peer(11))
    ensures d.copy.to != Peer(11) && Peer(11) !in d.picked
  {
    var v := d.copy.to;
    assert v != Peer(11);
    if d.picked != {} {
      assert v in net.nodes && v != Peer(10);
    }
  }

  /** Node 10 hears the message over ten hops and does not pass it on. */
  lemma LastHopIsSilent(net: Net, s: Wave) returns (d: Delivery)
    requires IsDetour(net) && Peer(10) !in s.seen && Copy(Peer(10), 0) in s.inflight && NoneFor(s, Peer(11))
    ensures Possible(net, s, d) && Peer(10) in Deliver(s, d).seen && NoneFor(Deliver(s, d), Peer(11))
  {
    d := Delivery(Copy(Peer(10), 0), {});
    assert Peer(10) in FirstNodes(12);
    StillNoneFor(s, d, Peer(11));
  }

  /** On the twelve nodes of the detour a delivery order exists after which
      nothing is in flight and node 11, two hops from the origin, has never seen
      the message: its only neighbour first heard it the long way round, with no
      TTL left, and ignored the copy that came the short way. */
  lemma LongWayRoundHidesShortWay() returns (ds: seq<Delivery>)
    ensures WellFormed(Detour()) && FloodsAll(Detour()) && |Detour().nodes| == 12
    ensures Route(Detour(), Peer(0), [Peer(0), Peer(10), Peer(11)])
    ensures PossibleRun(Detour(), Start(Peer(0)), ds) && Run(Start(Peer(0)), ds).inflight == multiset{}
    ensures Peer(11) !in Run(Start(Peer(0)), ds).seen
  {
    DetourIsDetour();
    ShortRoute(Detour());
    ds := UntoldNeighbour(Detour());
  }

  /** From the moment the message is about to reach node `k` along the ring. */
  lemma {:induction false} RoundTheRing(net: Net, s: Wave, k: nat) returns (ds: seq<Delivery>)
    requires IsDetour(net) && Inside(net, s) && RingReaches(s, k) && k <= 10
    ensures PossibleRun(net, s, ds) && Run(s, ds).inflight == multiset{} && NoneFor(Run(s, ds), Peer(11))
    decreases 10 - k
  {
    if k < 10 {
      var d := OnwardStep(net, s, k);
      var rest := RoundTheRing(net, Deliver(s, d), k + 1);
      RunFrom(net, s, d, rest);
      ds := [d] + rest;
    } else {
      ds := EndOfRing(net, s);
    }
  }

  lemma OnwardStep(net: Net, s: Wave, k: nat) returns (d: Delivery)
    requires IsDetour(net) && Inside(net, s) && RingReaches(s, k) && k < 10
    ensures Possible(net, s, d) && Inside(net, Deliver(s, d)) && RingReaches(Deliver(s, d), k + 1)
  {
    d := Onward(k);
    OnwardIsPossible(net, s, k);
    OnwardMoves(s, k);
    DeliverStaysInside(net, s, d);
  }

  lemma EndOfRing(net: Net, s: Wave) returns (ds: seq<Delivery>)
    requires IsDetour(net) && Inside(net, s) && RingReaches(s, 10)
    ensures PossibleRun(net, s, ds) && Run(s, ds).inflight == multiset{} && NoneFor(Run(s, ds), Peer(11))
  {
    var d := LastHopIsSilent(net, s);
    DeliverStaysInside(net, s, d);
    var rest := SomeRunFinishes(net, Deliver(s, d));
    NeighbourStaysUntold(net, Deliver(s, d), rest);
    RunFrom(net, s, d, rest);
    ds := [d] + rest;
  }

  lemma RingStart()
    ensures RingReaches(Start(Peer(0)), 0)
  {}

  lemma UntoldNeighbour(net: Net) returns (ds: seq<Delivery>)
    requires IsDetour(net)
    ensures PossibleRun(net, Start(Peer(0)), ds) && Run(Start(Peer(0)), ds).inflight == multiset{}
    ensures Peer(11) !in Run(Start(Peer(0)), ds).seen
  {
    StartIsInside(net, Peer(0));
    RingStart();
    ds := RoundTheRing(net, Start(Peer(0)), 0);
  }
}
