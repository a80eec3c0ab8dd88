/** From a flood to equal logs: when a batch of chats and the acks of all members
    have been flooded to the end, ticks alone make every node commit the whole
    batch, and the nodes' logs are equal. */
module EndToEnd {
  import opened FiniteSets
  import opened Blocks
  import opened PeerHistory
  import opened AckProtocol
  import opened AckRuns
  import opened AckTheorems
  import opened CommitOrder
  import opened TickFixpoint
  import opened Confluence
  import Acceptance
  import Flood
  import GossipHandler
  import Quorum

  // ---------- Floods that reach everybody ----------

  /** The flood of one message: where it starts and the deliveries made. */
  datatype Flooding = Flooding(origin: Flood.Peer, deliveries: seq<Flood.Delivery>)

  ghost function Wave(f: Flooding): Flood.Wave {
    Flood.Run(Flood.Start(f.origin), f.deliveries)
  }

  ghost predicate Finished(net: Flood.Net, f: Flooding)
    requires Flood.WellFormed(net)
  {
    && f.origin in net.nodes
    && Flood.PossibleRun(net, Flood.Start(f.origin), f.deliveries)
    && Wave(f).inflight == multiset{}
  }

  /** Forwarders connect any two nodes. */
  ghost predicate Connected(net: Flood.Net)
    requires Flood.WellFormed(net)
  {
    forall u, v :: u in net.nodes && v in net.nodes ==> Reaches(net, u, v)
  }

  ghost predicate Reaches(net: Flood.Net, u: Flood.Peer, v: Flood.Peer)
    requires Flood.WellFormed(net)
  {
    exists p :: Flood.Route(net, u, p) && p[|p| - 1] == v
  }

  /** A net whose finished floods reach every node: no fanout limit, forwarders
      between any two nodes, and at most 11 nodes or short cuts. */
  ghost predicate Covered(net: Flood.Net) {
    && Flood.WellFormed(net) && Flood.FloodsAll(net) && Connected(net)
    && (|net.nodes| <= 11 || forall origin :: origin in net.nodes ==> Flood.ShortCuts(net, origin))
  }

  lemma FinishedFloodReachesAll(net: Flood.Net, f: Flooding, v: Flood.Peer)
    requires Covered(net) && Finished(net, f) && v in net.nodes
    ensures v in Wave(f).seen
  {
    Flood.SmallNetIsCovered(net, f.origin);
    assert Reaches(net, f.origin, v);
    var p :| Flood.Route(net, f.origin, p) && p[|p| - 1] == v;
    Flood.FloodCoverage(net, f.origin, f.deliveries, p);
  }

  // ---------- A batch and its acks ----------

  /** A room's net, its members' keys and log, a batch of chats, an ack of every
      node for every chat, and the floods of all of these. */
  datatype Scene = Scene(
    net: Flood.Net,
    keys: map<Flood.Peer, string>,
    log: seq<string>,
    batch: set<Message>,
    chatFloods: map<Message, Flooding>,
    acks: map<(Flood.Peer, Message), Message>,
    ackFloods: map<(Flood.Peer, Message), Flooding>)

  ghost predicate IsAckOf(x: Scene, u: Flood.Peer, c: Message)
    requires Flood.WellFormed(x.net)
  {
    && u in x.keys && (u, c) in x.acks && (u, c) in x.ackFloods && Finished(x.net, x.ackFloods[(u, c)])
    && x.acks[(u, c)].publicKey == x.keys[u] && AckTarget(x.acks[(u, c)].data) == c.id
  }

  /** The nodes are the room's members, and all floods have finished. */
  ghost predicate Settled(x: Scene) {
    && Covered(x.net) && Healthy(x.log)
    && x.keys.Keys == x.net.nodes && Members(x.log) == x.keys.Values
    && (forall c :: c in x.batch ==> c.id != "" && c in x.chatFloods && Finished(x.net, x.chatFloods[c]))
    && (forall c, d :: c in x.batch && d in x.batch && c.id == d.id ==> c == d)
    && forall u, c :: u in x.net.nodes && c in x.batch ==> IsAckOf(x, u, c)
  }

  /** The ack that `GossipMessage` makes at `u` for a chat as `u` heard it serves. */
  lemma OwnAckServes(x: Scene, u: Flood.Peer, c: Message, ttl: int, st: GossipHandler.Settings, id: string, time: int)
    requires Flood.WellFormed(x.net)
    requires u in x.keys && x.keys[u] == st.ownKey && ' ' !in c.id
    requires (u, c) in x.acks && x.acks[(u, c)] == GossipHandler.OwnAck(st, c.(ttl := ttl), id, time)
    requires (u, c) in x.ackFloods && Finished(x.net, x.ackFloods[(u, c)])
    ensures IsAckOf(x, u, c)
  {
    Acceptance.OwnAckNamesChat(st, c.(ttl := ttl), id, time);
  }

  function BatchIds(batch: set<Message>): set<string> {
    set c | c in batch :: c.id
  }

  /** A message with the TTL with which the flood first brought it to `v`. */
  ghost function AsHeard(m: Message, f: Flooding, v: Flood.Peer): Message
    requires v in Wave(f).seen
  {
    m.(ttl := Wave(f).seen[v])
  }

  ghost predicate RanChat(x: Scene, v: Flood.Peer, c: Message, labels: seq<Label>)
    requires c in x.chatFloods
  {
    v in Wave(x.chatFloods[c]).seen ==> RunChat(AsHeard(c, x.chatFloods[c], v)) in labels
  }

  ghost predicate RanAck(x: Scene, v: Flood.Peer, u: Flood.Peer, c: Message, labels: seq<Label>)
    requires (u, c) in x.acks && (u, c) in x.ackFloods
  {
    v in Wave(x.ackFloods[(u, c)]).seen ==> RunAck(AsHeard(x.acks[(u, c)], x.ackFloods[(u, c)], v)) in labels
  }

  /** The chat is one of the batch, as some node heard it. */
  ghost predicate FromBatch(batch: set<Message>, m: Message) {
    exists c :: c in batch && Core(c) == Core(m)
  }

  /** Only chats of the batch enter the queue; acks carry the room; no timer fires
      and nobody else writes. */
  ghost predicate Undisturbed(x: Scene, cfg: Config, labels: seq<Label>) {
    && AcksCarryRoom(cfg, labels) && NoWrites(labels)
    && forall l :: l in labels ==> !l.Timeout? && (l.RunChat? ==> FromBatch(x.batch, l.m))
  }

  /** Node `v` has handled what the floods brought it, undisturbed. */
  ghost predicate Handled(x: Scene, v: Flood.Peer, cfg: Config, labels: seq<Label>)
    requires Settled(x)
  {
    && v in x.net.nodes && cfg.threshold <= |Members(x.log)|
    && Possible(cfg, Start(x.log), labels) && Undisturbed(x, cfg, labels)
    && (forall c :: c in x.batch ==> RanChat(x, v, c, labels))
    && forall u, c :: u in x.net.nodes && c in x.batch ==> IsAckOf(x, u, c) && RanAck(x, v, u, c, labels)
  }

  // ---------- Everybody acks, so everything has its quorum ----------

  lemma EveryMemberAcked(x: Scene, v: Flood.Peer, cfg: Config, labels: seq<Label>, c: Message)
    requires Settled(x) && Handled(x, v, cfg, labels) && c in x.batch
    ensures Members(x.log) <= AckersIn(labels, c.id)
  {
    forall key | key in Members(x.log)
      ensures key in AckersIn(labels, c.id)
    {
      var u :| u in x.keys && x.keys[u] == key;
      assert IsAckOf(x, u, c) && RanAck(x, v, u, c, labels);
      FinishedFloodReachesAll(x.net, x.ackFloods[(u, c)], v);
      var l := RunAck(AsHeard(x.acks[(u, c)], x.ackFloods[(u, c)], v));
      assert l in labels && AckTarget(l.m.data) == c.id && l.m.publicKey == key;
    }
  }

  lemma ChatIsEnqueued(x: Scene, v: Flood.Peer, cfg: Config, labels: seq<Label>, c: Message)
    requires Settled(x) && Handled(x, v, cfg, labels) && c in x.batch
    ensures c.id in EnqueuedIn(labels)
  {
    FinishedFloodReachesAll(x.net, x.chatFloods[c], v);
    assert RanChat(x, v, c, labels);
    var l := RunChat(AsHeard(c, x.chatFloods[c], v));
    assert l in labels && l.m.id == c.id;
  }

  lemma EnqueuedIsFromBatch(batch: set<Message>, labels: seq<Label>)
    requires forall l :: l in labels && l.RunChat? ==> FromBatch(batch, l.m)
    ensures EnqueuedIn(labels) <= BatchIds(batch)
  {
    forall id | id in EnqueuedIn(labels)
      ensures id in BatchIds(batch)
    {
      var l :| l in labels && l.RunChat? && l.m.id == id;
      var c :| c in batch && Core(c) == Core(l.m);
      assert c.id == Core(c).id == l.m.id;
    }
  }

  lemma BatchIsEnqueued(x: Scene, v: Flood.Peer, cfg: Config, labels: seq<Label>)
    requires Settled(x) && Handled(x, v, cfg, labels)
    ensures EnqueuedIn(labels) == BatchIds(x.batch)
  {
    EnqueuedIsFromBatch(x.batch, labels);
    forall c | c in x.batch
      ensures c.id in EnqueuedIn(labels)
    {
      ChatIsEnqueued(x, v, cfg, labels, c);
    }
  }

  lemma WaitingHaveQuorum(x: Scene, v: Flood.Peer, cfg: Config, labels: seq<Label>)
    requires Settled(x) && Handled(x, v, cfg, labels)
    ensures forall m :: m in Run(cfg, Start(x.log), labels).node.queue ==> HasQuorum(cfg, m)
  {
    ExactAckAccounting(cfg, x.log, labels);
    Conservation(cfg, x.log, labels);
    BatchIsEnqueued(x, v, cfg, labels);
    forall m | m in Run(cfg, Start(x.log), labels).node.queue
      ensures HasQuorum(cfg, m)
    {
      assert m.id in Ids(Run(cfg, Start(x.log), labels).node.queue);
      var c :| c in x.batch && c.id == m.id;
      EveryMemberAcked(x, v, cfg, labels, c);
      SubsetSize(Members(x.log), AckersIn(labels, c.id));
    }
  }

  // ---------- Ticks commit the batch ----------

  function Flat(rounds: seq<seq<Label>>): seq<Label> {
    if rounds == [] then [] else rounds[0] + Flat(rounds[1..])
  }

  lemma {:induction false} RoundsAreTicks(cfg: Config, s: Sys, rounds: seq<seq<Label>>)
    requires AreRounds(cfg, s, rounds)
    ensures OnlyTicks(Flat(rounds)) && Possible(cfg, s, Flat(rounds))
    ensures RunRounds(cfg, s, rounds) == Run(cfg, s, Flat(rounds))
    decreases |rounds|
  {
    if rounds != [] {
      var t := Run(cfg, s, rounds[0]);
      RoundsAreTicks(cfg, t, rounds[1..]);
      TicksArePossible(cfg, s, rounds[0]);
      RunAppend(cfg, s, rounds[0], Flat(rounds[1..]));
    }
  }

  lemma {:induction false} TicksArePossible(cfg: Config, s: Sys, labels: seq<Label>)
    requires OnlyTicks(labels)
    ensures Possible(cfg, s, labels)
    decreases |labels|
  {
    if labels != [] {
      assert labels[0] in labels && forall x :: x in labels[1..] ==> x in labels;
      TicksArePossible(cfg, Apply(cfg, s, labels[0]), labels[1..]);
    }
  }

  /** When every waiting chat has its quorum, fair rounds empty the queue. */
  lemma RoundsEmptyQueue(cfg: Config, s: Sys, rounds: seq<seq<Label>>)
    requires UniqueIds(s.node.queue) && forall m :: m in s.node.queue ==> HasQuorum(cfg, m)
    requires AreRounds(cfg, s, rounds) && |rounds| >= |s.node.queue|
    ensures RunRounds(cfg, s, rounds).node.queue == []
  {
    var t := RunRounds(cfg, s, rounds);
    FairTicksFinish(cfg, s, rounds);
    RoundsAreTicks(cfg, s, rounds);
    TickFixpoint.TickFixpoint(cfg, s, Flat(rounds));
    if t.node.queue != [] {
      var m := t.node.queue[0];
      assert m in t.node.queue;
      assert Ready(cfg, s.node.queue, m);
    }
  }

  lemma {:induction false} NoTimerDropsNone(cfg: Config, s: Sys, labels: seq<Label>)
    requires forall l :: l in labels ==> !l.Timeout?
    ensures Run(cfg, s, labels).dropped == s.dropped
    decreases |labels|
  {
    if labels != [] {
      assert labels[0] in labels && forall x :: x in labels[1..] ==> x in labels;
      NoTimerDropsNone(cfg, Apply(cfg, s, labels[0]), labels[1..]);
    }
  }

  lemma TicksAddNoChats(labels: seq<Label>, ticks: seq<Label>)
    requires OnlyTicks(ticks)
    ensures EnqueuedIn(labels + ticks) == EnqueuedIn(labels)
    ensures forall l :: l in labels + ticks ==> l in labels || l.Tick?
  {
    assert forall l :: l in labels + ticks <==> l in labels || l in ticks;
  }

  /** Without timers, a run that ends with an empty queue has committed all that
      was enqueued. */
  lemma AllCommitted(cfg: Config, log: seq<string>, labels: seq<Label>)
    requires Healthy(log) && Possible(cfg, Start(log), labels) && forall l :: l in labels ==> !l.Timeout?
    requires Run(cfg, Start(log), labels).node.queue == []
    ensures CommitIds(Run(cfg, Start(log), labels).commits) == EnqueuedIn(labels)
  {
    Conservation(cfg, log, labels);
    NoTimerDropsNone(cfg, Start(log), labels);
  }

  /** Once the floods of the batch and of all acks have finished and been handled,
      as many fair rounds of ticks as chats are waiting leave a node with an empty
      queue and the whole batch committed. */
  lemma BatchCommits(x: Scene, v: Flood.Peer, cfg: Config, labels: seq<Label>, rounds: seq<seq<Label>>)
    requires Settled(x) && Handled(x, v, cfg, labels)
    requires var t := Run(cfg, Start(x.log), labels);
      AreRounds(cfg, t, rounds) && |rounds| >= |t.node.queue|
    ensures var u := RunRounds(cfg, Run(cfg, Start(x.log), labels), rounds);
      u.node.queue == [] && CommitIds(u.commits) == BatchIds(x.batch)
  {
    Conservation(cfg, x.log, labels);
    WaitingHaveQuorum(x, v, cfg, labels);
    RoundsEmptyQueue(cfg, Run(cfg, Start(x.log), labels), rounds);
    BatchIsEnqueued(x, v, cfg, labels);
    RoundsCommitEnqueued(cfg, x.log, labels, rounds);
  }

  lemma RoundsCommitEnqueued(cfg: Config, log: seq<string>, labels: seq<Label>, rounds: seq<seq<Label>>)
    requires Healthy(log) && Possible(cfg, Start(log), labels) && forall l :: l in labels ==> !l.Timeout?
    requires AreRounds(cfg, Run(cfg, Start(log), labels), rounds)
    requires RunRounds(cfg, Run(cfg, Start(log), labels), rounds).node.queue == []
    ensures CommitIds(RunRounds(cfg, Run(cfg, Start(log), labels), rounds).commits) == EnqueuedIn(labels)
  {
    var ticks := Flat(rounds);
    RoundsAreTicks(cfg, Run(cfg, Start(log), labels), rounds);
    RunAppend(cfg, Start(log), labels, ticks);
    TicksAddNoChats(labels, ticks);
    AllCommitted(cfg, log, labels + ticks);
  }

  // ---------- Equal logs ----------

  lemma {:induction false} QueueIsFromBatch(batch: set<Message>, cfg: Config, s: Sys, labels: seq<Label>)
    requires Inv(cfg, s) && Possible(cfg, s, labels)
    requires forall m :: m in s.node.queue ==> FromBatch(batch, m)
    requires forall l :: l in labels && l.RunChat? ==> FromBatch(batch, l.m)
    ensures forall m :: m in Run(cfg, s, labels).node.queue ==> FromBatch(batch, m)
    decreases |labels|
  {
    if labels != [] {
      assert labels[0] in labels && forall x :: x in labels[1..] ==> x in labels;
      StepIsFromBatch(batch, cfg, s, labels[0]);
      StepKeepsInv(cfg, s, labels[0]);
      QueueIsFromBatch(batch, cfg, Apply(cfg, s, labels[0]), labels[1..]);
    }
  }

  lemma StepIsFromBatch(batch: set<Message>, cfg: Config, s: Sys, l: Label)
    requires Inv(cfg, s) && Enabled(s, l)
    requires forall m :: m in s.node.queue ==> FromBatch(batch, m)
    requires l.RunChat? ==> FromBatch(batch, l.m)
    ensures forall m :: m in Apply(cfg, s, l).node.queue ==> FromBatch(batch, m)
  {
    var r := Apply(cfg, s, l).node.queue;
    CoresWereWaiting(cfg, s, l);
    forall m | m in r
      ensures FromBatch(batch, m)
    {
      var k :| 0 <= k < |r| && r[k] == m;
      if Cores(r)[k] in Cores(s.node.queue) {
        CoreOfWaiting(s.node.queue, Cores(r)[k]);
      }
    }
  }

  lemma CoreOfWaiting(q: seq<Message>, core: Message)
    requires core in Cores(q)
    ensures exists m :: m in q && Core(m) == core
  {
    var k :| 0 <= k < |q| && Cores(q)[k] == core;
    assert q[k] in q;
  }

  lemma WithoutIsPart(q: seq<Message>, i: nat)
    requires i < |q|
    ensures forall m :: m in Without(q, i) ==> m in q
    ensures Cores(Without(q, i)) == Without(Cores(q), i)
  {}

  /** Every chat that waits after a step waited before it, or the step let it in. */
  lemma CoresWereWaiting(cfg: Config, s: Sys, l: Label)
    requires Inv(cfg, s) && Enabled(s, l)
    ensures forall core :: core in Cores(Apply(cfg, s, l).node.queue) ==>
              core in Cores(s.node.queue) || (l.RunChat? && core == Core(l.m))
  {
    StepMoves(cfg, s, l);
    var t := Apply(cfg, s, l);
    if (l.RunAck? || l.Tick?) && exists i: nat :: Commits(s, t, i) {
      var i: nat :| Commits(s, t, i);
      WithoutIsPart(Cores(s.node.queue), i);
    } else if l.Timeout? && exists i: nat :: Drops(s, t, i) {
      var i: nat :| Drops(s, t, i);
      WithoutIsPart(s.node.queue, i);
      WithoutIsPart(Cores(s.node.queue), i);
    }
  }

  /** A node that has queued the whole batch and committed none of it yet. */
  ghost predicate Gathered(x: Scene, cfg: Config, front: seq<Label>) {
    EnqueuedIn(front) == BatchIds(x.batch) && Run(cfg, Start(x.log), front).commits == []
  }

  lemma GatheredQueue(x: Scene, cfg: Config, front: seq<Label>)
    requires Settled(x) && Possible(cfg, Start(x.log), front) && Undisturbed(x, cfg, front) && Gathered(x, cfg, front)
    ensures var s := Run(cfg, Start(x.log), front);
      && Inv(cfg, s) && s.log == x.log
      && Elements(Cores(s.node.queue)) == (set c | c in x.batch :: Core(c))
      && forall m :: m in s.node.queue ==> FromBatch(x.batch, m)
  {
    ReachableSatisfiesInv(cfg, x.log, front);
    NothingLogged(cfg, x.log, front);
    AllWaiting(cfg, x.log, front);
    StartSatisfiesInv(cfg, x.log);
    QueueIsFromBatch(x.batch, cfg, Start(x.log), front);
    QueueIsBatch(x, Run(cfg, Start(x.log), front).node.queue);
  }

  lemma NothingLogged(cfg: Config, log: seq<string>, labels: seq<Label>)
    requires AcksCarryRoom(cfg, labels) && NoWrites(labels) && Run(cfg, Start(log), labels).commits == []
    ensures Run(cfg, Start(log), labels).log == log
  {
    LogGrowsByCommits(cfg, Start(log), labels);
  }

  lemma AllWaiting(cfg: Config, log: seq<string>, labels: seq<Label>)
    requires Healthy(log) && Possible(cfg, Start(log), labels) && forall l :: l in labels ==> !l.Timeout?
    requires Run(cfg, Start(log), labels).commits == []
    ensures Ids(Run(cfg, Start(log), labels).node.queue) == EnqueuedIn(labels)
  {
    Conservation(cfg, log, labels);
    NoTimerDropsNone(cfg, Start(log), labels);
  }

  lemma QueueIsBatch(x: Scene, q: seq<Message>)
    requires Settled(x) && Ids(q) == BatchIds(x.batch)
    requires forall m :: m in q ==> FromBatch(x.batch, m)
    ensures Elements(Cores(q)) == set c | c in x.batch :: Core(c)
  {
    forall c | c in x.batch
      ensures Core(c) in Elements(Cores(q))
    {
      assert c.id in BatchIds(x.batch);
      ChatIsQueued(x, q, c);
    }
    QueuedIsOfBatch(x.batch, q);
  }

  lemma QueuedIsOfBatch(batch: set<Message>, q: seq<Message>)
    requires forall m :: m in q ==> FromBatch(batch, m)
    ensures Elements(Cores(q)) <= set c | c in batch :: Core(c)
  {
    forall k | 0 <= k < |q|
      ensures Cores(q)[k] in set c | c in batch :: Core(c)
    {
      assert FromBatch(batch, q[k]);
    }
  }

  lemma ChatIsQueued(x: Scene, q: seq<Message>, c: Message)
    requires Settled(x) && c in x.batch && c.id in Ids(q)
    requires forall m :: m in q ==> FromBatch(x.batch, m)
    ensures Core(c) in Cores(q)
  {
    var k :| 0 <= k < |q| && q[k].id == c.id;
    assert FromBatch(x.batch, q[k]);
    var d :| d in x.batch && Core(d) == Core(q[k]);
    assert d.id == Core(d).id == q[k].id;
    assert Cores(q)[k] == Core(c);
  }

  ghost predicate BatchTiesAgree(batch: set<Message>) {
    forall c, d :: c in batch && d in batch && c.timestamp == d.timestamp ==> ChatData(c) == ChatData(d)
  }

  lemma BatchTiesAgreeInQueue(batch: set<Message>, q: seq<Message>)
    requires BatchTiesAgree(batch) && forall m :: m in q ==> FromBatch(batch, m)
    ensures TiesAgree(q)
  {
    forall a, b | a in q && b in q && a.timestamp == b.timestamp
      ensures ChatData(a) == ChatData(b)
    {
      var c :| c in batch && Core(c) == Core(a);
      var d :| d in batch && Core(d) == Core(b);
      assert c.timestamp == Core(c).timestamp && d.timestamp == Core(d).timestamp;
      DataOfCore(a, c);
      DataOfCore(b, d);
    }
  }

  /** A node's whole history: it gathers the batch, handles the rest, and ticks. */
  datatype History = History(
    node: Flood.Peer, cfg: Config, front: seq<Label>, back: seq<Label>, rounds: seq<seq<Label>>)

  ghost predicate Complete(x: Scene, h: History)
    requires Settled(x)
  {
    && Handled(x, h.node, h.cfg, h.front + h.back)
    && Gathered(x, h.cfg, h.front) && BatchLabels(h.back)
    && var t := Run(h.cfg, Start(x.log), h.front + h.back);
       AreRounds(h.cfg, t, h.rounds) && |h.rounds| >= |t.node.queue|
  }

  ghost function End(x: Scene, h: History): Sys {
    RunRounds(h.cfg, Run(h.cfg, Start(x.log), h.front + h.back), h.rounds)
  }

  /** The part of a history after the batch has gathered. */
  lemma CompleteIsBatchRun(x: Scene, h: History)
    requires Settled(x) && Complete(x, h)
    ensures var s, late := Run(h.cfg, Start(x.log), h.front), h.back + Flat(h.rounds);
      && Inv(h.cfg, s) && s.log == x.log && Possible(h.cfg, s, late) && BatchLabels(late)
      && AcksCarryRoom(h.cfg, late) && NoWrites(late)
      && Elements(Cores(s.node.queue)) == (set c | c in x.batch :: Core(c))
      && (forall m :: m in s.node.queue ==> FromBatch(x.batch, m))
      && End(x, h) == Run(h.cfg, s, late)
  {
    var s := Run(h.cfg, Start(x.log), h.front);
    var ticks := Flat(h.rounds);
    RunAppend(h.cfg, Start(x.log), h.front, h.back);
    RoundsAreTicks(h.cfg, Run(h.cfg, Start(x.log), h.front + h.back), h.rounds);
    RunAppend(h.cfg, s, h.back, ticks);
    assert forall l :: l in h.front ==> l in h.front + h.back;
    assert forall l :: l in h.back ==> l in h.front + h.back;
    assert Undisturbed(x, h.cfg, h.front);
    GatheredQueue(x, h.cfg, h.front);
    TicksAddNoChats(h.back, ticks);
  }

  /** On a covered net, once the floods of a batch and of all acks have finished
      and every node has handled them, with no timer fired and the batch gathered
      before its first commit, fair ticks leave any two nodes with empty queues and
      equal logs, when ties in the batch carry equal data. */
  lemma NodesAgree(x: Scene, h1: History, h2: History)
    requires Settled(x) && Complete(x, h1) && Complete(x, h2) && BatchTiesAgree(x.batch)
    ensures End(x, h1).node.queue == [] && End(x, h2).node.queue == []
    ensures End(x, h1).log == End(x, h2).log
  {
    BatchCommits(x, h1.node, h1.cfg, h1.front + h1.back, h1.rounds);
    BatchCommits(x, h2.node, h2.cfg, h2.front + h2.back, h2.rounds);
    CompleteIsBatchRun(x, h1);
    CompleteIsBatchRun(x, h2);
    var s1, s2 := Run(h1.cfg, Start(x.log), h1.front), Run(h2.cfg, Start(x.log), h2.front);
    BatchTiesAgreeInQueue(x.batch, s1.node.queue);
    BatchConfluence(h1.cfg, s1, h1.back + Flat(h1.rounds), h2.cfg, s2, h2.back + Flat(h2.rounds));
  }

  /** And valid chains with these logs end in one hash. */
  lemma NodesAgreeOnFinalHash(x: Scene, h1: History, chain1: seq<Block>, h2: History, chain2: seq<Block>)
    requires Settled(x) && Complete(x, h1) && Complete(x, h2) && BatchTiesAgree(x.batch)
    requires ValidChain(chain1) && Log(chain1) == End(x, h1).log
    requires ValidChain(chain2) && Log(chain2) == End(x, h2).log
    ensures FinalHash(chain1) == FinalHash(chain2)
  {
    NodesAgree(x, h1, h2);
    FinalHashDecidesLog(chain1, chain2);
  }

  /** The configured threshold of a room of two or more is within reach. */
  lemma ConfiguredThresholdIsReached(x: Scene, cfg: Config)
    requires cfg.threshold == Quorum.Threshold(|Members(x.log)|)
    ensures cfg.threshold <= |Members(x.log)| <==> |Members(x.log)| >= 2
  {
    Quorum.ConfiguredThreshold(|Members(x.log)|);
  }
}
