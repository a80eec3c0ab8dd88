/** The order of commits: by timestamp among chats that wait together, and the
    same on every node for a batch. */
module CommitOrder {
  import PeerHistory
  import opened AckProtocol
  import opened AckRuns
  import opened AckTheorems

  /** A chat as its author sent it: without the ack counter, and without the TTL,
      which differs between nodes at different distances from the author. */
  function Core(m: Message): Message {
    m.(acksReceived := 0, ttl := 0)
  }

  function Cores(q: seq<Message>): (cores: seq<Message>)
    ensures |cores| == |q|
    ensures forall i :: 0 <= i < |q| ==> cores[i] == Core(q[i])
  {
    seq(|q|, i requires 0 <= i < |q| => Core(q[i]))
  }

  ghost predicate SortedByTime(q: seq<Message>) {
    forall i, j :: 0 <= i <= j < |q| ==> q[i].timestamp <= q[j].timestamp
  }

  lemma SortedPrepend(m: Message, done: seq<Message>)
    requires SortedByTime(done) && forall x :: x in done ==> m.timestamp <= x.timestamp
    ensures SortedByTime([m] + done)
  {
    assert forall k :: 0 <= k < |done| ==> done[k] in done;
  }

  // ---------- What one step does to the queue ----------

  ghost predicate Stays(s: Sys, t: Sys) {
    Cores(t.node.queue) == Cores(s.node.queue) && t.commits == s.commits && t.dropped == s.dropped
  }

  /** The chat at `i`, than which none is strictly earlier, is committed. */
  ghost predicate Commits(s: Sys, t: Sys, i: nat) {
    && i < |s.node.queue| && CanSave(s.node.queue, i)
    && Cores(t.node.queue) == Without(Cores(s.node.queue), i)
    && |t.commits| == |s.commits| + 1 && s.commits <= t.commits
    && Core(t.commits[|s.commits|].chat) == Core(s.node.queue[i])
    && t.dropped == s.dropped
  }

  ghost predicate Drops(s: Sys, t: Sys, i: nat) {
    && i < |s.node.queue|
    && t.node.queue == Without(s.node.queue, i)
    && t.commits == s.commits && t.dropped == s.dropped + {s.node.queue[i].id}
  }

  ghost predicate Enters(s: Sys, t: Sys, m: Message) {
    && m.id !in s.enqueued
    && Cores(t.node.queue) == Cores(s.node.queue) + [Core(m)]
    && t.commits == s.commits && t.dropped == s.dropped
  }

  lemma RunAckMoves(cfg: Config, s: Sys, m: Message)
    requires UniqueIds(s.node.queue)
    ensures var t, i := Apply(cfg, s, RunAck(m)), Find(s.node.queue, AckTarget(m.data));
      Stays(s, t) || Commits(s, t, i)
  {
    var q := s.node.queue;
    var i := Find(q, AckTarget(m.data));
    if i < |q| {
      CountingKeepsCores(q, i);
    }
  }

  lemma CountingKeepsCores(q: seq<Message>, i: nat)
    requires i < |q|
    ensures var r := q[i := OneMoreAck(q[i])];
      && Cores(r) == Cores(q)
      && Cores(Without(r, i)) == Without(Cores(q), i)
      && (CanSave(r, i) <==> CanSave(q, i))
  {}

  lemma TickMoves(cfg: Config, s: Sys, id: string)
    ensures var t, i := Apply(cfg, s, Tick(id)), Find(s.node.queue, id);
      Stays(s, t) || Commits(s, t, i)
  {
    var q := s.node.queue;
    var i := Find(q, id);
    if i < |q| {
      assert Cores(Without(q, i)) == Without(Cores(q), i);
    }
  }

  /** Every step leaves the waiting chats alone, commits one that has none
      before it, drops one, or lets a new one in. */
  lemma StepMoves(cfg: Config, s: Sys, l: Label)
    requires Inv(cfg, s) && Enabled(s, l)
    ensures var t := Apply(cfg, s, l);
      || Stays(s, t)
      || ((l.RunAck? || l.Tick?) && exists i: nat :: Commits(s, t, i))
      || (l.Timeout? && exists i: nat :: Drops(s, t, i))
      || (l.RunChat? && Enters(s, t, l.m))
  {
    match l
    case RunAck(m) => RunAckMoves(cfg, s, m);
    case Tick(id) => TickMoves(cfg, s, id);
    case RunChat(m) => EnqueueSectionOutcome(cfg, s, m);
    case Timeout(id) =>
      FindInIds(s.node.queue, id);
      var i := Find(s.node.queue, id);
      if i < |s.node.queue| {
        assert Drops(s, Apply(cfg, s, l), i);
      }
    case _ =>
  }

  // ---------- Timestamp order over runs ----------

  /** The chat `a` is committed ahead of the chat `b`. */
  ghost predicate CommittedBefore(commits: seq<Committed>, a: Message, b: Message) {
    exists i, j :: 0 <= i < j < |commits| && Core(commits[i].chat) == Core(a) && Core(commits[j].chat) == Core(b)
  }

  /** Whatever waits or was committed under the id of `m` is `m`. */
  ghost predicate Tracks(s: Sys, m: Message) {
    && m.id in s.enqueued
    && (forall x :: x in s.node.queue && x.id == m.id ==> Core(x) == Core(m))
    && (forall c :: c in s.commits && c.chat.id == m.id ==> Core(c.chat) == Core(m))
  }

  /** `b` is only committed behind `a`, unless `a` was dropped. */
  ghost predicate InOrder(s: Sys, a: Message, b: Message) {
    && Tracks(s, a) && Tracks(s, b)
    && (b.id in CommitIds(s.commits) ==> a.id in s.dropped || CommittedBefore(s.commits, a, b))
  }

  lemma FewerCoresTrack(q: seq<Message>, r: seq<Message>, m: Message)
    requires forall c :: c in Cores(r) ==> c in Cores(q)
    requires forall x :: x in q && x.id == m.id ==> Core(x) == Core(m)
    ensures forall x :: x in r && x.id == m.id ==> Core(x) == Core(m)
  {
    forall x | x in r && x.id == m.id
      ensures Core(x) == Core(m)
    {
      var j :| 0 <= j < |r| && r[j] == x;
      assert Cores(r)[j] in Cores(q);
      var k :| 0 <= k < |q| && Cores(q)[k] == Cores(r)[j];
      assert q[k] in q && q[k].id == m.id;
    }
  }

  lemma CommittingTracks(s: Sys, t: Sys, i: nat, m: Message)
    requires Commits(s, t, i) && Tracks(s, m) && m.id in t.enqueued
    ensures Tracks(t, m)
  {}

  lemma NoEarlierWaits(q: seq<Message>, i: nat, a: Message)
    requires i < |q| && CanSave(q, i)
    requires a.timestamp < q[i].timestamp
    requires forall m :: m in q && m.id == a.id ==> m.timestamp == a.timestamp
    ensures a.id !in Ids(q)
  {}

  lemma CommittingKeepsOrder(cfg: Config, s: Sys, t: Sys, i: nat, a: Message, b: Message)
    requires Inv(cfg, s) && InOrder(s, a, b) && a.timestamp < b.timestamp
    requires Commits(s, t, i) && s.enqueued <= t.enqueued
    ensures InOrder(t, a, b)
  {
    var q := s.node.queue;
    var n := |s.commits|;
    var id := q[i].id;
    CommittingTracks(s, t, i, a);
    CommittingTracks(s, t, i, b);
    assert q[i] in q && Core(t.commits[n].chat) == Core(q[i]);
    assert forall k :: 0 <= k < n ==> t.commits[k] == s.commits[k];
    if id == b.id {
      assert q[i].timestamp == Core(q[i]).timestamp == b.timestamp;
      assert forall m :: m in q && m.id == a.id ==> Core(m).timestamp == a.timestamp;
      NoEarlierWaits(q, i, a);
      CommitBehind(s, t, i, a, b);
    } else if b.id in CommitIds(t.commits) {
      var c :| c in t.commits && c.chat.id == b.id;
      var k :| 0 <= k < |t.commits| && t.commits[k] == c;
      assert Core(t.commits[n].chat).id == id;
      assert c in s.commits;
    }
  }

  /** When `b` is committed, `a` no longer waits, so it was dropped or is ahead. */
  lemma CommitBehind(s: Sys, t: Sys, i: nat, a: Message, b: Message)
    requires Conserved(s) && Tracks(s, a) && a.id !in Ids(s.node.queue)
    requires Commits(s, t, i) && Core(s.node.queue[i]) == Core(b)
    ensures a.id in t.dropped || CommittedBefore(t.commits, a, b)
  {}

  lemma StepKeepsOrder(cfg: Config, s: Sys, l: Label, a: Message, b: Message)
    requires Inv(cfg, s) && Enabled(s, l)
    requires InOrder(s, a, b) && a.timestamp < b.timestamp
    ensures InOrder(Apply(cfg, s, l), a, b)
  {
    StepMoves(cfg, s, l);
    StepOnlyAdds(cfg, s, l);
    var t := Apply(cfg, s, l);
    var q := s.node.queue;
    if (l.RunAck? || l.Tick?) && exists i: nat :: Commits(s, t, i) {
      var i: nat :| Commits(s, t, i);
      CommittingKeepsOrder(cfg, s, t, i, a, b);
    } else if Stays(s, t) {
      FewerCoresTrack(q, t.node.queue, a);
      FewerCoresTrack(q, t.node.queue, b);
    } else if l.Timeout? {
      var i: nat :| Drops(s, t, i);
      WithoutMembers(q, i);
    } else {
      NewcomerTracks(s, t, l.m, a);
      NewcomerTracks(s, t, l.m, b);
    }
  }

  lemma NewcomerTracks(s: Sys, t: Sys, m: Message, a: Message)
    requires Enters(s, t, m) && Tracks(s, a) && a.id in t.enqueued
    ensures Tracks(t, a)
  {}

  lemma {:induction false} RunKeepsOrder(cfg: Config, s: Sys, labels: seq<Label>, a: Message, b: Message)
    requires Inv(cfg, s) && Possible(cfg, s, labels)
    requires InOrder(s, a, b) && a.timestamp < b.timestamp
    ensures InOrder(Run(cfg, s, labels), a, b)
    decreases |labels|
  {
    if labels != [] {
      StepKeepsInv(cfg, s, labels[0]);
      StepKeepsOrder(cfg, s, labels[0], a, b);
      RunKeepsOrder(cfg, Apply(cfg, s, labels[0]), labels[1..], a, b);
    }
  }

  lemma WaitingChatIsTracked(cfg: Config, s: Sys, m: Message)
    requires Inv(cfg, s) && m in s.node.queue
    ensures Tracks(s, m) && m.id !in CommitIds(s.commits)
  {}

  /** Of two chats that ever wait together, the strictly earlier one is
      committed first if both are, whichever path makes each commit. */
  lemma TimestampOrder(cfg: Config, s: Sys, labels: seq<Label>, a: Message, b: Message)
    requires Inv(cfg, s) && Possible(cfg, s, labels)
    requires a in s.node.queue && b in s.node.queue && a.timestamp < b.timestamp
    ensures var t := Run(cfg, s, labels);
      a.id in CommitIds(t.commits) && b.id in CommitIds(t.commits) ==> CommittedBefore(t.commits, a, b)
  {
    WaitingChatIsTracked(cfg, s, a);
    WaitingChatIsTracked(cfg, s, b);
    RunKeepsOrder(cfg, s, labels, a, b);
    RunKeepsInv(cfg, s, labels);
  }

  // ---------- The order of blocks ----------

  ghost predicate NoClears(labels: seq<Label>) {
    forall l :: l in labels ==> l != Write(PeerHistory.ClearRoom)
  }

  /** From `s` to `t` nothing was cut off the log, and the chats committed since
      stand in it at the positions `pos`, in commit order. */
  ghost predicate Placed(s: Sys, t: Sys, pos: seq<nat>) {
    && s.commits <= t.commits && |pos| == |t.commits| - |s.commits|
    && s.log <= t.log
    && (forall k :: 0 <= k < |pos| ==>
          |s.log| <= pos[k] < |t.log| && t.log[pos[k]] == ChatData(t.commits[|s.commits| + k].chat))
    && forall j, k :: 0 <= j < k < |pos| ==> pos[j] < pos[k]
  }

  lemma PlacedTwice(s: Sys, t: Sys, u: Sys, p: seq<nat>, q: seq<nat>)
    requires Placed(s, t, p) && Placed(t, u, q)
    ensures Placed(s, u, p + q)
  {
    var pos := p + q;
    forall k | 0 <= k < |pos|
      ensures |s.log| <= pos[k] < |u.log| && u.log[pos[k]] == ChatData(u.commits[|s.commits| + k].chat)
    {
      if k < |p| {
        assert pos[k] == p[k] && u.commits[|s.commits| + k] == t.commits[|s.commits| + k];
      } else {
        assert pos[k] == q[k - |p|] && |s.commits| + k == |t.commits| + (k - |p|);
      }
    }
  }

  lemma StepPlaces(cfg: Config, s: Sys, l: Label) returns (pos: seq<nat>)
    requires l.RunAck? ==> l.m.roomID == cfg.room
    requires l != Write(PeerHistory.ClearRoom)
    ensures Placed(s, Apply(cfg, s, l), pos)
  {
    pos := if |Apply(cfg, s, l).commits| == |s.commits| then [] else [|s.log|];
  }

  /** Whoever else writes to the room, and short of a clear, the committed chats
      stand in the room's log in commit order. */
  lemma {:induction false} LogKeepsCommitOrder(cfg: Config, s: Sys, labels: seq<Label>) returns (pos: seq<nat>)
    requires AcksCarryRoom(cfg, labels) && NoClears(labels)
    ensures Placed(s, Run(cfg, s, labels), pos)
    decreases |labels|
  {
    if labels == [] {
      pos := [];
    } else {
      assert labels[0] in labels && forall x :: x in labels[1..] ==> x in labels;
      var p := StepPlaces(cfg, s, labels[0]);
      var q := LogKeepsCommitOrder(cfg, Apply(cfg, s, labels[0]), labels[1..]);
      PlacedTwice(s, Apply(cfg, s, labels[0]), Run(cfg, s, labels), p, q);
      pos := p + q;
    }
  }

  /** And so the earlier chat's block comes first in the room's log, whatever
      peers join and administrators change in between, when acks carry the
      node's room and the room is not cleared. */
  lemma TimestampOrderInLog(cfg: Config, s: Sys, labels: seq<Label>, a: Message, b: Message)
    requires Inv(cfg, s) && Possible(cfg, s, labels)
    requires AcksCarryRoom(cfg, labels) && NoClears(labels)
    requires a in s.node.queue && b in s.node.queue && a.timestamp < b.timestamp
    requires var t := Run(cfg, s, labels); a.id in CommitIds(t.commits) && b.id in CommitIds(t.commits)
    ensures var t := Run(cfg, s, labels);
      exists i, j :: |s.log| <= i < j < |t.log| && t.log[i] == ChatData(a) && t.log[j] == ChatData(b)
  {
    TimestampOrder(cfg, s, labels, a, b);
    WaitingChatIsTracked(cfg, s, a);
    WaitingChatIsTracked(cfg, s, b);
    var pos := LogKeepsCommitOrder(cfg, s, labels);
    LoggedInCommitOrder(s, Run(cfg, s, labels), pos, a, b);
  }

  lemma LoggedInCommitOrder(s: Sys, t: Sys, pos: seq<nat>, a: Message, b: Message)
    requires Placed(s, t, pos) && CommittedBefore(t.commits, a, b)
    requires a.id !in CommitIds(s.commits) && b.id !in CommitIds(s.commits)
    ensures exists i, j :: |s.log| <= i < j < |t.log| && t.log[i] == ChatData(a) && t.log[j] == ChatData(b)
  {
    var n := |s.commits|;
    var i, j :| 0 <= i < j < |t.commits| && Core(t.commits[i].chat) == Core(a) && Core(t.commits[j].chat) == Core(b);
    NotAmongEarlierCommits(s.commits, t.commits, i, a.id);
    NotAmongEarlierCommits(s.commits, t.commits, j, b.id);
    DataOfCore(t.commits[n + (i - n)].chat, a);
    DataOfCore(t.commits[n + (j - n)].chat, b);
    assert pos[i - n] < pos[j - n];
  }

  lemma NotAmongEarlierCommits(before: seq<Committed>, after: seq<Committed>, i: nat, id: string)
    requires before <= after && i < |after| && after[i].chat.id == id
    requires id !in CommitIds(before)
    ensures i >= |before|
  {}

  lemma DataOfCore(a: Message, b: Message)
    requires Core(a) == Core(b)
    ensures ChatData(a) == ChatData(b)
  {}
}
