/** What every run of one node in ack mode keeps. */
module AckTheorems {
  import opened PeerHistory
  import opened AckProtocol
  import opened AckRuns

  // ---------- The history of a run, read off its labels ----------

  /** The peers whose ack for `id` was processed in a run. */
  function AckersIn(labels: seq<Label>, id: string): set<string> {
    set l | l in labels && l.RunAck? && AckTarget(l.m.data) == id :: l.m.publicKey
  }

  /** The ids whose chat section ran. */
  function EnqueuedIn(labels: seq<Label>): set<string> {
    set l | l in labels && l.RunChat? :: l.m.id
  }

  lemma {:induction false} HistoryIsInLabels(cfg: Config, s: Sys, labels: seq<Label>, id: string)
    ensures AcksOf(Run(cfg, s, labels).acked, id) == AcksOf(s.acked, id) + AckersIn(labels, id)
    ensures Run(cfg, s, labels).enqueued == s.enqueued + EnqueuedIn(labels)
    decreases |labels|
  {
    if labels != [] {
      HistoryIsInLabels(cfg, Apply(cfg, s, labels[0]), labels[1..], id);
      HistorySplits(labels, id);
      FirstLabelHistory(cfg, s, labels[0], id);
    }
  }

  lemma HistorySplits(labels: seq<Label>, id: string)
    requires labels != []
    ensures AckersIn(labels, id) == AckersIn([labels[0]], id) + AckersIn(labels[1..], id)
    ensures EnqueuedIn(labels) == EnqueuedIn([labels[0]]) + EnqueuedIn(labels[1..])
  {
    assert labels == [labels[0]] + labels[1..];
  }

  lemma FirstLabelHistory(cfg: Config, s: Sys, l: Label, id: string)
    ensures AcksOf(Apply(cfg, s, l).acked, id) == AcksOf(s.acked, id) + AckersIn([l], id)
    ensures Apply(cfg, s, l).enqueued == s.enqueued + EnqueuedIn([l])
  {}

  lemma ReachableSatisfiesInv(cfg: Config, log: seq<string>, labels: seq<Label>)
    requires Healthy(log) && Possible(cfg, Start(log), labels)
    ensures Inv(cfg, Run(cfg, Start(log), labels))
  {
    StartSatisfiesInv(cfg, log);
    RunKeepsInv(cfg, Start(log), labels);
  }

  // ---------- Exact ack accounting ----------

  /** `processedAcks` is exactly the set of peers whose ack was ever processed,
      and a queued chat has counted each of them once: early acks, repeated
      acks, several acks from one peer and the rebuild at enqueue included. */
  lemma ExactAckAccounting(cfg: Config, log: seq<string>, labels: seq<Label>)
    requires Healthy(log) && Possible(cfg, Start(log), labels)
    ensures var t := Run(cfg, Start(log), labels);
      && (forall id :: AcksOf(t.node.processed, id) == AckersIn(labels, id))
      && (forall m :: m in t.node.queue ==>
            m.acksReceived == if m.id == "" then 0 else |AckersIn(labels, m.id)|)
  {
    ReachableSatisfiesInv(cfg, log, labels);
    forall id
      ensures AcksOf(Run(cfg, Start(log), labels).acked, id) == AckersIn(labels, id)
    {
      HistoryIsInLabels(cfg, Start(log), labels, id);
    }
  }

  /** Before its chat is enqueued, an id's buffer holds one ack for each peer
      that acked it; and no chat section ever finds its chat already queued. */
  lemma PendingBufferIsExact(cfg: Config, log: seq<string>, labels: seq<Label>)
    requires Healthy(log) && Possible(cfg, Start(log), labels)
    ensures var t := Run(cfg, Start(log), labels);
      && (forall id :: id != "" && id !in EnqueuedIn(labels) ==>
            DistinctKeys(PendingOf(t.node.pending, id)) && Keys(PendingOf(t.node.pending, id)) == AckersIn(labels, id))
      && (forall m :: Enabled(t, RunChat(m)) ==> m.id !in Ids(t.node.queue))
  {
    ReachableSatisfiesInv(cfg, log, labels);
    var t := Run(cfg, Start(log), labels);
    forall id | id != "" && id !in EnqueuedIn(labels)
      ensures DistinctKeys(PendingOf(t.node.pending, id)) && Keys(PendingOf(t.node.pending, id)) == AckersIn(labels, id)
    {
      HistoryIsInLabels(cfg, Start(log), labels, id);
      assert Buffered(t, id);
    }
    forall m | Enabled(t, RunChat(m))
      ensures m.id !in Ids(t.node.queue)
    {
      EnqueueSectionOutcome(cfg, t, m);
    }
  }

  /** The order of a chat and its acks does not matter: in any two runs, of any
      two nodes, in which the same peers acked a queued chat, the counts agree. */
  lemma OrderOfAcksIsIrrelevant(cfg1: Config, log1: seq<string>, labels1: seq<Label>, m1: Message,
                                cfg2: Config, log2: seq<string>, labels2: seq<Label>, m2: Message)
    requires Healthy(log1) && Possible(cfg1, Start(log1), labels1)
    requires Healthy(log2) && Possible(cfg2, Start(log2), labels2)
    requires m1 in Run(cfg1, Start(log1), labels1).node.queue
    requires m2 in Run(cfg2, Start(log2), labels2).node.queue
    requires m1.id == m2.id && AckersIn(labels1, m1.id) == AckersIn(labels2, m2.id)
    ensures m1.acksReceived == m2.acksReceived
  {
    ExactAckAccounting(cfg1, log1, labels1);
    ExactAckAccounting(cfg2, log2, labels2);
  }

  // ---------- Quorum safety ----------

  /** Every committed chat was acked, by the time of its commit, by at least
      `threshold` distinct peers; they were room members and still are. */
  lemma QuorumSafety(cfg: Config, log: seq<string>, labels: seq<Label>)
    requires Healthy(log) && Possible(cfg, Start(log), labels)
    ensures var t := Run(cfg, Start(log), labels);
      forall c :: c in t.commits ==>
        && |c.backers| >= cfg.threshold
        && c.backers <= AckersIn(labels, c.chat.id)
        && c.backers <= Members(t.log)
  {
    ReachableSatisfiesInv(cfg, log, labels);
    var t := Run(cfg, Start(log), labels);
    forall c | c in t.commits
      ensures |c.backers| >= cfg.threshold && c.backers <= AckersIn(labels, c.chat.id) && c.backers <= Members(t.log)
    {
      HistoryIsInLabels(cfg, Start(log), labels, c.chat.id);
      assert BackedBy(cfg, t, c);
    }
  }

  // ---------- Conservation and finality ----------

  /** Every chat whose section ran is in exactly one of queued, committed,
      dropped; nothing else is; queued ids and committed ids are unique. */
  lemma Conservation(cfg: Config, log: seq<string>, labels: seq<Label>)
    requires Healthy(log) && Possible(cfg, Start(log), labels)
    ensures var t := Run(cfg, Start(log), labels);
      && EnqueuedIn(labels) == Ids(t.node.queue) + CommitIds(t.commits) + t.dropped
      && Ids(t.node.queue) !! CommitIds(t.commits) !! t.dropped
      && UniqueIds(t.node.queue)
      && forall i, j :: 0 <= i < j < |t.commits| ==> t.commits[i].chat.id != t.commits[j].chat.id
  {
    ReachableSatisfiesInv(cfg, log, labels);
    HistoryIsInLabels(cfg, Start(log), labels, "");
  }

  /** What a step never takes back. */
  lemma StepOnlyAdds(cfg: Config, s: Sys, l: Label)
    requires Inv(cfg, s) && Enabled(s, l)
    ensures var t := Apply(cfg, s, l);
      && s.commits <= t.commits && s.dropped <= t.dropped && s.enqueued <= t.enqueued
      && s.node.history <= t.node.history && Members(s.log) <= Members(t.log)
  {
    StepKeepsInv(cfg, s, l);
    var t := Apply(cfg, s, l);
    match l
    case RunAck(m) =>
      AckSectionFrame(cfg, s.node, m);
      MembersAfterBook(cfg, s, AckSection(cfg, s.node, m).effects);
    case Tick(id) =>
      MembersAfterBook(cfg, s, TickSection(cfg, s.node, id).effects);
    case Write(e) => MembersNeverShrink(s.log, e);
    case _ =>
  }

  lemma MembersAfterBook(cfg: Config, s: Sys, effects: seq<Effect>)
    requires Healthy(s.log)
    ensures Members(Book(cfg, s, effects).log) == Members(s.log)
  {
    if effects != [] && effects[0].Commit? {
      ChatIsNoPeerBlock(effects[0].chat);
      MembersNeverShrink(s.log, Other(ChatData(effects[0].chat)));
    }
  }

  lemma {:induction false} RunOnlyAdds(cfg: Config, s: Sys, labels: seq<Label>)
    requires Inv(cfg, s) && Possible(cfg, s, labels)
    ensures var t := Run(cfg, s, labels);
      && s.commits <= t.commits && s.dropped <= t.dropped && s.enqueued <= t.enqueued
      && Members(s.log) <= Members(t.log)
    decreases |labels|
  {
    if labels != [] {
      StepOnlyAdds(cfg, s, labels[0]);
      StepKeepsInv(cfg, s, labels[0]);
      RunOnlyAdds(cfg, Apply(cfg, s, labels[0]), labels[1..]);
    }
  }

  /** A chat that was committed or dropped never comes back: no later ack, tick,
      timer or second copy queues it or commits it again. */
  lemma RemovedChatsStayRemoved(cfg: Config, s: Sys, labels: seq<Label>, id: string)
    requires Inv(cfg, s) && Possible(cfg, s, labels)
    requires id in CommitIds(s.commits) + s.dropped
    ensures var t := Run(cfg, s, labels);
      && id !in Ids(t.node.queue)
      && forall k :: |s.commits| <= k < |t.commits| ==> t.commits[k].chat.id != id
  {
    RunOnlyAdds(cfg, s, labels);
    RunKeepsInv(cfg, s, labels);
    var t := Run(cfg, s, labels);
    if id in CommitIds(s.commits) {
      var c :| c in s.commits && c.chat.id == id;
      var i :| 0 <= i < |s.commits| && s.commits[i] == c;
      assert t.commits[i] == c && t.commits[i] in t.commits;
    }
    forall k | |s.commits| <= k < |t.commits|
      ensures t.commits[k].chat.id != id
    {
      assert t.commits[k] in t.commits;
      if id in CommitIds(s.commits) {
        var i :| 0 <= i < |s.commits| && s.commits[i].chat.id == id;
        assert t.commits[i].chat.id == id;
      }
    }
  }

  // ---------- Where a commit goes ----------

  /** A commit made by an ack lands in the room that the ack names; the node's
      own log receives the chat exactly when that is the node's room.  A tick
      always commits to the node's room. */
  lemma CommitGoesToRoomOfAck(cfg: Config, s: Sys, m: Message)
    requires |Apply(cfg, s, RunAck(m)).commits| > |s.commits|
    ensures var t := Apply(cfg, s, RunAck(m));
      && t.commits[|s.commits|].room == m.roomID
      && (t.log == s.log + [ChatData(t.commits[|s.commits|].chat)] <==> m.roomID == cfg.room)
      && (m.roomID != cfg.room ==> t.log == s.log)
  {}

  ghost predicate AcksCarryRoom(cfg: Config, labels: seq<Label>) {
    forall l :: l in labels && l.RunAck? ==> l.m.roomID == cfg.room
  }

  function Datas(commits: seq<Committed>): (datas: seq<string>)
    ensures |datas| == |commits|
    ensures forall i :: 0 <= i < |commits| ==> datas[i] == ChatData(commits[i].chat)
  {
    seq(|commits|, i requires 0 <= i < |commits| => ChatData(commits[i].chat))
  }

  ghost predicate NoWrites(labels: seq<Label>) {
    forall l :: l in labels ==> !l.Write?
  }

  /** From `s` to `t`, the log grew by the chats of the new commits. */
  ghost predicate GrewByCommits(s: Sys, t: Sys) {
    s.commits <= t.commits && t.log == s.log + Datas(t.commits[|s.commits|..])
  }

  lemma GrewTwice(s: Sys, t: Sys, u: Sys)
    requires GrewByCommits(s, t) && GrewByCommits(t, u)
    ensures GrewByCommits(s, u)
  {}

  /** When every ack carries the node's room and nobody else writes, the log
      grows by exactly the committed chats, in commit order. */
  lemma {:induction false} LogGrowsByCommits(cfg: Config, s: Sys, labels: seq<Label>)
    requires AcksCarryRoom(cfg, labels) && NoWrites(labels)
    ensures GrewByCommits(s, Run(cfg, s, labels))
    decreases |labels|
  {
    if labels == [] {
      assert s.log == s.log + Datas([]);
    } else {
      var l := labels[0];
      assert l in labels && forall x :: x in labels[1..] ==> x in labels;
      var mid := Apply(cfg, s, l);
      LogGrowsByCommits(cfg, mid, labels[1..]);
      StepLogsItsCommits(cfg, s, l);
      GrewTwice(s, mid, Run(cfg, s, labels));
    }
  }

  lemma StepLogsItsCommits(cfg: Config, s: Sys, l: Label)
    requires !l.Write? && (l.RunAck? ==> l.m.roomID == cfg.room)
    ensures GrewByCommits(s, Apply(cfg, s, l))
  {}
}
