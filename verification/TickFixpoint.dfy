/** What the ticks alone achieve: from any state whose queued ids are unique, any
    schedule of ticks that leaves nothing to commit has committed the same chats. */
module TickFixpoint {
  import opened AckProtocol
  import opened AckRuns
  import opened AckTheorems
  import opened CommitOrder

  ghost predicate OnlyTicks(labels: seq<Label>) {
    forall l :: l in labels ==> l.Tick?
  }

  ghost predicate HasQuorum(cfg: Config, m: Message) {
    m.acksReceived >= cfg.threshold
  }

  /** A waiting chat that has its quorum, as does every strictly earlier one. */
  ghost predicate Ready(cfg: Config, q: seq<Message>, m: Message) {
    && m in q && HasQuorum(cfg, m)
    && forall o :: o in q && o.timestamp < m.timestamp ==> HasQuorum(cfg, o)
  }

  /** No tick of any chat commits anything. */
  ghost predicate Quiet(cfg: Config, n: Node) {
    forall id :: TickSection(cfg, n, id).effects == []
  }

  /** The chats of the commits, with the counters they had. */
  function ChatsOf(commits: seq<Committed>): (chats: seq<Message>)
    ensures |chats| == |commits|
    ensures forall i :: 0 <= i < |commits| ==> chats[i] == commits[i].chat
  {
    seq(|commits|, i requires 0 <= i < |commits| => commits[i].chat)
  }

  /** A tick does nothing, or commits one chat with a quorum that no waiting
      chat precedes. */
  ghost predicate Ticked(cfg: Config, s: Sys, t: Sys, i: nat) {
    && i < |s.node.queue| && HasQuorum(cfg, s.node.queue[i]) && CanSave(s.node.queue, i)
    && t.node.queue == Without(s.node.queue, i)
    && t.commits == s.commits + [Committed(cfg.room, s.node.queue[i], AcksOf(s.acked, s.node.queue[i].id))]
  }

  lemma TickOutcome(cfg: Config, s: Sys, id: string)
    ensures var t := Apply(cfg, s, Tick(id));
      t == s || Ticked(cfg, s, t, Find(s.node.queue, id))
  {}

  /** What a partial schedule has committed (`done`) and left (`rest`). */
  ghost predicate Progress(cfg: Config, q: seq<Message>, done: seq<Message>, rest: seq<Message>) {
    && SortedByTime(done)
    && multiset(q) == multiset(done) + multiset(rest)
    && (forall m :: m in done ==> Ready(cfg, q, m) && m !in rest)
    && (forall m :: m in rest ==> (Ready(cfg, rest, m) <==> Ready(cfg, q, m)))
    && (forall m, o :: m in done && o in rest ==> m.timestamp <= o.timestamp)
  }

  lemma ProgressMembers(cfg: Config, q: seq<Message>, done: seq<Message>, rest: seq<Message>)
    requires Progress(cfg, q, done, rest)
    ensures forall m :: m in q <==> m in done || m in rest
    ensures |q| == |done| + |rest|
  {
    assert |multiset(q)| == |multiset(done)| + |multiset(rest)|;
    forall m
      ensures m in q <==> m in done || m in rest
    {
      assert m in q <==> m in multiset(q);
    }
  }

  lemma NothingDone(cfg: Config, q: seq<Message>)
    ensures Progress(cfg, q, [], q)
  {}

  /** Committing a first chat with a quorum leaves the others as ready as before. */
  lemma ReadyWithoutFirst(cfg: Config, q: seq<Message>, i: nat)
    requires UniqueIds(q) && i < |q| && HasQuorum(cfg, q[i]) && CanSave(q, i)
    ensures Ready(cfg, q, q[i])
    ensures forall m :: m in Without(q, i) ==> (Ready(cfg, Without(q, i), m) <==> Ready(cfg, q, m))
  {
    NoneEarlier(q, i);
    WithoutMembers(q, i);
    forall m | m in Without(q, i)
      ensures Ready(cfg, Without(q, i), m) <==> Ready(cfg, q, m)
    {
      ReadyWith(cfg, q, Without(q, i), q[i], m);
    }
  }

  lemma ReadyWith(cfg: Config, q: seq<Message>, w: seq<Message>, first: Message, m: Message)
    requires forall o :: o in w <==> o in q && o != first
    requires HasQuorum(cfg, first) && m in w
    ensures Ready(cfg, w, m) <==> Ready(cfg, q, m)
  {}

  /** One more chat at the head of what was committed. */
  lemma ProgressStep(cfg: Config, q: seq<Message>, i: nat, done: seq<Message>, rest: seq<Message>)
    requires UniqueIds(q) && i < |q| && HasQuorum(cfg, q[i]) && CanSave(q, i)
    requires Progress(cfg, Without(q, i), done, rest)
    ensures Progress(cfg, q, [q[i]] + done, rest)
  {
    ReadyWithoutFirst(cfg, q, i);
    WithoutMembers(q, i);
    ProgressMembers(cfg, Without(q, i), done, rest);
    NoneEarlier(q, i);
    SortedPrepend(q[i], done);
    TakeOut(q, i);
    assert multiset([q[i]] + done) == multiset{q[i]} + multiset(done);
    assert forall m :: m in [q[i]] + done <==> m == q[i] || m in done;
  }

  lemma NoneEarlier(q: seq<Message>, i: nat)
    requires UniqueIds(q) && i < |q| && CanSave(q, i)
    ensures forall o :: o in q ==> q[i].timestamp <= o.timestamp
  {}

  lemma {:induction false} TicksMakeProgress(cfg: Config, s: Sys, labels: seq<Label>)
    requires UniqueIds(s.node.queue) && OnlyTicks(labels)
    ensures var t := Run(cfg, s, labels);
      && s.commits <= t.commits && UniqueIds(t.node.queue)
      && Progress(cfg, s.node.queue, ChatsOf(t.commits[|s.commits|..]), t.node.queue)
    decreases |labels|
  {
    var t := Run(cfg, s, labels);
    if labels == [] {
      NothingDone(cfg, s.node.queue);
      assert ChatsOf(t.commits[|s.commits|..]) == [];
    } else {
      var l := labels[0];
      assert l in labels && forall x :: x in labels[1..] ==> x in labels;
      var mid := Apply(cfg, s, l);
      TickOutcome(cfg, s, l.id);
      if mid == s {
        TicksMakeProgress(cfg, s, labels[1..]);
      } else {
        var i := Find(s.node.queue, l.id);
        WithoutMembers(s.node.queue, i);
        TicksMakeProgress(cfg, mid, labels[1..]);
        CommitThenProgress(cfg, s, mid, t, i);
      }
    }
  }

  lemma CommitThenProgress(cfg: Config, s: Sys, mid: Sys, t: Sys, i: nat)
    requires UniqueIds(s.node.queue) && Ticked(cfg, s, mid, i) && mid.commits <= t.commits
    requires Progress(cfg, mid.node.queue, ChatsOf(t.commits[|mid.commits|..]), t.node.queue)
    ensures s.commits <= t.commits
    ensures Progress(cfg, s.node.queue, ChatsOf(t.commits[|s.commits|..]), t.node.queue)
  {
    ChatsOfNext(s.commits, mid.commits, t.commits);
    ProgressStep(cfg, s.node.queue, i, ChatsOf(t.commits[|mid.commits|..]), t.node.queue);
  }

  lemma ChatsOfNext(a: seq<Committed>, b: seq<Committed>, c: seq<Committed>)
    requires a <= b <= c && |b| == |a| + 1
    ensures ChatsOf(c[|a|..]) == [b[|a|].chat] + ChatsOf(c[|b|..])
  {
    assert c[|a|..] == [b[|a|]] + c[|b|..];
  }

  lemma {:induction false} EarliestOf(q: seq<Message>) returns (i: nat)
    requires q != []
    ensures i < |q| && forall j :: 0 <= j < |q| ==> q[i].timestamp <= q[j].timestamp
  {
    if |q| == 1 {
      i := 0;
    } else {
      var k := EarliestOf(q[1..]);
      i := if q[0].timestamp <= q[k + 1].timestamp then 0 else k + 1;
      assert forall j :: 1 <= j < |q| ==> q[j] == q[1..][j - 1];
    }
  }

  /** Nothing is left to commit exactly when no waiting chat is ready. */
  lemma QuietExactlyWhenNoneReady(cfg: Config, n: Node)
    requires UniqueIds(n.queue)
    ensures Quiet(cfg, n) <==> forall m :: m in n.queue ==> !Ready(cfg, n.queue, m)
  {
    var q := n.queue;
    if m :| m in q && Ready(cfg, q, m) {
      var i := EarliestOf(q);
      var k :| 0 <= k < |q| && q[k] == m;
      var j := if q[i].timestamp < m.timestamp then i else k;
      assert q[i] in q && HasQuorum(cfg, q[j]);
      FindUnique(q, j);
      assert TickSection(cfg, n, q[j].id).effects != [];
    } else {
      forall id
        ensures TickSection(cfg, n, id).effects == []
      {
        var i := Find(q, id);
        if i < |q| && HasQuorum(cfg, q[i]) && CanSave(q, i) {
          assert q[i] in q;
          NoneEarlier(q, i);
          assert Ready(cfg, q, q[i]);
        }
      }
    }
  }

  /** Whatever the schedule, once the ticks have nothing left to do they have
      committed exactly the ready chats, in timestamp order, and left exactly
      the others waiting. */
  lemma TickFixpoint(cfg: Config, s: Sys, labels: seq<Label>)
    requires UniqueIds(s.node.queue) && OnlyTicks(labels)
    requires Quiet(cfg, Run(cfg, s, labels).node)
    ensures var t := Run(cfg, s, labels);
      && s.commits <= t.commits
      && (var done := ChatsOf(t.commits[|s.commits|..]);
          && SortedByTime(done)
          && (forall m :: m in done <==> Ready(cfg, s.node.queue, m))
          && (forall m :: m in t.node.queue <==> m in s.node.queue && !Ready(cfg, s.node.queue, m))
          && t.log == s.log + Datas(t.commits[|s.commits|..]))
  {
    TicksMakeProgress(cfg, s, labels);
    var t := Run(cfg, s, labels);
    ProgressMembers(cfg, s.node.queue, ChatsOf(t.commits[|s.commits|..]), t.node.queue);
    QuietExactlyWhenNoneReady(cfg, Run(cfg, s, labels).node);
    assert AcksCarryRoom(cfg, labels) && NoWrites(labels);
    LogGrowsByCommits(cfg, s, labels);
  }

  // ---------- Termination ----------

  /** How many ticks of a schedule commit a chat. */
  function CommittingTicks(cfg: Config, s: Sys, labels: seq<Label>): nat
    decreases |labels|
  {
    if labels == [] then 0
    else
      var t := Apply(cfg, s, labels[0]);
      (if t.commits != s.commits then 1 else 0) + CommittingTicks(cfg, t, labels[1..])
  }

  /** In any schedule, however many ticks are idle, each committing tick takes one
      chat off the queue, so there are at most as many as chats waiting. */
  lemma {:induction false} CommittingTicksAreBounded(cfg: Config, s: Sys, labels: seq<Label>)
    requires UniqueIds(s.node.queue) && OnlyTicks(labels)
    ensures UniqueIds(Run(cfg, s, labels).node.queue)
    ensures CommittingTicks(cfg, s, labels) + |Run(cfg, s, labels).node.queue| == |s.node.queue|
    decreases |labels|
  {
    if labels != [] {
      var l := labels[0];
      assert l in labels && forall x :: x in labels[1..] ==> x in labels;
      TickOutcome(cfg, s, l.id);
      if Apply(cfg, s, l) != s {
        WithoutMembers(s.node.queue, Find(s.node.queue, l.id));
      }
      CommittingTicksAreBounded(cfg, Apply(cfg, s, l), labels[1..]);
    }
  }

  /** A round ticks every waiting chat at least once, in any order. */
  ghost predicate IsRound(s: Sys, labels: seq<Label>) {
    OnlyTicks(labels) && forall m :: m in s.node.queue ==> Tick(m.id) in labels
  }

  ghost predicate AreRounds(cfg: Config, s: Sys, rounds: seq<seq<Label>>)
    decreases |rounds|
  {
    rounds == [] || (IsRound(s, rounds[0]) && AreRounds(cfg, Run(cfg, s, rounds[0]), rounds[1..]))
  }

  function RunRounds(cfg: Config, s: Sys, rounds: seq<seq<Label>>): Sys
    decreases |rounds|
  {
    if rounds == [] then s else RunRounds(cfg, Run(cfg, s, rounds[0]), rounds[1..])
  }

  /** A schedule that ticks a chat which can be committed commits something. */
  lemma {:induction false} TickedChatMakesProgress(cfg: Config, s: Sys, labels: seq<Label>, id: string)
    requires UniqueIds(s.node.queue) && OnlyTicks(labels)
    requires TickSection(cfg, s.node, id).effects != [] && Tick(id) in labels
    ensures |Run(cfg, s, labels).node.queue| < |s.node.queue|
    decreases |labels|
  {
    var l := labels[0];
    assert l in labels && labels == [l] + labels[1..] && forall x :: x in labels[1..] ==> x in labels;
    TickOutcome(cfg, s, l.id);
    if Apply(cfg, s, l) == s {
      TickedChatMakesProgress(cfg, s, labels[1..], id);
    } else {
      WithoutMembers(s.node.queue, Find(s.node.queue, l.id));
      CommittingTicksAreBounded(cfg, Apply(cfg, s, l), labels[1..]);
    }
  }

  /** Once nothing can be committed, ticks change nothing. */
  lemma {:induction false} QuietStays(cfg: Config, s: Sys, labels: seq<Label>)
    requires OnlyTicks(labels) && Quiet(cfg, s.node)
    ensures Run(cfg, s, labels) == s
    decreases |labels|
  {
    if labels != [] {
      var l := labels[0];
      assert l in labels && forall x :: x in labels[1..] ==> x in labels;
      TickOutcome(cfg, s, l.id);
      assert TickSection(cfg, s.node, l.id).effects == [];
      QuietStays(cfg, s, labels[1..]);
    }
  }

  /** Ticking fairly ends: after as many rounds as chats are waiting, nothing is
      left to commit. */
  lemma {:induction false} FairTicksFinish(cfg: Config, s: Sys, rounds: seq<seq<Label>>)
    requires UniqueIds(s.node.queue) && AreRounds(cfg, s, rounds) && |rounds| >= |s.node.queue|
    ensures Quiet(cfg, RunRounds(cfg, s, rounds).node)
    decreases |rounds|
  {
    if rounds != [] {
      var t := Run(cfg, s, rounds[0]);
      CommittingTicksAreBounded(cfg, s, rounds[0]);
      if Quiet(cfg, s.node) {
        QuietStays(cfg, s, rounds[0]);
        QuietRounds(cfg, s, rounds[1..]);
      } else {
        var id :| TickSection(cfg, s.node, id).effects != [];
        TickedChatMakesProgress(cfg, s, rounds[0], id);
        FairTicksFinish(cfg, t, rounds[1..]);
      }
    }
  }

  lemma {:induction false} QuietRounds(cfg: Config, s: Sys, rounds: seq<seq<Label>>)
    requires Quiet(cfg, s.node) && AreRounds(cfg, s, rounds)
    ensures RunRounds(cfg, s, rounds) == s
    decreases |rounds|
  {
    if rounds != [] {
      QuietStays(cfg, s, rounds[0]);
      QuietRounds(cfg, s, rounds[1..]);
    }
  }

  /** From any state some schedule leads to one where nothing is left. */
  lemma {:induction false} SomeScheduleFinishes(cfg: Config, s: Sys) returns (labels: seq<Label>)
    requires UniqueIds(s.node.queue)
    ensures OnlyTicks(labels) && Possible(cfg, s, labels) && |labels| <= |s.node.queue|
    ensures Quiet(cfg, Run(cfg, s, labels).node)
    decreases |s.node.queue|
  {
    if Quiet(cfg, s.node) {
      labels := [];
    } else {
      var id :| TickSection(cfg, s.node, id).effects != [];
      var mid := Apply(cfg, s, Tick(id));
      TickOutcome(cfg, s, id);
      WithoutMembers(s.node.queue, Find(s.node.queue, id));
      var rest := SomeScheduleFinishes(cfg, mid);
      labels := [Tick(id)] + rest;
      assert labels[0] == Tick(id) && labels[1..] == rest;
    }
  }
}
