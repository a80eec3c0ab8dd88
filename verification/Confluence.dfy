/** Which batches of chats end up in one order on every node: those in which
    chats with equal timestamps carry equal data. */
module Confluence {
  import opened Blocks
  import opened AckProtocol
  import opened AckRuns
  import opened AckTheorems
  import opened CommitOrder
  import opened TickFixpoint

  /** Receptions, acks, ticks and other writers of the log; no chat enters the
      queue and none is dropped. */
  ghost predicate BatchLabels(labels: seq<Label>) {
    forall l :: l in labels ==> l.Receive? || l.RunAck? || l.Tick? || l.Write?
  }

  /** Waiting chats that tie carry the same data. */
  ghost predicate TiesAgree(q: seq<Message>) {
    forall a, b :: a in q && b in q && a.timestamp == b.timestamp ==> ChatData(a) == ChatData(b)
  }

  function Chats(commits: seq<Committed>): (chats: seq<Message>)
    ensures |chats| == |commits|
    ensures forall i :: 0 <= i < |commits| ==> chats[i] == Core(commits[i].chat)
  {
    seq(|commits|, i requires 0 <= i < |commits| => Core(commits[i].chat))
  }

  function Elements<T>(q: seq<T>): set<T> {
    set x | x in q
  }

  // ---------- What a batch run has committed ----------

  /** `done` is what a batch of waiting chats `q` has committed when `rest` waits. */
  ghost predicate SortedSplit(q: seq<Message>, done: seq<Message>, rest: seq<Message>) {
    && SortedByTime(done)
    && multiset(q) == multiset(done) + multiset(rest)
    && forall i, m :: 0 <= i < |done| && m in rest ==> done[i].timestamp <= m.timestamp
  }

  /** Taking an earliest chat first and a sorted split of the others gives a
      sorted split of the whole batch. */
  lemma SortedSplitStep(q: seq<Message>, i: nat, done: seq<Message>, rest: seq<Message>)
    requires i < |q| && forall j :: 0 <= j < |q| ==> q[i].timestamp <= q[j].timestamp
    requires SortedSplit(Without(q, i), done, rest)
    ensures SortedSplit(q, [q[i]] + done, rest)
  {
    TakeOut(q, i);
    assert multiset([q[i]] + done) == multiset{q[i]} + multiset(done);
    MembersOfSplit(q, i, done, rest);
    SortedPrepend(q[i], done);
  }

  lemma MembersOfSplit(q: seq<Message>, i: nat, done: seq<Message>, rest: seq<Message>)
    requires i < |q| && forall j :: 0 <= j < |q| ==> q[i].timestamp <= q[j].timestamp
    requires multiset(Without(q, i)) == multiset(done) + multiset(rest)
    ensures forall m :: m in done || m in rest ==> q[i].timestamp <= m.timestamp
  {
    TakeOut(q, i);
    forall m | m in done || m in rest
      ensures q[i].timestamp <= m.timestamp
    {
      assert m in multiset(Without(q, i)) && m in multiset(q);
    }
  }

  lemma CommitThenSorted(s: Sys, mid: Sys, t: Sys, i: nat)
    requires UniqueIds(s.node.queue)
    requires Commits(s, mid, i) && mid.commits <= t.commits
    requires SortedSplit(Cores(mid.node.queue), Chats(t.commits[|mid.commits|..]), Cores(t.node.queue))
    ensures SortedSplit(Cores(s.node.queue), Chats(t.commits[|s.commits|..]), Cores(t.node.queue))
  {
    var cores := Cores(s.node.queue);
    var n := |s.commits|;
    NoneEarlier(s.node.queue, i);
    SortedSplitStep(cores, i, Chats(t.commits[n + 1..]), Cores(t.node.queue));
    assert t.commits[n] == mid.commits[n];
    assert Chats(t.commits[n..]) == [cores[i]] + Chats(t.commits[n + 1..]);
  }

  /** Along a batch run, what has been committed is sorted by time, and comes
      before everything still waiting. */
  lemma {:induction false} BatchIsSorted(cfg: Config, s: Sys, labels: seq<Label>)
    requires Inv(cfg, s) && Possible(cfg, s, labels) && BatchLabels(labels)
    ensures var t := Run(cfg, s, labels);
      && s.commits <= t.commits
      && SortedSplit(Cores(s.node.queue), Chats(t.commits[|s.commits|..]), Cores(t.node.queue))
    decreases |labels|
  {
    if labels != [] {
      var l := labels[0];
      assert l in labels && forall x :: x in labels[1..] ==> x in labels;
      var mid := Apply(cfg, s, l);
      StepMoves(cfg, s, l);
      StepKeepsInv(cfg, s, l);
      BatchIsSorted(cfg, mid, labels[1..]);
      if !Stays(s, mid) {
        var i: nat :| Commits(s, mid, i);
        CommitThenSorted(s, mid, Run(cfg, s, labels), i);
      }
    }
  }

  // ---------- One order ----------

  lemma LastTimesAgree(a: seq<Message>, b: seq<Message>, j: nat)
    requires SortedByTime(a) && SortedByTime(b) && multiset(a) == multiset(b)
    requires a != [] && j < |b| && b[j] == a[|a| - 1]
    ensures b[j].timestamp == b[|b| - 1].timestamp
  {
    assert b[|b| - 1] in multiset(a);
    var k :| 0 <= k < |a| && a[k] == b[|b| - 1];
  }

  /** Dropping a last one of the ties at the end leaves the timestamps as they were. */
  lemma TimesWithout(b: seq<Message>, j: nat)
    requires SortedByTime(b) && j < |b| && b[j].timestamp == b[|b| - 1].timestamp
    ensures SortedByTime(Without(b, j))
    ensures forall i :: 0 <= i < |b| - 1 ==> Without(b, j)[i].timestamp == b[i].timestamp
  {
    forall i | 0 <= i < |b| - 1
      ensures Without(b, j)[i].timestamp == b[i].timestamp
    {
      assert Without(b, j)[i] == b[if i < j then i else i + 1];
    }
  }

  /** Two sorted orders of one multiset show the same timestamps. */
  lemma {:induction false} SortedTimesAgree(a: seq<Message>, b: seq<Message>)
    requires SortedByTime(a) && SortedByTime(b) && multiset(a) == multiset(b)
    ensures |a| == |b| && forall i :: 0 <= i < |a| ==> a[i].timestamp == b[i].timestamp
  {
    assert |multiset(a)| == |a| && |multiset(b)| == |b|;
    if a != [] {
      var n := |a| - 1;
      assert a[n] in multiset(b);
      var j :| 0 <= j < |b| && b[j] == a[n];
      LastTimesAgree(a, b, j);
      TimesWithout(a, n);
      TimesWithout(b, j);
      TakeOut(a, n);
      TakeOut(b, j);
      SortedTimesAgree(Without(a, n), Without(b, j));
    }
  }

  lemma UniqueMeansOnce(q: seq<Message>)
    requires UniqueIds(q)
    ensures forall m :: m in Cores(q) ==> multiset(Cores(q))[m] == 1
    decreases |q|
  {
    if q != [] {
      var n := |q| - 1;
      UniqueMeansOnce(q[..n]);
      assert Cores(q) == Cores(q[..n]) + [Core(q[n])];
      assert Core(q[n]) !in Cores(q[..n]);
    }
  }

  lemma SameElementsSameMultiset(q: seq<Message>, r: seq<Message>)
    requires UniqueIds(q) && UniqueIds(r) && Elements(Cores(q)) == Elements(Cores(r))
    ensures multiset(Cores(q)) == multiset(Cores(r))
  {
    UniqueMeansOnce(q);
    UniqueMeansOnce(r);
    forall m
      ensures multiset(Cores(q))[m] == multiset(Cores(r))[m]
    {
      assert m in Cores(q) <==> m in Elements(Cores(q));
      assert m in Cores(r) <==> m in Elements(Cores(r));
    }
  }

  /** Two nodes, with any thresholds and at any distances from the authors, that
      wait for the same chats commit the same block data in the same order once
      each has committed them all, whatever acks, ticks and other writers came in
      whatever order, when ties agree. */
  lemma BatchCommitsAgree(cfg1: Config, s1: Sys, labels1: seq<Label>, cfg2: Config, s2: Sys, labels2: seq<Label>)
    requires Inv(cfg1, s1) && Possible(cfg1, s1, labels1) && BatchLabels(labels1)
    requires Inv(cfg2, s2) && Possible(cfg2, s2, labels2) && BatchLabels(labels2)
    requires TiesAgree(s1.node.queue)
    requires Elements(Cores(s1.node.queue)) == Elements(Cores(s2.node.queue))
    requires Run(cfg1, s1, labels1).node.queue == [] && Run(cfg2, s2, labels2).node.queue == []
    ensures var t1, t2 := Run(cfg1, s1, labels1), Run(cfg2, s2, labels2);
      && s1.commits <= t1.commits && s2.commits <= t2.commits
      && Datas(t1.commits[|s1.commits|..]) == Datas(t2.commits[|s2.commits|..])
  {
    var t1, t2 := Run(cfg1, s1, labels1), Run(cfg2, s2, labels2);
    BatchIsSorted(cfg1, s1, labels1);
    BatchIsSorted(cfg2, s2, labels2);
    SameElementsSameMultiset(s1.node.queue, s2.node.queue);
    assert Cores(t1.node.queue) == [] && Cores(t2.node.queue) == [];
    SortedChatsAgree(s1.node.queue, t1.commits[|s1.commits|..], t2.commits[|s2.commits|..]);
  }

  lemma SortedChatsAgree(q: seq<Message>, new1: seq<Committed>, new2: seq<Committed>)
    requires TiesAgree(q) && multiset(Chats(new1)) == multiset(Cores(q)) == multiset(Chats(new2))
    requires SortedByTime(Chats(new1)) && SortedByTime(Chats(new2))
    ensures Datas(new1) == Datas(new2)
  {
    SortedTimesAgree(Chats(new1), Chats(new2));
    forall i | 0 <= i < |new1|
      ensures ChatData(new1[i].chat) == ChatData(new2[i].chat)
    {
      CoreIsWaiting(q, Chats(new1), i);
      CoreIsWaiting(q, Chats(new2), i);
      var m1 :| m1 in q && Core(m1) == Chats(new1)[i];
      var m2 :| m2 in q && Core(m2) == Chats(new2)[i];
      DataOfCore(m1, new1[i].chat);
      DataOfCore(m2, new2[i].chat);
      assert m1.timestamp == Core(m1).timestamp == Core(m2).timestamp == m2.timestamp;
    }
    assert |Datas(new1)| == |Datas(new2)|;
  }

  lemma CoreIsWaiting(q: seq<Message>, done: seq<Message>, i: nat)
    requires multiset(done) == multiset(Cores(q)) && i < |done|
    ensures exists m :: m in q && Core(m) == done[i]
  {
    assert done[i] in multiset(Cores(q));
    var k :| 0 <= k < |q| && Cores(q)[k] == done[i];
    assert q[k] in q;
  }

  /** With equal logs before, the nodes' logs are equal afterwards. */
  lemma BatchConfluence(cfg1: Config, s1: Sys, labels1: seq<Label>, cfg2: Config, s2: Sys, labels2: seq<Label>)
    requires Inv(cfg1, s1) && Possible(cfg1, s1, labels1) && BatchLabels(labels1)
    requires Inv(cfg2, s2) && Possible(cfg2, s2, labels2) && BatchLabels(labels2)
    requires AcksCarryRoom(cfg1, labels1) && NoWrites(labels1)
    requires AcksCarryRoom(cfg2, labels2) && NoWrites(labels2)
    requires TiesAgree(s1.node.queue)
    requires Elements(Cores(s1.node.queue)) == Elements(Cores(s2.node.queue))
    requires s1.log == s2.log
    requires Run(cfg1, s1, labels1).node.queue == [] && Run(cfg2, s2, labels2).node.queue == []
    ensures Run(cfg1, s1, labels1).log == Run(cfg2, s2, labels2).log
  {
    BatchCommitsAgree(cfg1, s1, labels1, cfg2, s2, labels2);
    LogGrowsByCommits(cfg1, s1, labels1);
    LogGrowsByCommits(cfg2, s2, labels2);
  }

  /** So the two nodes' chains end in the same hash, whatever the blocks'
      timestamps are. */
  lemma BatchNodesAgreeOnFinalHash(cfg1: Config, s1: Sys, labels1: seq<Label>, chain1: seq<Block>,
                                   cfg2: Config, s2: Sys, labels2: seq<Label>, chain2: seq<Block>)
    requires Inv(cfg1, s1) && Possible(cfg1, s1, labels1) && BatchLabels(labels1)
    requires Inv(cfg2, s2) && Possible(cfg2, s2, labels2) && BatchLabels(labels2)
    requires AcksCarryRoom(cfg1, labels1) && NoWrites(labels1)
    requires AcksCarryRoom(cfg2, labels2) && NoWrites(labels2)
    requires TiesAgree(s1.node.queue)
    requires Elements(Cores(s1.node.queue)) == Elements(Cores(s2.node.queue))
    requires s1.log == s2.log
    requires Run(cfg1, s1, labels1).node.queue == [] && Run(cfg2, s2, labels2).node.queue == []
    requires ValidChain(chain1) && Log(chain1) == Run(cfg1, s1, labels1).log
    requires ValidChain(chain2) && Log(chain2) == Run(cfg2, s2, labels2).log
    ensures FinalHash(chain1) == FinalHash(chain2)
  {
    BatchConfluence(cfg1, s1, labels1, cfg2, s2, labels2);
    FinalHashDecidesLog(chain1, chain2);
  }

  // ---------- Ties decide ----------

  /** Ready chats that tie carry the same data. */
  ghost predicate ReadyTiesAgree(cfg: Config, q: seq<Message>) {
    forall a, b :: Ready(cfg, q, a) && Ready(cfg, q, b) && a.timestamp == b.timestamp ==> ChatData(a) == ChatData(b)
  }

  /** Ticks after which no tick has anything left to do. */
  ghost predicate Settles(cfg: Config, s: Sys, labels: seq<Label>) {
    OnlyTicks(labels) && Quiet(cfg, Run(cfg, s, labels).node)
  }

  /** All schedules of ticks that settle write the same log. */
  ghost predicate OneOutcome(cfg: Config, s: Sys) {
    forall x, y :: Settles(cfg, s, x) && Settles(cfg, s, y) ==> Run(cfg, s, x).log == Run(cfg, s, y).log
  }

  /** A settled schedule has committed each ready chat as often as it waited. */
  lemma SettledChats(cfg: Config, s: Sys, labels: seq<Label>)
    requires UniqueIds(s.node.queue) && Settles(cfg, s, labels)
    ensures var t := Run(cfg, s, labels);
      && s.commits <= t.commits && t.log == s.log + Datas(t.commits[|s.commits|..])
      && (var done := ChatsOf(t.commits[|s.commits|..]);
          && SortedByTime(done) && (forall m :: m in done ==> Ready(cfg, s.node.queue, m))
          && forall m :: multiset(done)[m] == if Ready(cfg, s.node.queue, m) then multiset(s.node.queue)[m] else 0)
  {
    var t := Run(cfg, s, labels);
    TickFixpoint.TickFixpoint(cfg, s, labels);
    TicksMakeProgress(cfg, s, labels);
    var done := ChatsOf(t.commits[|s.commits|..]);
    forall m
      ensures multiset(done)[m] == if Ready(cfg, s.node.queue, m) then multiset(s.node.queue)[m] else 0
    {
      assert m in done <==> m in multiset(done);
      assert m in t.node.queue <==> m in multiset(t.node.queue);
    }
  }

  lemma DataOfChats(new1: seq<Committed>, new2: seq<Committed>)
    requires |new1| == |new2|
    requires forall i :: 0 <= i < |new1| ==> ChatData(ChatsOf(new1)[i]) == ChatData(ChatsOf(new2)[i])
    ensures Datas(new1) == Datas(new2)
  {
    assert forall i :: 0 <= i < |new1| ==> Datas(new1)[i] == ChatData(ChatsOf(new1)[i]);
    assert forall i :: 0 <= i < |new2| ==> Datas(new2)[i] == ChatData(ChatsOf(new2)[i]);
  }

  lemma AgreeingTiesSettleAlike(cfg: Config, s: Sys, x: seq<Label>, y: seq<Label>)
    requires UniqueIds(s.node.queue) && ReadyTiesAgree(cfg, s.node.queue)
    requires Settles(cfg, s, x) && Settles(cfg, s, y)
    ensures Run(cfg, s, x).log == Run(cfg, s, y).log
  {
    SettledChats(cfg, s, x);
    SettledChats(cfg, s, y);
    var new1, new2 := Run(cfg, s, x).commits[|s.commits|..], Run(cfg, s, y).commits[|s.commits|..];
    var done1, done2 := ChatsOf(new1), ChatsOf(new2);
    assert multiset(done1) == multiset(done2);
    SortedTimesAgree(done1, done2);
    forall i | 0 <= i < |done1|
      ensures ChatData(done1[i]) == ChatData(done2[i])
    {
      assert done1[i] in done1 && done2[i] in done2;
    }
    DataOfChats(new1, new2);
  }

  /** Every waiting chat strictly earlier than `time` has its quorum. */
  ghost predicate EarlierHaveQuorum(cfg: Config, q: seq<Message>, time: int) {
    forall m :: m in q && m.timestamp < time ==> HasQuorum(cfg, m)
  }

  /** Ticking a chat with a quorum that no waiting chat precedes commits it. */
  lemma TickFirst(cfg: Config, s: Sys, a: Message)
    requires UniqueIds(s.node.queue) && a in s.node.queue && HasQuorum(cfg, a)
    requires forall m :: m in s.node.queue ==> a.timestamp <= m.timestamp
    ensures var t := Apply(cfg, s, Tick(a.id));
      && UniqueIds(t.node.queue) && |t.node.queue| < |s.node.queue| && t.log == s.log + [ChatData(a)]
      && forall m :: m in t.node.queue <==> m in s.node.queue && m != a
  {
    var i :| 0 <= i < |s.node.queue| && s.node.queue[i] == a;
    FindUnique(s.node.queue, i);
    WithoutMembers(s.node.queue, i);
  }

  /** The ticks that commit everything strictly earlier than `time`. */
  lemma {:induction false} CommitEarlier(cfg: Config, s: Sys, time: int) returns (labels: seq<Label>)
    requires UniqueIds(s.node.queue) && EarlierHaveQuorum(cfg, s.node.queue, time)
    ensures OnlyTicks(labels)
    ensures var t := Run(cfg, s, labels);
      && UniqueIds(t.node.queue)
      && forall m :: m in t.node.queue <==> m in s.node.queue && time <= m.timestamp
    decreases |s.node.queue|
  {
    var q := s.node.queue;
    if q == [] {
      labels := [];
    } else {
      var i := EarliestOf(q);
      if time <= q[i].timestamp {
        labels := [];
        assert forall m :: m in q ==> time <= m.timestamp;
      } else {
        TickFirst(cfg, s, q[i]);
        var rest := CommitEarlier(cfg, Apply(cfg, s, Tick(q[i].id)), time);
        labels := [Tick(q[i].id)] + rest;
        assert labels[1..] == rest;
      }
    }
  }

  /** Two chats with a quorum that no waiting chat precedes can be committed in
      this order. */
  lemma CommitInTurn(cfg: Config, s: Sys, a: Message, b: Message)
    requires UniqueIds(s.node.queue) && a in s.node.queue && b in s.node.queue && a != b
    requires HasQuorum(cfg, a) && HasQuorum(cfg, b) && a.timestamp == b.timestamp
    requires forall m :: m in s.node.queue ==> a.timestamp <= m.timestamp
    ensures var t := Run(cfg, s, [Tick(a.id), Tick(b.id)]);
      UniqueIds(t.node.queue) && t.log == s.log + [ChatData(a), ChatData(b)]
  {
    TickFirst(cfg, s, a);
    var mid := Apply(cfg, s, Tick(a.id));
    TickFirst(cfg, mid, b);
    assert [Tick(a.id), Tick(b.id)][1..] == [Tick(b.id)];
    assert Run(cfg, mid, [Tick(b.id)]) == Run(cfg, Apply(cfg, mid, Tick(b.id)), []);
  }

  /** A schedule that commits `a` right before `b`, once nothing earlier waits. */
  lemma SettleInOrder(cfg: Config, s: Sys, front: seq<Label>, a: Message, b: Message) returns (labels: seq<Label>)
    requires OnlyTicks(front)
    requires var mid := Run(cfg, s, front);
      && UniqueIds(mid.node.queue) && a in mid.node.queue && b in mid.node.queue && a != b
      && HasQuorum(cfg, a) && HasQuorum(cfg, b) && a.timestamp == b.timestamp
      && forall m :: m in mid.node.queue ==> a.timestamp <= m.timestamp
    ensures Settles(cfg, s, labels)
    ensures Run(cfg, s, front).log + [ChatData(a), ChatData(b)] <= Run(cfg, s, labels).log
  {
    var mid := Run(cfg, s, front);
    var two := [Tick(a.id), Tick(b.id)];
    CommitInTurn(cfg, mid, a, b);
    var late := Run(cfg, mid, two);
    var rest := SomeScheduleFinishes(cfg, late);
    assert AcksCarryRoom(cfg, rest) && NoWrites(rest);
    LogGrowsByCommits(cfg, late, rest);
    RunAppend(cfg, s, front, two);
    RunAppend(cfg, s, front + two, rest);
    labels := front + two + rest;
  }

  /** A tie of ready chats with different data leads to two different logs. */
  lemma TieSplits(cfg: Config, s: Sys, a: Message, b: Message)
    requires UniqueIds(s.node.queue) && Ready(cfg, s.node.queue, a) && Ready(cfg, s.node.queue, b)
    requires a.timestamp == b.timestamp && ChatData(a) != ChatData(b)
    ensures !OneOutcome(cfg, s)
  {
    var front := CommitEarlier(cfg, s, a.timestamp);
    var x := SettleInOrder(cfg, s, front, a, b);
    var y := SettleInOrder(cfg, s, front, b, a);
    var log := Run(cfg, s, front).log;
    assert Run(cfg, s, x).log[|log|] == (log + [ChatData(a), ChatData(b)])[|log|];
    assert Run(cfg, s, y).log[|log|] == (log + [ChatData(b), ChatData(a)])[|log|];
  }

  /** From any state whose queued ids are unique, the log that settled ticks leave
      is the same for every schedule exactly when ties of ready chats carry equal
      data. */
  lemma TiesDecideTheLog(cfg: Config, s: Sys)
    requires UniqueIds(s.node.queue)
    ensures OneOutcome(cfg, s) <==> ReadyTiesAgree(cfg, s.node.queue)
  {
    if ReadyTiesAgree(cfg, s.node.queue) {
      forall x, y | Settles(cfg, s, x) && Settles(cfg, s, y)
        ensures Run(cfg, s, x).log == Run(cfg, s, y).log
      {
        AgreeingTiesSettleAlike(cfg, s, x, y);
      }
    } else {
      var q := s.node.queue;
      var a, b :| Ready(cfg, q, a) && Ready(cfg, q, b) && a.timestamp == b.timestamp && ChatData(a) != ChatData(b);
      TieSplits(cfg, s, a, b);
    }
  }
}
