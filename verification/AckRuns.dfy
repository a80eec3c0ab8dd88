/** Runs of one node in ack mode: handlers of received messages, the goroutines
    of queued chats and the other writers of the room's log interleave freely,
    one mutex section at a time.

    The runs allow more than the program: an ack's section may run any number of
    times (the program runs it twice), and ticks and timers of any id may fire at
    any time.  What holds of every run here holds of every run of the program. */
module AckRuns {
  import opened GoText
  import opened PeerLog
  import opened PeerHistory
  import opened AckProtocol

  datatype Label =
    | Receive(m: Message)    // lines 588-594
    | RunAck(m: Message)     // lines 604 and 635, for an ack
    | RunChat(m: Message)    // lines 704-752
    | Tick(id: string)       // lines 768-806
    | Timeout(id: string)    // lines 809-816
    | Write(e: Event)        // another writer of the room's log

  /** A committed chat with the peers whose acks had been processed by then. */
  datatype Committed = Committed(room: string, chat: Message, backers: set<string>)

  /** The node, the log of its room and the history of the run: acks received,
      chats received whose section is still to run, ids ever enqueued, acks ever
      processed, commits in order, ids dropped by a timer. */
  datatype Sys = Sys(
    node: Node,
    log: seq<string>,
    acks: set<Message>,
    waiting: set<Message>,
    enqueued: set<string>,
    acked: map<string, set<string>>,
    commits: seq<Committed>,
    dropped: set<string>)

  function Start(log: seq<string>): Sys {
    Sys(Node({}, [], map[], map[]), log, {}, {}, {}, map[], [], {})
  }

  predicate Enabled(s: Sys, l: Label) {
    match l
    case RunAck(m) => m in s.acks && m.publicKey in Members(s.log)
    case RunChat(m) => m in s.waiting
    case Write(e) => Admissible(e)
    case _ => true
  }

  /** Enters the commits of a section into the room's log and the history. */
  function Book(cfg: Config, s: Sys, effects: seq<Effect>): Sys {
    if effects == [] || !effects[0].Commit? then s
    else
      var c := effects[0];
      s.(commits := s.commits + [Committed(c.room, c.chat, AcksOf(s.acked, c.chat.id))],
         log := if c.room == cfg.room then s.log + [ChatData(c.chat)] else s.log)
  }

  function Received(s: Sys, m: Message): Sys {
    if m.id in s.node.history then s
    else
      s.(node := s.node.(history := s.node.history + {m.id}),
         acks := if m.kind == "ack" then s.acks + {m} else s.acks,
         waiting := if m.kind == "chat" then s.waiting + {m} else s.waiting)
  }

  function Apply(cfg: Config, s: Sys, l: Label): Sys {
    match l
    case Receive(m) => Received(s, m)
    case RunAck(m) =>
      var o := AckSection(cfg, s.node, m);
      var id := AckTarget(m.data);
      Book(cfg, s.(node := o.node, acked := s.acked[id := AcksOf(s.acked, id) + {m.publicKey}]), o.effects)
    case RunChat(m) =>
      s.(node := EnqueueSection(s.node, m), waiting := s.waiting - {m}, enqueued := s.enqueued + {m.id})
    case Tick(id) =>
      var o := TickSection(cfg, s.node, id);
      Book(cfg, s.(node := o.node), o.effects)
    case Timeout(id) =>
      s.(node := TimeoutSection(s.node, id),
         dropped := if id in Ids(s.node.queue) then s.dropped + {id} else s.dropped)
    case Write(e) =>
      (match After(s.log, e)
       case None => s
       case Some(log) => s.(log := log))
  }

  function Run(cfg: Config, s: Sys, labels: seq<Label>): Sys
    decreases |labels|
  {
    if labels == [] then s else Run(cfg, Apply(cfg, s, labels[0]), labels[1..])
  }

  predicate Possible(cfg: Config, s: Sys, labels: seq<Label>)
    decreases |labels|
  {
    labels == [] || (Enabled(s, labels[0]) && Possible(cfg, Apply(cfg, s, labels[0]), labels[1..]))
  }

  lemma {:induction false} RunAppend(cfg: Config, s: Sys, a: seq<Label>, b: seq<Label>)
    ensures Run(cfg, s, a + b) == Run(cfg, Run(cfg, s, a), b)
    ensures Possible(cfg, s, a + b) <==> Possible(cfg, s, a) && Possible(cfg, Run(cfg, s, a), b)
    decreases |a|
  {
    if a == [] {
      assert a + b == b;
    } else {
      assert (a + b)[0] == a[0] && (a + b)[1..] == a[1..] + b;
      RunAppend(cfg, Apply(cfg, s, a[0]), a[1..], b);
    }
  }

  lemma RunOne(cfg: Config, s: Sys, l: Label)
    ensures Run(cfg, s, [l]) == Apply(cfg, s, l)
    ensures Possible(cfg, s, [l]) <==> Enabled(s, l)
  {}

  // ---------- The invariant ----------

  function CommitIds(commits: seq<Committed>): set<string> {
    set c | c in commits :: c.chat.id
  }

  /** What `AcksReceived` has to be. */
  function Count(acked: map<string, set<string>>, id: string): nat {
    if id == "" then 0 else |AcksOf(acked, id)|
  }

  /** `processedAcks` holds exactly the acks ever processed. */
  ghost predicate Accounting(s: Sys) {
    forall id :: AcksOf(s.node.processed, id) == AcksOf(s.acked, id)
  }

  /** A queued chat counts every peer whose ack was ever processed, once. */
  ghost predicate Counted(s: Sys) {
    && UniqueIds(s.node.queue)
    && forall m :: m in s.node.queue ==> m.acksReceived == Count(s.acked, m.id)
  }

  ghost predicate DistinctKeys(acks: seq<Message>) {
    forall i, j :: 0 <= i < j < |acks| ==> acks[i].publicKey != acks[j].publicKey
  }

  /** The buffered acks of `id` are one for each peer that has acked it. */
  ghost predicate Buffered(s: Sys, id: string) {
    && DistinctKeys(PendingOf(s.node.pending, id))
    && Keys(PendingOf(s.node.pending, id)) == AcksOf(s.acked, id)
  }

  ghost predicate Early(s: Sys) {
    && "" !in s.node.pending
    && forall id :: id != "" && id !in s.enqueued ==> Buffered(s, id)
  }

  /** Every chat that was enqueued is queued, committed or dropped: one of the
      three, and committed at most once. */
  ghost predicate Conserved(s: Sys) {
    && s.enqueued == Ids(s.node.queue) + CommitIds(s.commits) + s.dropped
    && Ids(s.node.queue) !! CommitIds(s.commits) !! s.dropped
    && forall i, j :: 0 <= i < j < |s.commits| ==> s.commits[i].chat.id != s.commits[j].chat.id
  }

  /** `messageHistory` lets one handler through for each id. */
  ghost predicate Handlers(s: Sys) {
    && s.enqueued <= s.node.history
    && (forall m :: m in s.waiting ==> m.id in s.node.history && m.id !in s.enqueued)
    && forall m, o :: m in s.waiting && o in s.waiting && m.id == o.id ==> m == o
  }

  ghost predicate BackedBy(cfg: Config, s: Sys, c: Committed) {
    cfg.threshold <= |c.backers| && c.backers <= AcksOf(s.acked, c.chat.id)
  }

  ghost predicate Backed(cfg: Config, s: Sys) {
    forall c :: c in s.commits ==> BackedBy(cfg, s, c)
  }

  /** Acks are only processed from peers that are, and stay, room members. */
  ghost predicate FromMembers(s: Sys) {
    && Healthy(s.log)
    && forall id :: AcksOf(s.acked, id) <= Members(s.log)
  }

  ghost predicate Inv(cfg: Config, s: Sys) {
    Accounting(s) && Counted(s) && Early(s) && Conserved(s) && Handlers(s) && Backed(cfg, s) && FromMembers(s)
  }

  lemma StartSatisfiesInv(cfg: Config, log: seq<string>)
    requires Healthy(log)
    ensures Inv(cfg, Start(log))
  {}

  // ---------- Each section keeps the invariant ----------

  lemma ReceiveKeepsInv(cfg: Config, s: Sys, m: Message)
    requires Inv(cfg, s)
    ensures Inv(cfg, Apply(cfg, s, Receive(m)))
  {}

  lemma WriteKeepsInv(cfg: Config, s: Sys, e: Event)
    requires Inv(cfg, s) && Admissible(e)
    ensures Inv(cfg, Apply(cfg, s, Write(e)))
  {
    MembersNeverShrink(s.log, e);
    var t := Apply(cfg, s, Write(e));
    assert forall id :: id != "" && id !in t.enqueued ==> Buffered(s, id);
    assert forall c :: c in t.commits ==> BackedBy(cfg, s, c);
  }

  lemma TimeoutKeepsInv(cfg: Config, s: Sys, id: string)
    requires Inv(cfg, s)
    ensures Inv(cfg, Apply(cfg, s, Timeout(id)))
  {
    var t := Apply(cfg, s, Timeout(id));
    var q := s.node.queue;
    FindInIds(q, id);
    if id in Ids(q) {
      WithoutMembers(q, Find(q, id));
    }
    assert forall x :: x != "" && x !in t.enqueued ==> Buffered(s, x);
    assert forall c :: c in t.commits ==> BackedBy(cfg, s, c);
  }

  /** The section never finds its chat already queued, and counting the early
      acks afresh gives every peer that has acked so far. */
  lemma EnqueueSectionOutcome(cfg: Config, s: Sys, m: Message)
    requires Inv(cfg, s) && m in s.waiting
    ensures m.id !in Ids(s.node.queue)
    ensures EnqueueSection(s.node, m).queue == s.node.queue + [m.(acksReceived := Count(s.acked, m.id))]
    ensures m.id !in EnqueueSection(s.node, m).pending
    ensures forall id :: AcksOf(EnqueueSection(s.node, m).processed, id) == AcksOf(s.acked, id)
  {}

  lemma RunChatKeepsInv(cfg: Config, s: Sys, m: Message)
    requires Inv(cfg, s) && m in s.waiting
    ensures Inv(cfg, Apply(cfg, s, RunChat(m)))
  {
    EnqueueSectionOutcome(cfg, s, m);
    var t := Apply(cfg, s, RunChat(m));
    OneMoreQueued(s.node.queue, m.(acksReceived := Count(s.acked, m.id)));
    EnqueuedConserves(cfg, s, m);
    assert Handlers(t);
    assert forall id :: id != "" && id !in t.enqueued ==> Buffered(s, id);
    assert forall c :: c in t.commits ==> BackedBy(cfg, s, c);
  }

  lemma OneMoreQueued(q: seq<Message>, chat: Message)
    requires UniqueIds(q) && chat.id !in Ids(q)
    ensures UniqueIds(q + [chat]) && Ids(q + [chat]) == Ids(q) + {chat.id}
    ensures forall x :: x in q + [chat] <==> x in q || x == chat
  {}

  lemma EnqueuedConserves(cfg: Config, s: Sys, m: Message)
    requires Inv(cfg, s) && m in s.waiting
    ensures Conserved(Apply(cfg, s, RunChat(m)))
  {
    EnqueueSectionOutcome(cfg, s, m);
    OneMoreQueued(s.node.queue, m.(acksReceived := Count(s.acked, m.id)));
  }

  lemma ChatIsNoPeerBlock(m: Message)
    ensures !HasPrefix(ChatData(m), PEER_PREFIX)
  {
    assert ChatData(m)[0] == 'C';
  }

  /** The state in which the chat at `i` has left the queue for the commits. */
  function Moved(cfg: Config, s: Sys, i: nat, room: string): Sys
    requires i < |s.node.queue|
  {
    Book(cfg, s.(node := s.node.(queue := Without(s.node.queue, i))), [Commit(room, s.node.queue[i])])
  }

  lemma MovedConserves(cfg: Config, s: Sys, i: nat, room: string)
    requires UniqueIds(s.node.queue) && Conserved(s) && i < |s.node.queue|
    ensures Conserved(Moved(cfg, s, i, room))
  {
    var chat := s.node.queue[i];
    var t := Moved(cfg, s, i, room);
    WithoutMembers(s.node.queue, i);
    assert chat in s.node.queue && chat.id in Ids(s.node.queue);
    assert CommitIds(t.commits) == CommitIds(s.commits) + {chat.id} by {
      assert t.commits[|s.commits|].chat == chat;
      assert forall x :: x in s.commits ==> x in t.commits;
    }
    assert forall k :: 0 <= k < |s.commits| ==> s.commits[k].chat.id in CommitIds(s.commits);
  }

  lemma MovedIsBacked(cfg: Config, s: Sys, i: nat, room: string)
    requires Counted(s) && Backed(cfg, s) && i < |s.node.queue|
    requires s.node.queue[i].acksReceived >= cfg.threshold
    ensures Backed(cfg, Moved(cfg, s, i, room))
  {}

  /** Committing a chat that has enough acks keeps the invariant. */
  lemma CommitKeepsInv(cfg: Config, s: Sys, i: nat, room: string)
    requires Inv(cfg, s) && i < |s.node.queue|
    requires s.node.queue[i].acksReceived >= cfg.threshold
    ensures Inv(cfg, Moved(cfg, s, i, room))
  {
    var chat := s.node.queue[i];
    var t := Moved(cfg, s, i, room);
    MovedConserves(cfg, s, i, room);
    MovedIsBacked(cfg, s, i, room);
    WithoutMembers(s.node.queue, i);
    ChatIsNoPeerBlock(chat);
    MembersNeverShrink(s.log, Other(ChatData(chat)));
    assert forall x :: x != "" && x !in t.enqueued ==> Buffered(s, x);
  }

  lemma TickKeepsInv(cfg: Config, s: Sys, id: string)
    requires Inv(cfg, s)
    ensures Inv(cfg, Apply(cfg, s, Tick(id)))
  {
    var i := Find(s.node.queue, id);
    if TickSection(cfg, s.node, id).effects != [] {
      CommitKeepsInv(cfg, s, i, cfg.room);
    }
  }

  /** The state after an ack before any commit: the ack is recorded, and its
      chat is counted up or the ack is buffered. */
  function Counting(s: Sys, m: Message): Sys {
    var id := AckTarget(m.data);
    var acked := s.acked[id := AcksOf(s.acked, id) + {m.publicKey}];
    var i := Find(s.node.queue, id);
    if m.publicKey in AcksOf(s.node.processed, id) then s.(acked := acked)
    else
      var n1 := s.node.(processed := s.node.processed[id := AcksOf(s.node.processed, id) + {m.publicKey}]);
      if id == "" then s.(node := n1, acked := acked)
      else if i == |s.node.queue| then
        s.(node := n1.(pending := s.node.pending[id := PendingOf(s.node.pending, id) + [m]]), acked := acked)
      else
        var chat := s.node.queue[i].(acksReceived := s.node.queue[i].acksReceived + 1);
        s.(node := n1.(queue := s.node.queue[i := chat]), acked := acked)
  }

  /** A repeated ack from one peer changes nothing. */
  lemma RepeatedAckKeepsInv(cfg: Config, s: Sys, m: Message)
    requires Inv(cfg, s) && m.publicKey in AcksOf(s.node.processed, AckTarget(m.data))
    ensures Inv(cfg, Counting(s, m))
    ensures forall id :: AcksOf(Counting(s, m).acked, id) == AcksOf(s.acked, id)
  {}

  lemma FreshAckAdds(s: Sys, m: Message)
    requires Accounting(s) && m.publicKey !in AcksOf(s.node.processed, AckTarget(m.data))
    ensures Accounting(Counting(s, m))
    ensures var id, t := AckTarget(m.data), Counting(s, m);
      && AcksOf(t.acked, id) == AcksOf(s.acked, id) + {m.publicKey}
      && |AcksOf(t.acked, id)| == |AcksOf(s.acked, id)| + 1
      && forall x :: x != id ==> AcksOf(t.acked, x) == AcksOf(s.acked, x)
  {
    var id, t := AckTarget(m.data), Counting(s, m);
    assert t.node.processed == s.node.processed[id := AcksOf(s.node.processed, id) + {m.publicKey}];
    forall x
      ensures AcksOf(t.node.processed, x) == AcksOf(t.acked, x)
    {
      assert AcksOf(s.node.processed, x) == AcksOf(s.acked, x);
    }
  }

  /** Counting one more ack for the chat at `i` and no other chat. */
  lemma CountUp(q: seq<Message>, i: nat, before: map<string, set<string>>, after: map<string, set<string>>)
    requires UniqueIds(q) && i < |q| && q[i].id != ""
    requires forall m :: m in q ==> m.acksReceived == Count(before, m.id)
    requires Count(after, q[i].id) == Count(before, q[i].id) + 1
    requires forall x :: x != q[i].id ==> AcksOf(after, x) == AcksOf(before, x)
    ensures var r := q[i := q[i].(acksReceived := q[i].acksReceived + 1)];
      && UniqueIds(r) && Ids(r) == Ids(q)
      && forall m :: m in r ==> m.acksReceived == Count(after, m.id)
  {
    var chat := q[i].(acksReceived := q[i].acksReceived + 1);
    assert q[i] in q;
    UpdateMembers(q, i, chat);
  }

  lemma FreshAckCounts(s: Sys, m: Message)
    requires Accounting(s) && Counted(s)
    requires m.publicKey !in AcksOf(s.node.processed, AckTarget(m.data))
    ensures Counted(Counting(s, m)) && Ids(Counting(s, m).node.queue) == Ids(s.node.queue)
  {
    var t := Counting(s, m);
    var q := s.node.queue;
    var id := AckTarget(m.data);
    var i := Find(q, id);
    FreshAckAdds(s, m);
    FindInIds(q, id);
    if id != "" && i < |q| {
      CountUp(q, i, s.acked, t.acked);
    } else {
      assert t.node.queue == q;
      forall x | x in q
        ensures x.acksReceived == Count(t.acked, x.id)
      {
        assert x.id in Ids(q);
      }
    }
  }

  lemma FreshAckBuffers(cfg: Config, s: Sys, m: Message)
    requires Inv(cfg, s) && m.publicKey !in AcksOf(s.node.processed, AckTarget(m.data))
    ensures Early(Counting(s, m))
  {
    var t := Counting(s, m);
    var id := AckTarget(m.data);
    FindInIds(s.node.queue, id);
    forall x | x != "" && x !in t.enqueued
      ensures Buffered(t, x)
    {
      assert Buffered(s, x);
      if x == id {
        FreshAckAdds(s, m);
        assert PendingOf(t.node.pending, id) == PendingOf(s.node.pending, id) + [m];
        OneMoreKey(PendingOf(s.node.pending, id), m);
      } else {
        assert PendingOf(t.node.pending, x) == PendingOf(s.node.pending, x);
        assert AcksOf(t.acked, x) == AcksOf(s.acked, x);
      }
    }
  }

  lemma OneMoreKey(acks: seq<Message>, m: Message)
    requires DistinctKeys(acks) && m.publicKey !in Keys(acks)
    ensures DistinctKeys(acks + [m])
    ensures Keys(acks + [m]) == Keys(acks) + {m.publicKey}
  {}

  lemma FreshAckKeepsInv(cfg: Config, s: Sys, m: Message)
    requires Inv(cfg, s) && m.publicKey in Members(s.log)
    requires m.publicKey !in AcksOf(s.node.processed, AckTarget(m.data))
    ensures Inv(cfg, Counting(s, m))
  {
    FreshAckAdds(s, m);
    FreshAckCounts(s, m);
    FreshAckBuffers(cfg, s, m);
    FreshAckIsBacked(cfg, s, m);
    FreshAckFrame(s, m);
    assert Conserved(Counting(s, m)) && Handlers(Counting(s, m));
  }

  lemma FreshAckFrame(s: Sys, m: Message)
    ensures var t := Counting(s, m);
      && t.node.history == s.node.history && t.log == s.log && t.waiting == s.waiting
      && t.enqueued == s.enqueued && t.commits == s.commits && t.dropped == s.dropped
  {}

  lemma FreshAckIsBacked(cfg: Config, s: Sys, m: Message)
    requires Backed(cfg, s) && Accounting(s) && m.publicKey !in AcksOf(s.node.processed, AckTarget(m.data))
    ensures Backed(cfg, Counting(s, m))
  {}

  /** What an ack does beyond the counting: nothing, or one commit. */
  lemma AckIsCountingThenCommit(cfg: Config, s: Sys, m: Message)
    requires UniqueIds(s.node.queue)
    ensures var t, c := Apply(cfg, s, RunAck(m)), Counting(s, m);
      || t == c
      || (var i := Find(s.node.queue, AckTarget(m.data));
          && i < |c.node.queue| && c.node.queue[i].acksReceived >= cfg.threshold && CanSave(c.node.queue, i)
          && t == Moved(cfg, c, i, m.roomID))
  {}

  lemma RunAckKeepsInv(cfg: Config, s: Sys, m: Message)
    requires Inv(cfg, s) && m.publicKey in Members(s.log)
    ensures Inv(cfg, Apply(cfg, s, RunAck(m)))
  {
    var id := AckTarget(m.data);
    if m.publicKey in AcksOf(s.node.processed, id) {
      RepeatedAckKeepsInv(cfg, s, m);
    } else {
      FreshAckKeepsInv(cfg, s, m);
      AckIsCountingThenCommit(cfg, s, m);
      var c := Counting(s, m);
      if Apply(cfg, s, RunAck(m)) != c {
        CommitKeepsInv(cfg, c, Find(s.node.queue, id), m.roomID);
      }
    }
  }

  lemma StepKeepsInv(cfg: Config, s: Sys, l: Label)
    requires Inv(cfg, s) && Enabled(s, l)
    ensures Inv(cfg, Apply(cfg, s, l))
  {
    match l
    case Receive(m) => ReceiveKeepsInv(cfg, s, m);
    case RunAck(m) => RunAckKeepsInv(cfg, s, m);
    case RunChat(m) => RunChatKeepsInv(cfg, s, m);
    case Tick(id) => TickKeepsInv(cfg, s, id);
    case Timeout(id) => TimeoutKeepsInv(cfg, s, id);
    case Write(e) => WriteKeepsInv(cfg, s, e);
  }

  lemma {:induction false} RunKeepsInv(cfg: Config, s: Sys, labels: seq<Label>)
    requires Inv(cfg, s) && Possible(cfg, s, labels)
    ensures Inv(cfg, Run(cfg, s, labels))
    decreases |labels|
  {
    if labels != [] {
      StepKeepsInv(cfg, s, labels[0]);
      RunKeepsInv(cfg, Apply(cfg, s, labels[0]), labels[1..]);
    }
  }
}
