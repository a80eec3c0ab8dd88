/** Every quorum can commit: for any set of room members as large as the
    threshold there is a run whose only commit is backed by exactly that set. */
module QuorumRuns {
  import opened GoText
  import opened PeerHistory
  import opened AckProtocol
  import opened AckRuns
  import opened AckTheorems
  import opened GossipHandler

  /** How the acks of a run are sent: the sender and room they show, and the
      signature that goes with each key. */
  datatype Style = Style(sender: string, room: string, signature: string -> string)

  /** An ack of `key` for a chat; its id is new for every key. */
  function AckOf(chat: Message, key: string, how: Style): Message {
    Message(chat.id + " " + key, "ack", AckText(chat.id, chat.publicKey), how.sender, how.room,
            chat.timestamp, 10, key, how.signature(key), 0)
  }

  predicate UsableChat(chat: Message) {
    chat.kind == "chat" && chat.id != "" && ' ' !in chat.id
  }

  lemma AckIdsAreNew(chat: Message, key: string, other: string, how: Style)
    ensures AckOf(chat, key, how).id != chat.id
    ensures AckOf(chat, key, how).id == AckOf(chat, other, how).id ==> key == other
  {
    var id := AckOf(chat, key, how).id;
    assert id[|chat.id| + 1..] == key;
    assert AckOf(chat, other, how).id[|chat.id| + 1..] == other;
  }

  /** The chat waits with the acks of `done`, and every other ack is unseen. */
  ghost predicate Gathering(s: Sys, log: seq<string>, chat: Message, how: Style, done: set<string>) {
    && s.node.queue == [chat.(acksReceived := |done|)]
    && AcksOf(s.acked, chat.id) == done && AcksOf(s.node.processed, chat.id) == done
    && s.log == log && s.commits == []
    && forall key :: key !in done ==> AckOf(chat, key, how).id !in s.node.history
  }

  function Opening(chat: Message): seq<Label> {
    [Receive(chat), RunChat(chat)]
  }

  lemma OpeningGathers(cfg: Config, log: seq<string>, chat: Message, how: Style)
    requires UsableChat(chat)
    ensures Possible(cfg, Start(log), Opening(chat))
    ensures Gathering(Run(cfg, Start(log), Opening(chat)), log, chat, how, {})
  {
    RunOne(cfg, Start(log), Receive(chat));
    var s := Apply(cfg, Start(log), Receive(chat));
    RunOne(cfg, s, RunChat(chat));
    RunAppend(cfg, Start(log), [Receive(chat)], [RunChat(chat)]);
    assert Opening(chat) == [Receive(chat)] + [RunChat(chat)];
    assert s.node.queue + [chat.(acksReceived := 0)] == [chat.(acksReceived := 0)];
    forall key
      ensures AckOf(chat, key, how).id != chat.id
    {
      AckIdsAreNew(chat, key, key, how);
    }
  }

  function OneAck(a: Message): seq<Label> {
    [Receive(a), RunAck(a)]
  }

  lemma OneAckRuns(cfg: Config, s: Sys, a: Message)
    requires a.kind == "ack" && a.id !in s.node.history && a.publicKey in Members(s.log)
    ensures Possible(cfg, s, OneAck(a))
    ensures Run(cfg, s, OneAck(a)) == Apply(cfg, Received(s, a), RunAck(a))
  {
    RunOne(cfg, s, Receive(a));
    RunOne(cfg, Received(s, a), RunAck(a));
    RunAppend(cfg, s, [Receive(a)], [RunAck(a)]);
    assert OneAck(a) == [Receive(a)] + [RunAck(a)];
  }

  /** What one more ack does to a node that waits for one chat. */
  lemma AckOfOnlyChat(cfg: Config, n: Node, chat: Message, count: nat, a: Message)
    requires n.queue == [chat.(acksReceived := count)] && chat.id != ""
    requires AckTarget(a.data) == chat.id && a.publicKey !in AcksOf(n.processed, chat.id)
    ensures var o := AckSection(cfg, n, a);
      var counted := chat.(acksReceived := count + 1);
      && o.node.history == n.history
      && o.node.processed == n.processed[chat.id := AcksOf(n.processed, chat.id) + {a.publicKey}]
      && if count + 1 < cfg.threshold then o.node.queue == [counted] && o.effects == []
         else o.node.queue == [] && o.effects == [Commit(a.roomID, counted)]
  {
    assert Find(n.queue, chat.id) == 0;
    assert n.queue[0 := OneMoreAck(n.queue[0])] == [chat.(acksReceived := count + 1)];
  }

  /** One more ack is counted, or completes the quorum. */
  lemma OneMoreAckGathers(cfg: Config, s: Sys, log: seq<string>, chat: Message, how: Style,
                          done: set<string>, key: string)
    requires UsableChat(chat) && Gathering(s, log, chat, how, done) && key !in done
    ensures var t := Apply(cfg, Received(s, AckOf(chat, key, how)), RunAck(AckOf(chat, key, how)));
      if |done| + 1 < cfg.threshold then Gathering(t, log, chat, how, done + {key})
      else CommittedBy(cfg, t, log, chat, how, done + {key})
  {
    var a := AckOf(chat, key, how);
    var r := Received(s, a);
    AckNamesItsChat(chat.id, chat.publicKey);
    AckOfOnlyChat(cfg, r.node, chat, |done|, a);
    assert |done + {key}| == |done| + 1;
    assert ChatData(chat.(acksReceived := |done| + 1)) == ChatData(chat);
    OthersStayNew(s.node.history, chat, how, done, key);
  }

  lemma OthersStayNew(history: set<string>, chat: Message, how: Style, done: set<string>, key: string)
    requires forall other :: other !in done ==> AckOf(chat, other, how).id !in history
    ensures forall other :: other !in done + {key} ==>
              AckOf(chat, other, how).id !in history + {AckOf(chat, key, how).id}
  {
    forall other | other !in done + {key}
      ensures AckOf(chat, other, how).id !in history + {AckOf(chat, key, how).id}
    {
      AckIdsAreNew(chat, key, other, how);
    }
  }

  /** The run processes no acks but those for the chat in the given style. */
  ghost predicate AcksShow(labels: seq<Label>, chat: Message, how: Style) {
    forall l :: l in labels && l.RunAck? ==> l.m == AckOf(chat, l.m.publicKey, how)
  }

  ghost predicate CommittedBy(cfg: Config, t: Sys, log: seq<string>, chat: Message, how: Style, backers: set<string>) {
    && t.node.queue == []
    && t.commits == [Committed(how.room, chat.(acksReceived := |backers|), backers)]
    && t.log == if how.room == cfg.room then log + [ChatData(chat)] else log
  }

  lemma {:induction false} Gather(cfg: Config, s: Sys, log: seq<string>, chat: Message, how: Style,
                                  done: set<string>, rest: set<string>) returns (labels: seq<Label>)
    requires UsableChat(chat) && Gathering(s, log, chat, how, done)
    requires rest <= Members(log) && rest != {} && done !! rest && |done| + |rest| == cfg.threshold
    ensures Wins(cfg, s, labels, log, chat, how, done + rest)
    decreases |rest|
  {
    var key :| key in rest;
    GatherOne(cfg, s, log, chat, how, done, key);
    labels := OneAck(AckOf(chat, key, how));
    if rest == {key} {
      assert done + {key} == done + rest;
    } else {
      MoveOver(done, rest, key);
      var more := Gather(cfg, Run(cfg, s, labels), log, chat, how, done + {key}, rest - {key});
      WinsLater(cfg, s, labels, more, log, chat, how, done + rest);
      labels := labels + more;
    }
  }

  lemma GatherOne(cfg: Config, s: Sys, log: seq<string>, chat: Message, how: Style, done: set<string>, key: string)
    requires UsableChat(chat) && Gathering(s, log, chat, how, done) && key !in done && key in Members(log)
    ensures var labels := OneAck(AckOf(chat, key, how));
      && Possible(cfg, s, labels) && AcksShow(labels, chat, how)
      && if |done| + 1 < cfg.threshold then Gathering(Run(cfg, s, labels), log, chat, how, done + {key})
         else CommittedBy(cfg, Run(cfg, s, labels), log, chat, how, done + {key})
  {
    OneAckRuns(cfg, s, AckOf(chat, key, how));
    OneMoreAckGathers(cfg, s, log, chat, how, done, key);
  }

  /** The labels are possible, show their acks' style, and end in the commit. */
  ghost predicate Wins(cfg: Config, s: Sys, labels: seq<Label>, log: seq<string>, chat: Message, how: Style,
                       backers: set<string>)
  {
    && Possible(cfg, s, labels) && AcksShow(labels, chat, how)
    && CommittedBy(cfg, Run(cfg, s, labels), log, chat, how, backers)
  }

  lemma WinsLater(cfg: Config, s: Sys, front: seq<Label>, more: seq<Label>, log: seq<string>, chat: Message, how: Style,
                  backers: set<string>)
    requires Possible(cfg, s, front) && AcksShow(front, chat, how)
    requires Wins(cfg, Run(cfg, s, front), more, log, chat, how, backers)
    ensures Wins(cfg, s, front + more, log, chat, how, backers)
  {
    RunAppend(cfg, s, front, more);
  }

  lemma MoveOver(done: set<string>, rest: set<string>, key: string)
    requires key in rest && done !! rest && rest != {key}
    ensures done + {key} + (rest - {key}) == done + rest && rest - {key} != {} && (done + {key}) !! (rest - {key})
    ensures |done + {key}| == |done| + 1 && |rest - {key}| == |rest| - 1
  {
    assert rest == (rest - {key}) + {key};
  }

  /** Whoever its members are: a set of room members as large as the threshold
      can commit any chat, and nobody else need ack it. */
  lemma AnyQuorumCommits(cfg: Config, log: seq<string>, chat: Message, how: Style, backers: set<string>)
    returns (labels: seq<Label>)
    requires Healthy(log) && UsableChat(chat)
    requires backers <= Members(log) && |backers| == cfg.threshold >= 1
    ensures Possible(cfg, Start(log), labels) && AcksShow(labels, chat, how)
    ensures CommittedBy(cfg, Run(cfg, Start(log), labels), log, chat, how, backers)
    ensures Members(Run(cfg, Start(log), labels).log) == Members(log)
  {
    labels := GatherAll(cfg, log, chat, how, backers);
    ChatKeepsMembers(log, chat);
  }

  lemma GatherAll(cfg: Config, log: seq<string>, chat: Message, how: Style, backers: set<string>)
    returns (labels: seq<Label>)
    requires UsableChat(chat)
    requires backers <= Members(log) && |backers| == cfg.threshold >= 1
    ensures Wins(cfg, Start(log), labels, log, chat, how, backers)
  {
    OpeningGathers(cfg, log, chat, how);
    var none: set<string> := {};
    assert none + backers == backers && none !! backers && |none| + |backers| == cfg.threshold;
    var acks := Gather(cfg, Run(cfg, Start(log), Opening(chat)), log, chat, how, none, backers);
    WinsLater(cfg, Start(log), Opening(chat), acks, log, chat, how, backers);
    labels := Opening(chat) + acks;
  }

  lemma ChatKeepsMembers(log: seq<string>, chat: Message)
    requires Healthy(log)
    ensures Members(log + [ChatData(chat)]) == Members(log)
  {
    ChatIsNoPeerBlock(chat);
    MembersNeverShrink(log, Other(ChatData(chat)));
  }

  // ---------- Honest acks ----------

  /** Every ack that the run processes satisfies `p`. */
  ghost predicate OnlyAcks(labels: seq<Label>, p: Message -> bool) {
    forall l :: l in labels && l.RunAck? ==> p(l.m)
  }

  ghost predicate AnyAck(m: Message) {
    true
  }

  /** The ack is signed by the key it names. */
  ghost predicate SignedAck(m: Message) {
    SignedByKey(m, m.publicKey)
  }

  /** A way to sign any text for any key. */
  ghost predicate Signs(sign: (string, string) -> string) {
    forall text, key :: Verify(text, sign(text, key), key)
  }

  /** What `GossipMessage` signs for the ack of `key`. */
  function AckedText(chat: Message, key: string): string {
    chat.id + " " + key + "ack" + AckText(chat.id, chat.publicKey) + Itoa(chat.timestamp)
  }

  /** The style in which every key signs its own ack of the chat. */
  function Honest(chat: Message, room: string, sign: (string, string) -> string): Style {
    Style("", room, key => sign(AckedText(chat, key), key))
  }

  lemma HonestAcksAreSigned(chat: Message, key: string, room: string, sign: (string, string) -> string)
    requires Signs(sign)
    ensures SignedAck(AckOf(chat, key, Honest(chat, room, sign)))
  {
    var a := AckOf(chat, key, Honest(chat, room, sign));
    assert SignedForms(a)[0] == AckedText(chat, key);
  }

  // ---------- What the room of an ack decides ----------

  /** When the acks of a quorum carry another room, the node's own log loses the
      chat: it counts as committed, is not in the log, and no continuation of the
      run commits it again. */
  lemma AcksForOtherRoomLoseChat(cfg: Config, log: seq<string>, chat: Message, how: Style, backers: set<string>)
    returns (labels: seq<Label>)
    requires Healthy(log) && UsableChat(chat) && how.room != cfg.room
    requires backers <= Members(log) && |backers| == cfg.threshold >= 1
    ensures Possible(cfg, Start(log), labels)
    ensures var t := Run(cfg, Start(log), labels);
      && chat.id in CommitIds(t.commits) && t.log == log
      && forall more :: Possible(cfg, t, more) ==>
           var u := Run(cfg, t, more);
           && chat.id !in Ids(u.node.queue)
           && forall k :: |t.commits| <= k < |u.commits| ==> u.commits[k].chat.id != chat.id
  {
    labels := AnyQuorumCommits(cfg, log, chat, how, backers);
    var t := Run(cfg, Start(log), labels);
    assert t.commits[0] in t.commits;
    ReachableSatisfiesInv(cfg, log, labels);
    forall more | Possible(cfg, t, more)
      ensures chat.id !in Ids(Run(cfg, t, more).node.queue)
      ensures forall k :: |t.commits| <= k < |Run(cfg, t, more).commits| ==>
                Run(cfg, t, more).commits[k].chat.id != chat.id
    {
      RemovedChatsStayRemoved(cfg, t, more, chat.id);
    }
  }
}
