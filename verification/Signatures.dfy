/** When the backers of a commit did sign: exactly when no unsigned ack is
    processed that could count. */
module Signatures {
  import opened GoText
  import opened PeerLog
  import opened PeerHistory
  import opened AckProtocol
  import opened AckRuns
  import opened AckTheorems
  import opened GossipHandler
  import opened QuorumRuns

  /** The ack of `key` for `id` that a run processed carries the key's signature. */
  ghost predicate SignedFor(labels: seq<Label>, id: string, key: string) {
    exists l :: l in labels && l.RunAck? && l.m.publicKey == key && AckTarget(l.m.data) == id && SignedByKey(l.m, key)
  }

  // ---------- What every run keeps besides ----------

  /** Acks never share an id with a chat, and no chat without an id is committed. */
  ghost predicate Apart(cfg: Config, s: Sys) {
    && (forall a :: a in s.acks ==> a.kind == "ack" && a.id in s.node.history && a.id !in s.enqueued)
    && (forall a, m :: a in s.acks && m in s.waiting ==> a.id != m.id)
    && forall c :: c in s.commits ==> c.chat.id != ""
  }

  lemma CommitsAreNamed(cfg: Config, s: Sys, l: Label)
    requires Inv(cfg, s) && cfg.threshold >= 1
    requires l.RunAck? || l.Tick?
    requires forall c :: c in s.commits ==> c.chat.id != ""
    ensures forall c :: c in Apply(cfg, s, l).commits ==> c.chat.id != ""
  {
    match l
    case RunAck(m) =>
    case Tick(id) =>
      var i := Find(s.node.queue, id);
      assert i < |s.node.queue| ==> s.node.queue[i] in s.node.queue;
  }

  lemma StepKeepsApart(cfg: Config, s: Sys, l: Label)
    requires Inv(cfg, s) && Apart(cfg, s) && Enabled(s, l) && cfg.threshold >= 1
    ensures Apart(cfg, Apply(cfg, s, l))
    ensures s.acks <= Apply(cfg, s, l).acks
  {
    match l
    case RunAck(m) =>
      CommitsAreNamed(cfg, s, l);
      AckSectionFrame(cfg, s.node, m);
    case Tick(id) =>
      CommitsAreNamed(cfg, s, l);
    case RunChat(m) =>
      assert m in s.waiting;
    case _ =>
  }

  /** Along a run the acks stay apart from the chats, and every processed ack was
      received. */
  lemma {:induction false} RunKeepsApart(cfg: Config, s: Sys, labels: seq<Label>)
    requires Inv(cfg, s) && Apart(cfg, s) && Possible(cfg, s, labels) && cfg.threshold >= 1
    ensures Apart(cfg, Run(cfg, s, labels)) && s.acks <= Run(cfg, s, labels).acks
    ensures forall l :: l in labels && l.RunAck? ==> l.m in Run(cfg, s, labels).acks
    decreases |labels|
  {
    if labels != [] {
      StepKeepsInv(cfg, s, labels[0]);
      StepKeepsApart(cfg, s, labels[0]);
      RunKeepsApart(cfg, Apply(cfg, s, labels[0]), labels[1..]);
      assert labels == [labels[0]] + labels[1..];
    }
  }

  // ---------- When backers sign ----------

  /** An unsigned ack that some room can count: of a key that can be listed, for a
      chat that is not the ack itself. */
  ghost predicate Unvouched(a: Message) {
    && a.kind == "ack" && !SignedAck(a)
    && Lacks(a.publicKey, {' ', '{', '}'})
    && AckTarget(a.data) != "" && AckTarget(a.data) != a.id
  }

  ghost predicate BackersSignIn(cfg: Config, log: seq<string>, labels: seq<Label>) {
    forall c, key :: c in Run(cfg, Start(log), labels).commits && key in c.backers ==> SignedFor(labels, c.chat.id, key)
  }

  /** If every ack that a run processed is signed by the key it names, every
      backer of every commit signed an ack for the chat. */
  lemma SignedAcksMeanSignedBackers(cfg: Config, log: seq<string>, labels: seq<Label>)
    requires Healthy(log) && Possible(cfg, Start(log), labels)
    requires OnlyAcks(labels, SignedAck)
    ensures BackersSignIn(cfg, log, labels)
  {
    QuorumSafety(cfg, log, labels);
    forall c, key | c in Run(cfg, Start(log), labels).commits && key in c.backers
      ensures SignedFor(labels, c.chat.id, key)
    {
      assert key in AckersIn(labels, c.chat.id);
    }
  }

  /** In every run that only processes acks with `p`, every backer of every commit
      signed an ack for the chat. */
  ghost predicate BackersSign(p: Message -> bool) {
    forall cfg: Config, log: seq<string>, labels: seq<Label> ::
      Healthy(log) && cfg.threshold >= 1 && Possible(cfg, Start(log), labels) && OnlyAcks(labels, p) ==>
        BackersSignIn(cfg, log, labels)
  }

  lemma MembersCanBeListed(log: seq<string>, key: string)
    requires Healthy(log) && key in Members(log)
    ensures Lacks(key, {' ', '{', '}'})
  {}

  lemma VouchedBackersSign(p: Message -> bool, cfg: Config, log: seq<string>, labels: seq<Label>)
    requires forall a :: Unvouched(a) ==> !p(a)
    requires Healthy(log) && cfg.threshold >= 1 && Possible(cfg, Start(log), labels) && OnlyAcks(labels, p)
    ensures BackersSignIn(cfg, log, labels)
  {
    var t := Run(cfg, Start(log), labels);
    QuorumSafety(cfg, log, labels);
    StartSatisfiesInv(cfg, log);
    RunKeepsInv(cfg, Start(log), labels);
    RunKeepsApart(cfg, Start(log), labels);
    forall c, key | c in t.commits && key in c.backers
      ensures SignedFor(labels, c.chat.id, key)
    {
      assert key in AckersIn(labels, c.chat.id);
      var l :| l in labels && l.RunAck? && AckTarget(l.m.data) == c.chat.id && l.m.publicKey == key;
      assert l.m in t.acks && c.chat.id in CommitIds(t.commits) && c.chat.id in t.enqueued;
      MembersCanBeListed(t.log, key);
      assert !Unvouched(l.m);
    }
  }

  lemma {:induction false} PiecesHaveNoSpace(s: string, i: nat)
    requires i < |SplitN(s, ' ', -1)|
    ensures ' ' !in SplitN(s, ' ', -1)[i]
    decreases |s|
  {
    var k := IndexOf(s, ' ');
    if k == |s| {
      assert s[..k] == s;
    } else if i > 0 {
      PiecesHaveNoSpace(s[k + 1..], i - 1);
    }
  }

  /** With threshold 1, one ack of a member commits the chat it names. */
  lemma OneAckCommits(cfg: Config, log: seq<string>, chat: Message, a: Message)
    requires cfg.threshold == 1 && UsableChat(chat)
    requires a.kind == "ack" && AckTarget(a.data) == chat.id && a.id != chat.id && a.publicKey in Members(log)
    ensures var labels := Opening(chat) + OneAck(a);
      && Possible(cfg, Start(log), labels)
      && Run(cfg, Start(log), labels).commits ==
         [Committed(a.roomID, chat.(acksReceived := 1), {a.publicKey})]
  {
    OpeningGathers(cfg, log, chat, Style("", "", key => ""));
    OpeningHistory(cfg, log, chat);
    var s := Run(cfg, Start(log), Opening(chat));
    OneAckRuns(cfg, s, a);
    FirstAckCommits(cfg, s, chat, a);
    RunAppend(cfg, Start(log), Opening(chat), OneAck(a));
  }

  lemma FirstAckCommits(cfg: Config, s: Sys, chat: Message, a: Message)
    requires cfg.threshold == 1 && chat.id != "" && AckTarget(a.data) == chat.id
    requires s.node.queue == [chat.(acksReceived := 0)] && s.commits == []
    requires AcksOf(s.node.processed, chat.id) == {} && AcksOf(s.acked, chat.id) == {}
    ensures Apply(cfg, Received(s, a), RunAck(a)).commits ==
            [Committed(a.roomID, chat.(acksReceived := 1), {a.publicKey})]
  {
    var r := Received(s, a);
    AckOfOnlyChat(cfg, r.node, chat, 0, a);
    assert AckSection(cfg, r.node, a).effects == [Commit(a.roomID, chat.(acksReceived := 1))];
    assert AcksOf(r.acked, chat.id) + {a.publicKey} == {a.publicKey};
  }

  lemma NobodySigned(chat: Message, a: Message)
    requires !SignedAck(a)
    ensures !SignedFor(Opening(chat) + OneAck(a), chat.id, a.publicKey)
    ensures forall l :: l in Opening(chat) + OneAck(a) && l.RunAck? ==> l.m == a
  {}

  /** An unsigned ack that can count does: in a room of its key alone it commits
      a chat that nobody signed for. */
  lemma UnvouchedAckCommits(p: Message -> bool, a: Message)
    requires Unvouched(a) && p(a)
    ensures !BackersSign(p)
  {
    var cfg := Config(a.roomID, 1);
    var log := RoomOf([a.publicKey]);
    assert a.publicKey in Members(log);
    var chat := ChatWithId(AckTarget(a.data));
    TargetHasNoSpace(a.data);
    OneAckCommits(cfg, log, chat, a);
    NobodySigned(chat, a);
    var labels := Opening(chat) + OneAck(a);
    assert Run(cfg, Start(log), labels).commits[0] in Run(cfg, Start(log), labels).commits;
    assert !BackersSignIn(cfg, log, labels);
  }

  lemma TargetHasNoSpace(data: string)
    ensures ' ' !in AckTarget(data)
  {
    if |SplitN(data, ' ', -1)| >= 4 {
      PiecesHaveNoSpace(data, 3);
    }
  }

  /** A chat with the given id. */
  function ChatWithId(id: string): Message {
    Message(id, "chat", "", "", "", 0, 10, "", "", 0)
  }

  lemma OpeningHistory(cfg: Config, log: seq<string>, chat: Message)
    ensures Run(cfg, Start(log), Opening(chat)).node.history == {chat.id}
  {
    assert Run(cfg, Apply(cfg, Start(log), Receive(chat)), [RunChat(chat)]) ==
           Run(cfg, Apply(cfg, Apply(cfg, Start(log), Receive(chat)), RunChat(chat)), []);
    assert Opening(chat)[1..] == [RunChat(chat)];
  }

  /** Every backer of every commit signed, in every run that processes only acks
      with `p`, exactly when `p` admits no unsigned ack that can count. */
  lemma BackersSignExactlyWhen(p: Message -> bool)
    ensures BackersSign(p) <==> forall a :: Unvouched(a) ==> !p(a)
  {
    if a :| Unvouched(a) && p(a) {
      UnvouchedAckCommits(p, a);
    } else {
      forall cfg: Config, log: seq<string>, labels: seq<Label> |
        Healthy(log) && cfg.threshold >= 1 && Possible(cfg, Start(log), labels) && OnlyAcks(labels, p)
        ensures BackersSignIn(cfg, log, labels)
      {
        VouchedBackersSign(p, cfg, log, labels);
      }
    }
  }

  /** The program's first pass admits every ack, and so acks from one sender, with
      signatures that fit no text, commit a chat in the name of any quorum. */
  lemma UnsignedAcksCommit(cfg: Config, log: seq<string>, chat: Message, how: Style, backers: set<string>)
    returns (labels: seq<Label>)
    requires Healthy(log) && UsableChat(chat)
    requires backers <= Members(log) && |backers| == cfg.threshold >= 1
    requires forall text, key :: !Verify(text, how.signature(key), key)
    ensures Possible(cfg, Start(log), labels)
    ensures CommittedBy(cfg, Run(cfg, Start(log), labels), log, chat, how, backers)
    ensures forall l :: l in labels && l.RunAck? ==> l.m.sender == how.sender
    ensures forall key :: !SignedFor(labels, chat.id, key)
  {
    labels := AnyQuorumCommits(cfg, log, chat, how, backers);
  }
}
