/** Whom a node believes: which messages it accepts, who signed the chats it queues
    and commits, and what its own ack says and does
    (`authenticateMessage`, `GossipMessage` and the chat case of
    `processGossipMessage` in `src/network_gossip/network_gossip.go`). */
module Acceptance {
  import opened GoText
  import opened ChainStore
  import opened PeerHistory
  import opened AckProtocol
  import opened AckRuns
  import opened AckTheorems
  import opened CommitOrder
  import opened GossipHandler

  // ---------- Signatures ----------

  /** The signature fits the message under its own key, in one of the five forms
      of lines 218-227. */
  ghost predicate Fits(m: Message) {
    || Verify(m.id + m.kind + m.data + Itoa(m.timestamp), m.signature, m.publicKey)
    || Verify(m.data, m.signature, m.publicKey)
    || Verify(m.id + m.kind + m.data, m.signature, m.publicKey)
    || Verify(m.kind + m.data + Itoa(m.timestamp), m.signature, m.publicKey)
    || Verify(m.id + m.kind + m.data + Itoa(m.timestamp) + Itoa(m.ttl), m.signature, m.publicKey)
  }

  lemma FitsIsSigned(m: Message)
    ensures Fits(m) <==> SignedByKey(m, m.publicKey)
  {
    var forms := SignedForms(m);
    assert |forms| == 5;
    if SignedByKey(m, m.publicKey) {
      var i :| 0 <= i < |forms| && Verify(forms[i], m.signature, m.publicKey);
      assert i == 0 || i == 1 || i == 2 || i == 3 || i == 4;
    } else {
      assert !Verify(forms[0], m.signature, m.publicKey) && !Verify(forms[1], m.signature, m.publicKey)
          && !Verify(forms[2], m.signature, m.publicKey) && !Verify(forms[3], m.signature, m.publicKey)
          && !Verify(forms[4], m.signature, m.publicKey);
    }
  }

  /** Authentication against a peer: when it is on, the peer is a member of the
      room, the message names the peer's key and this room, and its signature
      fits; when it is off, anything goes. */
  lemma AuthenticExactlyWhen(st: Settings, members: set<string>, key: string, m: Message)
    ensures AuthenticFrom(st, members, key, m) <==>
            st.disableAuth || (key in members && key == m.publicKey && m.roomID == st.cfg.room && Fits(m))
  {
    FitsIsSigned(m);
  }

  /** With authentication on, a new message is accepted exactly when it is from a
      known member of this room, for this room, with a signature that fits, and is
      not the node's own heartbeat. */
  lemma AcceptedExactlyWhen(st: Settings, members: set<string>, known: set<string>, n: Node, m: Message)
    requires !st.disableAuth
    ensures Accepted(st, members, known, n, m) <==>
            && m.id !in n.history
            && m.publicKey in known && m.publicKey in members && m.roomID == st.cfg.room
            && Fits(m)
            && (m.kind == "heartbeat" ==> m.publicKey != st.ownKey)
  {
    FitsIsSigned(m);
  }

  /** A message other than an ack whose signature fits in no form is remembered and
      otherwise ignored: nothing is acked, queued, committed, cleared or passed on. */
  lemma ForgedMessageDoesNothing(st: Settings, members: set<string>, known: set<string>, n: Node,
                                 m: Message, ack: Message)
    requires !st.disableAuth && m.kind != "ack" && m.id !in n.history
    requires !Verify(m.id + m.kind + m.data + Itoa(m.timestamp), m.signature, m.publicKey)
    requires !Verify(m.data, m.signature, m.publicKey)
    requires !Verify(m.id + m.kind + m.data, m.signature, m.publicKey)
    requires !Verify(m.kind + m.data + Itoa(m.timestamp), m.signature, m.publicKey)
    requires !Verify(m.id + m.kind + m.data + Itoa(m.timestamp) + Itoa(m.ttl), m.signature, m.publicKey)
    ensures Handle(st, members, known, n, m, ack) == Outcome(Seen(n, m.id), [])
    ensures !Accepted(st, members, known, n, m)
  {
    AcceptedExactlyWhen(st, members, known, n, m);
  }

  /** A known member's chat for this room, signed in the current form, is accepted
      and, in ack mode, queued. */
  lemma SignedChatIsQueued(st: Settings, members: set<string>, known: set<string>, n: Node, m: Message, ack: Message)
    requires m.id !in n.history && m.kind == "chat" && st.blockChainState && !st.noAckBlockchainSave
    requires m.publicKey in known && m.publicKey in members && m.roomID == st.cfg.room
    requires Verify(m.id + m.kind + m.data + Itoa(m.timestamp), m.signature, m.publicKey)
    ensures Accepted(st, members, known, n, m)
    ensures m.id in Ids(Handle(st, members, known, n, m, ack).node.queue)
  {
    FitsIsSigned(m);
    var before := OwnAckHandled(st, members, known, Seen(n, m.id), ack).node;
    EnqueuedIsQueued(before, m);
  }

  lemma EnqueuedIsQueued(n: Node, m: Message)
    ensures m.id in Ids(EnqueueSection(n, m).queue)
  {
    var q := EnqueueSection(n, m).queue;
    if Find(n.queue, m.id) == |n.queue| {
      assert q[|q| - 1].id == m.id && q[|q| - 1] in q;
    } else {
      FindInIds(n.queue, m.id);
    }
  }

  /** In direct mode an accepted chat is written to its room's log at once, and
      never queued. */
  lemma DirectChatIsLogged(st: Settings, members: set<string>, known: set<string>, n: Node,
                           m: Message, ack: Message, log: seq<string>)
    requires Accepted(st, members, known, n, m) && m.kind == "chat"
    requires st.blockChainState && st.noAckBlockchainSave
    ensures var o := Handle(st, members, known, n, m, ack);
      && LogEffects(log, m.roomID, o.effects) == log + [ChatData(m)]
      && (forall room :: room != m.roomID ==> LogEffects(log, room, o.effects) == log)
      && o.node == Node(n.history + {m.id}, n.queue, n.processed, n.pending)
  {
    var effects := Handle(st, members, known, n, m, ack).effects;
    assert effects == [Commit(m.roomID, m)] && effects[..0] == [];
    assert forall room :: LogEffects(log, room, effects[..0]) == log;
  }

  /** An accepted clear command cuts its room's log behind the last mention of an
      added peer, and no other log; a rejected one cuts none. */
  lemma ClearIsApplied(st: Settings, members: set<string>, known: set<string>, n: Node,
                       m: Message, ack: Message, log: seq<string>)
    requires m.kind == "clear_blockchain" && log != []
    ensures var o := Handle(st, members, known, n, m, ack);
      && o.node == Node(n.history + {m.id}, n.queue, n.processed, n.pending)
      && (Accepted(st, members, known, n, m) ==> CutBehindPeers(log, LogEffects(log, m.roomID, o.effects)))
      && (!Accepted(st, members, known, n, m) ==> o.effects == [])
      && forall room :: room != m.roomID ==> LogEffects(log, room, o.effects) == log
  {
    var effects := Handle(st, members, known, n, m, ack).effects;
    KeptIsCut(log, Kept(log));
    if Accepted(st, members, known, n, m) {
      assert effects == [Effect.Clear(m.roomID)] && effects[..0] == [];
      assert forall room :: LogEffects(log, room, effects[..0]) == log;
    } else if m.id in n.history {
      assert n.history + {m.id} == n.history;
    }
  }

  // ---------- Every chat was signed, over any history ----------

  /** The effects of one thing that happens at a node, and of a series. */
  function EffectsOf(st: Settings, n: Node, e: Interlude): seq<Effect> {
    match e
    case Handled(members, known, m, ack) => Handle(st, members, known, n, m, ack).effects
    case Ticked(id) => TickSection(st.cfg, n, id).effects
    case TimedOut(id) => []
  }

  function AllEffects(st: Settings, n: Node, es: seq<Interlude>): seq<Effect>
    decreases |es|
  {
    if es == [] then [] else EffectsOf(st, n, es[0]) + AllEffects(st, AfterInterlude(st, n, es[0]), es[1..])
  }

  /** A chat for this room from a then known member, signed by the key it names. */
  ghost predicate HonestChat(st: Settings, e: Interlude) {
    && e.Handled? && e.m.kind == "chat" && Fits(e.m)
    && e.m.publicKey in e.members && e.m.publicKey in e.known && e.m.roomID == st.cfg.room
  }

  /** The chat is one of those that were handled honestly. */
  ghost predicate SentHonestly(st: Settings, es: seq<Interlude>, chat: Message) {
    exists e :: e in es && HonestChat(st, e) && Core(e.m) == Core(chat)
  }

  ghost predicate QueueHonest(st: Settings, es: seq<Interlude>, n: Node) {
    forall chat :: chat in n.queue ==> SentHonestly(st, es, chat)
  }

  ghost predicate EffectsHonest(st: Settings, es: seq<Interlude>, effects: seq<Effect>) {
    forall x :: x in effects && x.Commit? ==> SentHonestly(st, es, x.chat)
  }

  lemma AckStaysHonest(st: Settings, es: seq<Interlude>, n: Node, a: Message)
    requires QueueHonest(st, es, n)
    ensures QueueHonest(st, es, AckSection(st.cfg, n, a).node)
    ensures EffectsHonest(st, es, AckSection(st.cfg, n, a).effects)
  {
    var i := Find(n.queue, AckTarget(a.data));
    if i < |n.queue| {
      assert n.queue[i] in n.queue && Core(OneMoreAck(n.queue[i])) == Core(n.queue[i]);
      assert SentHonestly(st, es, OneMoreAck(n.queue[i]));
    }
  }

  lemma HandledAckStaysHonest(st: Settings, es: seq<Interlude>, members: set<string>, known: set<string>,
                              n: Node, a: Message)
    requires QueueHonest(st, es, n)
    ensures QueueHonest(st, es, HandleAck(st, members, known, n, a).node)
    ensures EffectsHonest(st, es, HandleAck(st, members, known, n, a).effects)
  {
    AckCountsBeforeAuthentication(st, members, known, n, a);
    AckStaysHonest(st, es, Seen(n, a.id), a);
  }

  lemma EnqueueStaysHonest(st: Settings, es: seq<Interlude>, n: Node, m: Message)
    requires QueueHonest(st, es, n) && SentHonestly(st, es, m)
    ensures QueueHonest(st, es, EnqueueSection(n, m))
  {
    forall chat | chat in EnqueueSection(n, m).queue
      ensures SentHonestly(st, es, chat)
    {
      assert chat in n.queue || Core(chat) == Core(m);
    }
  }

  lemma HandleStaysHonest(st: Settings, es: seq<Interlude>, n: Node, e: Interlude)
    requires !st.disableAuth && QueueHonest(st, es, n) && e.Handled? && e in es
    ensures QueueHonest(st, es, AfterInterlude(st, n, e)) && EffectsHonest(st, es, EffectsOf(st, n, e))
  {
    if e.m.kind == "ack" {
      HandledAckStaysHonest(st, es, e.members, e.known, n, e.m);
    } else if e.m.kind == "chat" && Accepted(st, e.members, e.known, n, e.m) {
      AcceptedExactlyWhen(st, e.members, e.known, n, e.m);
      assert HonestChat(st, e);
      HandledAckStaysHonest(st, es, e.members, e.known, Seen(n, e.m.id), e.ack);
      EnqueueStaysHonest(st, es, OwnAckHandled(st, e.members, e.known, Seen(n, e.m.id), e.ack).node, e.m);
    }
  }

  lemma StepStaysHonest(st: Settings, es: seq<Interlude>, n: Node, e: Interlude)
    requires !st.disableAuth && QueueHonest(st, es, n) && e in es
    ensures QueueHonest(st, es, AfterInterlude(st, n, e)) && EffectsHonest(st, es, EffectsOf(st, n, e))
  {
    match e
    case Handled(members, known, m, ack) => HandleStaysHonest(st, es, n, e);
    case Ticked(id) =>
      var i := Find(n.queue, id);
      assert i < |n.queue| ==> n.queue[i] in n.queue;
    case TimedOut(id) =>
  }

  lemma {:induction false} HistoryStaysHonest(st: Settings, es: seq<Interlude>, n: Node, later: seq<Interlude>)
    requires !st.disableAuth && QueueHonest(st, es, n) && forall e :: e in later ==> e in es
    ensures QueueHonest(st, es, AfterInterludes(st, n, later)) && EffectsHonest(st, es, AllEffects(st, n, later))
    decreases |later|
  {
    if later != [] {
      StepStaysHonest(st, es, n, later[0]);
      HistoryStaysHonest(st, es, AfterInterlude(st, n, later[0]), later[1..]);
    }
  }

  /** After any series of messages, ticks and timers, under whatever members and
      peers, every chat that a node queues or has committed was signed by the key it
      names, which was in the room when the chat was handled. */
  lemma ChatsAreSigned(st: Settings, es: seq<Interlude>)
    requires !st.disableAuth
    ensures var empty := Node({}, [], map[], map[]);
      && (forall chat :: chat in AfterInterludes(st, empty, es).queue ==> SentHonestly(st, es, chat))
      && forall x :: x in AllEffects(st, empty, es) && x.Commit? ==> SentHonestly(st, es, x.chat)
  {
    HistoryStaysHonest(st, es, Node({}, [], map[], map[]), es);
  }

  // ---------- The node's own ack ----------

  /** The own ack says what line 698 prints, for the chat's room, with a fresh TTL,
      and names the chat. */
  lemma OwnAckNamesChat(st: Settings, m: Message, id: string, time: int)
    ensures var a := OwnAck(st, m, id, time);
      && a.data == "ACK for message " + m.id + " from " + m.publicKey
      && a.id == id && a.kind == "ack" && a.publicKey == st.ownKey && a.sender == Itoa(st.nodeID.value)
      && a.roomID == m.roomID && a.timestamp == time && a.ttl == 10
      && (AckTarget(a.data) == m.id <==> ' ' !in m.id)
  {
    AckNamesItsChat(m.id, m.publicKey);
    assert "ACK for message " + (m.id + " from " + m.publicKey) == "ACK for message " + m.id + " from " + m.publicKey;
  }

  /** The script of an accepted chat runs the own ack's section. */
  lemma OwnAckRuns(st: Settings, known: set<string>, s: Sys, m: Message, ack: Message)
    requires m.kind == "chat" && Accepted(st, Members(s.log), known, s.node, m) && !st.disableAckSending
    requires ack.id !in s.node.history && ack.id != m.id && ack.publicKey in Members(s.log)
    ensures RunAck(ack) in Script(st, Members(s.log), known, s.node, m, ack)
    ensures RunChat(m) in Script(st, Members(s.log), known, s.node, m, ack)
  {
    var own := AckScript(st, Members(s.log), known, Seen(s.node, m.id), ack);
    assert RunAck(ack) in [RunAck(ack)];
    assert own[1] == RunAck(ack);
    assert RunAck(ack) in own;
  }

  /** In ack mode, at a node that is in the room itself, an accepted chat has the
      node's own ack when its handler ends: the ack is on record, and the chat has
      entered the queue with a counter that includes it. */
  lemma OwnAckCounts(st: Settings, known: set<string>, s: Sys, m: Message, ackID: string, time: int)
    requires st.blockChainState && !st.noAckBlockchainSave && !st.disableAckSending && !st.disableAuth
    requires Inv(st.cfg, s) && st.ownKey in Members(s.log)
    requires m.kind == "chat" && m.id != "" && ' ' !in m.id && Accepted(st, Members(s.log), known, s.node, m)
    requires ackID !in s.node.history && ackID != m.id
    ensures var n := Handle(st, Members(s.log), known, s.node, m, OwnAck(st, m, ackID, time)).node;
      && st.ownKey in AcksOf(n.processed, m.id)
      && m.id in Ids(n.queue)
      && forall chat :: chat in n.queue && chat.id == m.id ==> chat.acksReceived == |AcksOf(n.processed, m.id)| >= 1
  {
    var ack := OwnAck(st, m, ackID, time);
    var script := Script(st, Members(s.log), known, s.node, m, ack);
    OwnAckNamesChat(st, m, ackID, time);
    OwnAckRuns(st, known, s, m, ack);
    HandlerIsRun(st, known, s, m, ack);
    RunKeepsInv(st.cfg, s, script);
    HistoryIsInLabels(st.cfg, s, script, m.id);
    var t := Run(st.cfg, s, script);
    assert st.ownKey in AckersIn(script, m.id);
    assert AcksOf(t.node.processed, m.id) == AcksOf(t.acked, m.id);
    EnqueuedIsQueued(OwnAckHandled(st, Members(s.log), known, Seen(s.node, m.id), ack).node, m);
  }

  /** If the node's signatures verify under its own key, every node of the room
      that knows and lists that key accepts the ack, however far it has travelled. */
  lemma OwnAckIsAccepted(st: Settings, m: Message, id: string, time: int,
                         other: Settings, members: set<string>, known: set<string>, n: Node, ttl: int)
    requires forall text :: Verify(text, Sign(text), st.ownKey)
    requires m.roomID == other.cfg.room && st.ownKey in members && st.ownKey in known && id !in n.history
    ensures Accepted(other, members, known, n, OwnAck(st, m, id, time).(ttl := ttl))
  {
    var a := OwnAck(st, m, id, time).(ttl := ttl);
    assert Verify(a.id + a.kind + a.data + Itoa(a.timestamp), a.signature, a.publicKey);
    FitsIsSigned(a);
  }
}
