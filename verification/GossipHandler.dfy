/** What `HandleGossipMessage` does with one message, start to end, when no other
    goroutine gets in between: the specification of the methods in `Gossip`, and
    a run of `AckRuns` (`src/network_gossip/network_gossip.go`). */
module GossipHandler {
  import opened GoText
  import opened ChainStore
  import opened PeerHistory
  import opened AckProtocol
  import opened AckRuns

  /** The 64-bit id of a node. */
  datatype NodeID = NodeID(value: int)

  /** The node's switches and identity. */
  datatype Settings = Settings(
    cfg: Config, nodeID: NodeID, ownKey: string,
    blockChainState: bool, noAckBlockchainSave: bool, disableAckSending: bool, disableAuth: bool)

  /** ed25519 verification of a message, a hex signature and a hex key, and
      signing with the node's key; both left undefined. */
  const Verify: (string, string, string) -> bool
  const Sign: string -> string

  /** The texts over which `authenticateMessage` accepts a signature. */
  function SignedForms(m: Message): seq<string> {
    [m.id + m.kind + m.data + Itoa(m.timestamp),
     m.data,
     m.id + m.kind + m.data,
     m.kind + m.data + Itoa(m.timestamp),
     m.id + m.kind + m.data + Itoa(m.timestamp) + Itoa(m.ttl)]
  }

  predicate SignedByKey(m: Message, key: string) {
    exists i | 0 <= i < |SignedForms(m)| :: Verify(SignedForms(m)[i], m.signature, key)
  }

  /** `authenticateMessage` against a peer with the given key. */
  predicate AuthenticFrom(st: Settings, members: set<string>, key: string, m: Message) {
    st.disableAuth || (key in members && SignedByKey(m, key) && m.publicKey == key && m.roomID == st.cfg.room)
  }

  /** The same against the peer that has the message's own key. */
  predicate Authentic(st: Settings, members: set<string>, m: Message) {
    AuthenticFrom(st, members, m.publicKey, m)
  }

  /** The message that `GossipMessage` builds for an ack of `m`. */
  function OwnAck(st: Settings, m: Message, id: string, time: int): Message {
    var data := AckText(m.id, m.publicKey);
    Message(id, "ack", data, Itoa(st.nodeID.value), m.roomID, time, 10, st.ownKey,
            Sign(id + "ack" + data + Itoa(time)), 0)
  }

  function Seen(n: Node, id: string): Node {
    n.(history := n.history + {id})
  }

  function AckIfOn(st: Settings, n: Node, m: Message): Outcome {
    if st.blockChainState then AckSection(st.cfg, n, m) else Outcome(n, [])
  }

  /** An ack is processed once unauthenticated, if its key is in the room, and
      once more after authentication. */
  function HandleAck(st: Settings, members: set<string>, known: set<string>, n: Node, m: Message): Outcome {
    if m.id in n.history then Outcome(n, [])
    else
      var n0 := Seen(n, m.id);
      var o1 := if m.publicKey in members then AckIfOn(st, n0, m) else Outcome(n0, []);
      if m.publicKey !in known || !Authentic(st, members, m) then o1
      else
        var o2 := AckIfOn(st, o1.node, m);
        Outcome(o2.node, o1.effects + o2.effects)
  }

  /** The node's own ack of a chat, unless that is off. */
  function OwnAckHandled(st: Settings, members: set<string>, known: set<string>, n: Node, ack: Message): Outcome {
    if st.disableAckSending then Outcome(n, []) else HandleAck(st, members, known, n, ack)
  }

  /** `processGossipMessage` for a chat: saved directly, or acked and enqueued. */
  function ProcessChat(st: Settings, members: set<string>, known: set<string>, n: Node,
                       m: Message, ack: Message): Outcome
  {
    if !st.blockChainState then Outcome(n, [])
    else if st.noAckBlockchainSave then Outcome(n, [Commit(m.roomID, m)])
    else
      var o := OwnAckHandled(st, members, known, n, ack);
      Outcome(EnqueueSection(o.node, m), o.effects)
  }

  /** Whether a message not seen before passes to processing and forwarding. */
  predicate Accepts(st: Settings, members: set<string>, known: set<string>, m: Message) {
    && !(m.kind == "heartbeat" && m.publicKey == st.ownKey)
    && m.publicKey in known && Authentic(st, members, m)
  }

  predicate Accepted(st: Settings, members: set<string>, known: set<string>, n: Node, m: Message) {
    m.id !in n.history && Accepts(st, members, known, m)
  }

  /** A message signed as `GossipMessage` signs is accepted alike with any TTL. */
  lemma AcceptanceIgnoresTtl(st: Settings, members: set<string>, known: set<string>, m: Message, ttl: int)
    requires Verify(SignedForms(m)[0], m.signature, m.publicKey)
    ensures Accepts(st, members, known, m) <==> Accepts(st, members, known, m.(ttl := ttl))
  {
    var c := m.(ttl := ttl);
    assert SignedForms(c)[0] == SignedForms(m)[0];
    assert SignedByKey(m, m.publicKey) && SignedByKey(c, c.publicKey);
  }

  function Handle(st: Settings, members: set<string>, known: set<string>, n: Node, m: Message, ack: Message): Outcome {
    if m.kind == "ack" then HandleAck(st, members, known, n, m)
    else if m.id in n.history then Outcome(n, [])
    else if !Accepted(st, members, known, n, m) then Outcome(Seen(n, m.id), [])
    else if m.kind == "chat" then ProcessChat(st, members, known, Seen(n, m.id), m, ack)
    else if m.kind == "clear_blockchain" then Outcome(Seen(n, m.id), [Effect.Clear(m.roomID)])
    else Outcome(Seen(n, m.id), [])
  }

  /** `processGossipMessage`. */
  function Process(st: Settings, members: set<string>, known: set<string>, n: Node, m: Message, ack: Message): Outcome {
    if m.kind == "chat" then ProcessChat(st, members, known, n, m, ack)
    else if m.kind == "clear_blockchain" then Outcome(n, [Effect.Clear(m.roomID)])
    else if m.kind == "ack" then AckIfOn(st, n, m)
    else Outcome(n, [])
  }

  /** Lines 602-607: an ack from a room member, before authentication. */
  function FirstPass(st: Settings, members: set<string>, n: Node, m: Message): Outcome {
    if m.kind == "ack" && m.publicKey in members then AckIfOn(st, n, m) else Outcome(n, [])
  }

  /** Lines 609-636: authentication and processing. */
  function SecondPass(st: Settings, members: set<string>, known: set<string>, n: Node,
                      m: Message, ack: Message): Outcome
  {
    if m.publicKey in known && Authentic(st, members, m) then Process(st, members, known, n, m, ack)
    else Outcome(n, [])
  }

  /** Lines 601-636, for a message that has just entered the history. */
  function HandleNew(st: Settings, members: set<string>, known: set<string>, n: Node,
                     m: Message, ack: Message): Outcome
  {
    var first := FirstPass(st, members, n, m);
    var second := SecondPass(st, members, known, first.node, m, ack);
    Outcome(second.node, first.effects + second.effects)
  }

  /** The handler in the order of the program's statements. */
  lemma HandlerInOrder(st: Settings, members: set<string>, known: set<string>, n: Node, m: Message, ack: Message)
    requires m.id !in n.history && !(m.kind == "heartbeat" && m.publicKey == st.ownKey)
    ensures Handle(st, members, known, n, m, ack) == HandleNew(st, members, known, Seen(n, m.id), m, ack)
  {}

  // ---------- Effects on the rooms' logs ----------

  function LogEffect(log: seq<string>, room: string, e: Effect): seq<string> {
    if e.room != room then log
    else if e.Commit? then log + [ChatData(e.chat)]
    else Kept(log)
  }

  function LogEffects(log: seq<string>, room: string, effects: seq<Effect>): seq<string>
    decreases |effects|
  {
    if effects == [] then log
    else LogEffect(LogEffects(log, room, effects[..|effects| - 1]), room, effects[|effects| - 1])
  }

  lemma {:induction false} EffectsJoin(log: seq<string>, room: string, a: seq<Effect>, b: seq<Effect>)
    ensures LogEffects(log, room, a + b) == LogEffects(LogEffects(log, room, a), room, b)
    decreases |b|
  {
    if b == [] {
      assert a + b == a;
    } else {
      EffectsJoin(log, room, a, b[..|b| - 1]);
      assert (a + b)[..|a + b| - 1] == a + b[..|b| - 1];
    }
  }

  /** Neither commits nor clears change who is in the room. */
  lemma {:induction false} EffectsKeepMembers(log: seq<string>, room: string, effects: seq<Effect>)
    requires Healthy(log)
    ensures Healthy(LogEffects(log, room, effects))
    ensures Members(LogEffects(log, room, effects)) == Members(log)
    decreases |effects|
  {
    if effects != [] {
      var before := LogEffects(log, room, effects[..|effects| - 1]);
      var e := effects[|effects| - 1];
      EffectsKeepMembers(log, room, effects[..|effects| - 1]);
      if e.Commit? {
        ChatIsNoPeerBlock(e.chat);
        MembersNeverShrink(before, Other(ChatData(e.chat)));
      } else {
        MembersNeverShrink(before, PeerHistory.ClearRoom);
      }
    }
  }

  // ---------- A handler is a run ----------

  /** The sections that the handler of an ack executes. */
  function AckScript(st: Settings, members: set<string>, known: set<string>, n: Node, m: Message): seq<Label> {
    if m.id in n.history then []
    else
      var first := if m.publicKey in members then [RunAck(m)] else [];
      var second := if m.publicKey in known && Authentic(st, members, m) then [RunAck(m)] else [];
      [Receive(m)] + first + second
  }

  /** Commits as the effects that made them. */
  function AsEffects(commits: seq<Committed>): (effects: seq<Effect>)
    ensures |effects| == |commits|
    ensures forall i :: 0 <= i < |commits| ==> effects[i] == Commit(commits[i].room, commits[i].chat)
  {
    seq(|commits|, i requires 0 <= i < |commits| => Commit(commits[i].room, commits[i].chat))
  }

  /** The system after effects of sections: what `Book` keeps of them. */
  ghost predicate Booked(cfg: Config, s: Sys, t: Sys, effects: seq<Effect>) {
    && t.log == LogEffects(s.log, cfg.room, effects)
    && s.commits <= t.commits && effects == AsEffects(t.commits[|s.commits|..])
  }

  lemma EffectsOfCommits(a: seq<Committed>, b: seq<Committed>, c: seq<Committed>)
    requires a <= b <= c
    ensures AsEffects(c[|a|..]) == AsEffects(b[|a|..]) + AsEffects(c[|b|..])
  {
    assert c[|a|..] == b[|a|..] + c[|b|..];
  }

  lemma BookedTwice(cfg: Config, s: Sys, t: Sys, u: Sys, a: seq<Effect>, b: seq<Effect>)
    requires Booked(cfg, s, t, a) && Booked(cfg, t, u, b)
    ensures Booked(cfg, s, u, a + b)
  {
    EffectsJoin(s.log, cfg.room, a, b);
    EffectsOfCommits(s.commits, t.commits, u.commits);
  }

  lemma AckIsBooked(cfg: Config, s: Sys, m: Message)
    ensures Booked(cfg, s, Apply(cfg, s, RunAck(m)), AckSection(cfg, s.node, m).effects)
    ensures Apply(cfg, s, RunAck(m)).node == AckSection(cfg, s.node, m).node
  {
    var effects := AckSection(cfg, s.node, m).effects;
    assert LogEffects(s.log, cfg.room, []) == s.log;
    assert effects != [] ==> effects[..|effects| - 1] == [];
  }

  lemma NothingBooked(cfg: Config, s: Sys, t: Sys)
    requires t.log == s.log && t.commits == s.commits
    ensures Booked(cfg, s, t, [])
  {}

  /** What one more ack section adds to a run. */
  lemma RunAckMore(cfg: Config, s: Sys, script: seq<Label>, effects: seq<Effect>, m: Message)
    requires Possible(cfg, s, script)
    requires var t := Run(cfg, s, script);
      Booked(cfg, s, t, effects) && m in t.acks && m.publicKey in Members(t.log)
    ensures var t := Run(cfg, s, script);
      && Possible(cfg, s, script + [RunAck(m)])
      && Run(cfg, s, script + [RunAck(m)]).node == AckSection(cfg, t.node, m).node
      && Run(cfg, s, script + [RunAck(m)]).acks == t.acks
      && Run(cfg, s, script + [RunAck(m)]).waiting == t.waiting
      && Booked(cfg, s, Run(cfg, s, script + [RunAck(m)]), effects + AckSection(cfg, t.node, m).effects)
  {
    var t := Run(cfg, s, script);
    RunAppend(cfg, s, script, [RunAck(m)]);
    RunOne(cfg, t, RunAck(m));
    AckIsBooked(cfg, t, m);
    BookedTwice(cfg, s, t, Apply(cfg, t, RunAck(m)), effects, AckSection(cfg, t.node, m).effects);
  }

  lemma MembersAfterBooking(cfg: Config, s: Sys, t: Sys, effects: seq<Effect>)
    requires Healthy(s.log) && Booked(cfg, s, t, effects)
    ensures Healthy(t.log) && Members(t.log) == Members(s.log)
  {
    EffectsKeepMembers(s.log, cfg.room, effects);
  }

  /** The handler of an ack is the run of its script. */
  lemma AckHandlerIsRun(st: Settings, known: set<string>, s: Sys, m: Message)
    requires st.blockChainState && !st.disableAuth && m.kind == "ack" && Healthy(s.log)
    ensures var members := Members(s.log);
      var script := AckScript(st, members, known, s.node, m);
      var o := HandleAck(st, members, known, s.node, m);
      && Possible(st.cfg, s, script)
      && Run(st.cfg, s, script).node == o.node
      && Run(st.cfg, s, script).waiting == s.waiting
      && Booked(st.cfg, s, Run(st.cfg, s, script), o.effects)
  {
    var cfg := st.cfg;
    var members := Members(s.log);
    if m.id in s.node.history {
      NothingBooked(cfg, s, s);
    } else {
      var script := [Receive(m)];
      var t := Apply(cfg, s, Receive(m));
      RunOne(cfg, s, Receive(m));
      NothingBooked(cfg, s, t);
      if m.publicKey in members {
        RunAckMore(cfg, s, script, [], m);
        var effects := AckSection(cfg, t.node, m).effects;
        assert [] + effects == effects;
        var more := script + [RunAck(m)];
        MembersAfterBooking(cfg, s, Run(cfg, s, more), effects);
        if m.publicKey in known && Authentic(st, members, m) {
          RunAckMore(cfg, s, more, effects, m);
        } else {
          assert more + [] == more;
        }
      } else {
        assert script + [] + [] == script;
      }
    }
  }

  /** The sections that the handler of a message executes in ack mode. */
  function Script(st: Settings, members: set<string>, known: set<string>, n: Node,
                  m: Message, ack: Message): seq<Label>
  {
    if m.kind == "ack" then AckScript(st, members, known, n, m)
    else if m.id in n.history then []
    else if !Accepted(st, members, known, n, m) then [Receive(m)]
    else if m.kind == "chat" then
      var own := if st.disableAckSending then [] else AckScript(st, members, known, Seen(n, m.id), ack);
      [Receive(m)] + own + [RunChat(m)]
    else if m.kind == "clear_blockchain" && m.roomID == st.cfg.room then [Receive(m), Write(PeerHistory.ClearRoom)]
    else [Receive(m)]
  }

  /** The rest of a chat's handler, after its reception. */
  lemma ChatHandlerIsRun(st: Settings, known: set<string>, s: Sys, m: Message, ack: Message)
    requires st.blockChainState && !st.noAckBlockchainSave && !st.disableAuth
    requires ack.kind == "ack" && Healthy(s.log)
    requires m in s.waiting
    ensures var members := Members(s.log);
      var own := if st.disableAckSending then [] else AckScript(st, members, known, s.node, ack);
      var o := ProcessChat(st, members, known, s.node, m, ack);
      && Possible(st.cfg, s, own + [RunChat(m)])
      && Run(st.cfg, s, own + [RunChat(m)]).node == o.node
      && Booked(st.cfg, s, Run(st.cfg, s, own + [RunChat(m)]), o.effects)
  {
    var cfg := st.cfg;
    var members := Members(s.log);
    var own := if st.disableAckSending then [] else AckScript(st, members, known, s.node, ack);
    if st.disableAckSending {
      NothingBooked(cfg, s, s);
    } else {
      AckHandlerIsRun(st, known, s, ack);
    }
    var t := Run(cfg, s, own);
    RunAppend(cfg, s, own, [RunChat(m)]);
    RunOne(cfg, t, RunChat(m));
  }

  /** Every message handled in ack mode is a run of the model: the handler ends
      in the same node state, with the same commits and the same log. */
  lemma HandlerIsRun(st: Settings, known: set<string>, s: Sys, m: Message, ack: Message)
    requires st.blockChainState && !st.noAckBlockchainSave && !st.disableAuth
    requires ack.kind == "ack" && Healthy(s.log)
    ensures var members := Members(s.log);
      var script := Script(st, members, known, s.node, m, ack);
      var o := Handle(st, members, known, s.node, m, ack);
      && Possible(st.cfg, s, script)
      && Run(st.cfg, s, script).node == o.node
      && Run(st.cfg, s, script).log == LogEffects(s.log, st.cfg.room, o.effects)
  {
    var cfg := st.cfg;
    var members := Members(s.log);
    if m.kind == "ack" {
      AckHandlerIsRun(st, known, s, m);
    } else if m.id !in s.node.history {
      var t := Apply(cfg, s, Receive(m));
      RunOne(cfg, s, Receive(m));
      if Accepted(st, members, known, s.node, m) && m.kind == "chat" {
        ChatHandlerIsRun(st, known, t, m, ack);
        var own := if st.disableAckSending then [] else AckScript(st, members, known, t.node, ack);
        RunAppend(cfg, s, [Receive(m)], own + [RunChat(m)]);
        assert [Receive(m)] + own + [RunChat(m)] == [Receive(m)] + (own + [RunChat(m)]);
      } else if Accepted(st, members, known, s.node, m) && m.kind == "clear_blockchain" {
        assert m.roomID == cfg.room;
        RunOne(cfg, t, Write(PeerHistory.ClearRoom));
        RunAppend(cfg, s, [Receive(m)], [Write(PeerHistory.ClearRoom)]);
        assert [Receive(m)] + [Write(PeerHistory.ClearRoom)] == [Receive(m), Write(PeerHistory.ClearRoom)];
        var effects := [Effect.Clear(m.roomID)];
        assert effects[..0] == [];
        assert LogEffects(s.log, cfg.room, effects[..0]) == s.log;
      }
    }
  }

  lemma HandlerRemembers(st: Settings, members: set<string>, known: set<string>, n: Node, m: Message, ack: Message)
    ensures Handle(st, members, known, n, m, ack).node.history >= n.history + {m.id}
  {
    if m.kind == "ack" {
      AckRemembers(st, members, known, n, m);
    } else if m.kind == "chat" {
      AckRemembers(st, members, known, Seen(n, m.id), ack);
    }
  }

  lemma AckRemembers(st: Settings, members: set<string>, known: set<string>, n: Node, m: Message)
    ensures HandleAck(st, members, known, n, m).node.history >= n.history + {m.id}
  {
    var seen := Seen(n, m.id);
    AckSectionFrame(st.cfg, seen, m);
    AckSectionFrame(st.cfg, AckSection(st.cfg, seen, m).node, m);
  }

  /** What can happen at a node between two messages: another message, handled
      under the members and peers of that moment, a tick or a timer. */
  datatype Interlude =
    | Handled(members: set<string>, known: set<string>, m: Message, ack: Message)
    | Ticked(id: string)
    | TimedOut(id: string)

  function AfterInterlude(st: Settings, n: Node, e: Interlude): Node {
    match e
    case Handled(members, known, m, ack) => Handle(st, members, known, n, m, ack).node
    case Ticked(id) => TickSection(st.cfg, n, id).node
    case TimedOut(id) => TimeoutSection(n, id)
  }

  function AfterInterludes(st: Settings, n: Node, between: seq<Interlude>): Node
    decreases |between|
  {
    if between == [] then n else AfterInterludes(st, AfterInterlude(st, n, between[0]), between[1..])
  }

  lemma {:induction false} InterludesRemember(st: Settings, n: Node, between: seq<Interlude>)
    ensures n.history <= AfterInterludes(st, n, between).history
    decreases |between|
  {
    if between != [] {
      var e := between[0];
      if e.Handled? {
        HandlerRemembers(st, e.members, e.known, n, e.m, e.ack);
      }
      InterludesRemember(st, AfterInterlude(st, n, e), between[1..]);
    }
  }

  /** However a message was handled, in any mode, whatever messages, ticks,
      timers and changes of membership came in between, a second message with its
      id changes nothing and commits nothing. */
  lemma SecondCopyDoesNothing(st: Settings, members: set<string>, known: set<string>, n: Node, m: Message, ack: Message,
                              between: seq<Interlude>,
                              members2: set<string>, known2: set<string>, copy: Message, ack2: Message)
    requires copy.id == m.id
    ensures var later := AfterInterludes(st, Handle(st, members, known, n, m, ack).node, between);
      Handle(st, members2, known2, later, copy, ack2) == Outcome(later, [])
  {
    HandlerRemembers(st, members, known, n, m, ack);
    InterludesRemember(st, Handle(st, members, known, n, m, ack).node, between);
  }

  // ---------- What authentication adds to an ack ----------

  lemma SecondPassIsIdle(cfg: Config, n: Node, m: Message)
    ensures AckSection(cfg, AckSection(cfg, n, m).node, m) == Outcome(AckSection(cfg, n, m).node, [])
  {
    var id := AckTarget(m.data);
    assert m.publicKey in AcksOf(AckSection(cfg, n, m).node.processed, id);
  }

  /** The outcome for an ack depends on its id and on whether the key it names is
      in the room, or merely known when authentication is off: not on its
      signature or its own room, because the pass behind the authentication finds
      the ack processed. */
  lemma AckCountsBeforeAuthentication(st: Settings, members: set<string>, known: set<string>, n: Node, m: Message)
    ensures HandleAck(st, members, known, n, m) ==
            if m.id in n.history then Outcome(n, [])
            else if m.publicKey in members || (st.disableAuth && m.publicKey in known)
            then AckIfOn(st, Seen(n, m.id), m)
            else Outcome(Seen(n, m.id), [])
  {
    SecondPassIsIdle(st.cfg, Seen(n, m.id), m);
    var o := AckIfOn(st, Seen(n, m.id), m);
    assert o.effects + [] == o.effects && [] + o.effects == o.effects;
  }
}
