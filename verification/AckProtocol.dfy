/** The sections of `processGossipMessage` that run under `gossipMutex`
    (`src/network_gossip/network_gossip.go`), as functions of the node state. */
module AckProtocol {
  import opened GoText

  datatype Message = Message(
    id: string, kind: string, data: string, sender: string, roomID: string,
    timestamp: int, ttl: int, publicKey: string, signature: string, acksReceived: int)

  /** The settings of one node that its ack handling depends on. */
  datatype Config = Config(room: string, threshold: int)

  /** `messageHistory`, `msgsToProcess`, `processedAcks` and `pendingAcks`. */
  datatype Node = Node(
    history: set<string>,
    queue: seq<Message>,
    processed: map<string, set<string>>,
    pending: map<string, seq<Message>>)

  /** A call to `AddBlock` for a chat, or the clear command for a room. */
  datatype Effect = Commit(room: string, chat: Message) | Clear(room: string)

  datatype Outcome = Outcome(node: Node, effects: seq<Effect>)

  /** The block data of a chat; its ack counter is not part of it. */
  function ChatData(m: Message): string {
    "CHAT_MSG{Sender: " + m.publicKey + ", Type: " + m.kind + ", Data: " + m.data +
    ", Timestamp: " + Itoa(m.timestamp) + ", Signature: " + m.signature + "}"
  }

  // ---------- Lookups ----------

  function AcksOf(m: map<string, set<string>>, id: string): set<string> {
    if id in m then m[id] else {}
  }

  function PendingOf(m: map<string, seq<Message>>, id: string): seq<Message> {
    if id in m then m[id] else []
  }

  function Keys(acks: seq<Message>): set<string> {
    set a | a in acks :: a.publicKey
  }

  /** The first position of an id in the queue, or the queue's length. */
  function Find(q: seq<Message>, id: string): (i: nat)
    ensures i <= |q|
    ensures i < |q| ==> q[i].id == id
    ensures forall j :: 0 <= j < i ==> q[j].id != id
  {
    if q == [] || q[0].id == id then 0 else 1 + Find(q[1..], id)
  }

  function Without(q: seq<Message>, i: nat): seq<Message>
    requires i < |q|
  {
    q[..i] + q[i + 1..]
  }

  /** No other queued chat is strictly earlier. */
  predicate CanSave(q: seq<Message>, i: nat)
    requires i < |q|
  {
    forall j :: 0 <= j < |q| && q[j].id != q[i].id ==> q[i].timestamp <= q[j].timestamp
  }

  // ---------- The text of an ack ----------

  const ACK_TEXT := "ACK for message "

  function AckText(id: string, author: string): string {
    ACK_TEXT + (id + " from " + author)
  }

  /** The id that an ack names; empty if its data has another form. */
  function AckTarget(data: string): string {
    var parts := SplitN(data, ' ', -1);
    if |parts| >= 4 && Contains(data, ACK_TEXT) then parts[3] else ""
  }

  /** Words, each followed by a space, before a rest. */
  function Words(words: seq<string>, rest: string): string {
    if words == [] then rest else words[0] + [' '] + Words(words[1..], rest)
  }

  lemma {:induction false} WordsSplit(words: seq<string>, rest: string)
    requires forall w :: w in words ==> ' ' !in w
    ensures SplitN(Words(words, rest), ' ', -1) == words + SplitN(rest, ' ', -1)
  {
    HeadAndTail(words, SplitN(rest, ' ', -1));
    if words != [] {
      WordsSplit(words[1..], rest);
      SplitStep(words[0], ' ', Words(words[1..], rest), -1);
    }
  }

  lemma HeadAndTail<T>(words: seq<T>, rest: seq<T>)
    ensures words == [] ==> words + rest == rest
    ensures words != [] ==> words[0] in words && [words[0]] + (words[1..] + rest) == words + rest
  {}

  lemma AckTextIsWords(rest: string)
    ensures ACK_TEXT + rest == Words(["ACK", "for", "message"], rest)
  {
    var words := ["ACK", "for", "message"];
    assert words[1..] == ["for", "message"] && words[1..][1..] == ["message"] && words[1..][1..][1..] == [];
    assert Words(["message"], rest) == "message " + rest;
    assert Words(["for", "message"], rest) == "for message " + rest;
  }

  lemma AckTextSplits(rest: string)
    ensures SplitN(ACK_TEXT + rest, ' ', -1) == ["ACK", "for", "message"] + SplitN(rest, ' ', -1)
  {
    AckTextIsWords(rest);
    WordsSplit(["ACK", "for", "message"], rest);
  }

  lemma FourthPiece(data: string, front: seq<string>, back: seq<string>)
    requires SplitN(data, ' ', -1) == front + back && |front| == 3 && back != []
    requires OccursAt(data, ACK_TEXT, 0)
    ensures AckTarget(data) == back[0]
  {}

  lemma AckTextTarget(id: string, author: string)
    ensures AckTarget(AckText(id, author)) == SplitN(id + " from " + author, ' ', -1)[0]
  {
    var rest := id + " from " + author;
    AckTextSplits(rest);
    FourthPiece(ACK_TEXT + rest, ["ACK", "for", "message"], SplitN(rest, ' ', -1));
  }

  lemma FirstPiece(s: string)
    ensures ' ' !in SplitN(s, ' ', -1)[0]
  {}

  lemma AuthorPart(id: string, author: string)
    ensures id + " from " + author == id + [' '] + ("from " + author)
  {}

  /** An ack names the chat it was made for exactly when the id has no space. */
  lemma AckNamesItsChat(id: string, author: string)
    ensures AckTarget(AckText(id, author)) == id <==> ' ' !in id
  {
    AckTextTarget(id, author);
    if ' ' !in id {
      AuthorPart(id, author);
      SplitStep(id, ' ', "from " + author, -1);
    } else {
      FirstPiece(id + " from " + author);
    }
  }

  // ---------- The sections ----------

  function OneMoreAck(m: Message): Message {
    m.(acksReceived := m.acksReceived + 1)
  }

  /** Lines 854-917: one ack from one peer. */
  function AckSection(cfg: Config, n: Node, m: Message): Outcome {
    AckFor(cfg, n, AckTarget(m.data), m)
  }

  /** The section of an ack that names `id`. */
  function AckFor(cfg: Config, n: Node, id: string, m: Message): Outcome {
    var acked := AcksOf(n.processed, id);
    if m.publicKey in acked then Outcome(n, [])
    else
      var marked := n.(processed := n.processed[id := acked + {m.publicKey}]);
      if id == "" then Outcome(marked, []) else NewAck(cfg, marked, id, m)
  }

  /** The first ack of a peer for `id`: counted if the chat waits, else kept. */
  function NewAck(cfg: Config, n: Node, id: string, m: Message): Outcome {
    var i := Find(n.queue, id);
    if i == |n.queue| then
      Outcome(n.(pending := n.pending[id := PendingOf(n.pending, id) + [m]]), [])
    else
      var chat := OneMoreAck(n.queue[i]);
      var q := n.queue[i := chat];
      if chat.acksReceived >= cfg.threshold && CanSave(q, i)
      then Outcome(n.(queue := Without(q, i)), [Commit(m.roomID, chat)])
      else Outcome(n.(queue := q), [])
  }

  /** Lines 704-752: a chat enters the queue and takes over its early acks. */
  function EnqueueSection(n: Node, m: Message): Node {
    if Find(n.queue, m.id) < |n.queue| then n
    else if m.id !in n.pending then n.(queue := n.queue + [m.(acksReceived := 0)])
    else
      var acks := n.pending[m.id];
      n.(queue := n.queue + [m.(acksReceived := |Keys(acks)|)],
         processed := if acks == [] then n.processed - {m.id} else n.processed[m.id := Keys(acks)],
         pending := n.pending - {m.id})
  }

  /** Lines 768-806: one tick of the goroutine of a chat. */
  function TickSection(cfg: Config, n: Node, id: string): Outcome {
    var i := Find(n.queue, id);
    if i < |n.queue| && n.queue[i].acksReceived >= cfg.threshold && CanSave(n.queue, i)
    then Outcome(n.(queue := Without(n.queue, i)), [Commit(cfg.room, n.queue[i])])
    else Outcome(n, [])
  }

  /** Lines 809-816: the timer of a chat. */
  function TimeoutSection(n: Node, id: string): Node {
    var i := Find(n.queue, id);
    if i < |n.queue| then n.(queue := Without(n.queue, i)) else n
  }

  lemma AckSectionFrame(cfg: Config, n: Node, m: Message)
    ensures AckSection(cfg, n, m).node.history == n.history
  {}

  // ---------- Facts about queues ----------

  function Ids(q: seq<Message>): set<string> {
    set m | m in q :: m.id
  }

  ghost predicate UniqueIds(q: seq<Message>) {
    forall i, j :: 0 <= i < j < |q| ==> q[i].id != q[j].id
  }

  lemma FindInIds(q: seq<Message>, id: string)
    ensures Find(q, id) < |q| <==> id in Ids(q)
  {}

  lemma FindUnique(q: seq<Message>, i: nat)
    requires UniqueIds(q) && i < |q|
    ensures Find(q, q[i].id) == i
  {}

  lemma TakeOut(q: seq<Message>, i: nat)
    requires i < |q|
    ensures multiset(q) == multiset{q[i]} + multiset(Without(q, i))
    ensures multiset(Without(q, i)) == multiset(q) - multiset{q[i]}
  {
    assert q == q[..i] + [q[i]] + q[i + 1..];
  }

  lemma WithoutMembers(q: seq<Message>, i: nat)
    requires UniqueIds(q) && i < |q|
    ensures UniqueIds(Without(q, i))
    ensures Ids(Without(q, i)) == Ids(q) - {q[i].id}
    ensures forall m :: m in Without(q, i) <==> m in q && m != q[i]
    ensures |Without(q, i)| == |q| - 1
  {}

  lemma UpdateMembers(q: seq<Message>, i: nat, m: Message)
    requires UniqueIds(q) && i < |q| && m.id == q[i].id
    ensures UniqueIds(q[i := m]) && Ids(q[i := m]) == Ids(q)
    ensures forall x :: x in q[i := m] <==> x == m || (x in q && x.id != m.id)
  {
    var r := q[i := m];
    assert r[i] == m;
    forall x | x in q && x.id != m.id
      ensures x in r
    {
      var j :| 0 <= j < |q| && q[j] == x;
      assert r[j] == x;
    }
    forall x | x in r
      ensures x == m || (x in q && x.id != m.id)
    {
      var j :| 0 <= j < |r| && r[j] == x;
      if j != i {
        assert q[j] == x;
      }
    }
    forall id
      ensures id in Ids(r) <==> id in Ids(q)
    {
      if id in Ids(q) {
        var x :| x in q && x.id == id;
        if id != m.id {
          assert x in r;
        }
      }
      if id in Ids(r) {
        var x :| x in r && x.id == id;
        if x == m {
          assert q[i] in q;
        }
      }
    }
  }
}
