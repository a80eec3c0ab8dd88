/** What a chat's block says: a reader of block texts, with the texts written out
    once more, that gets every field of the chat back
    (`src/network_gossip/network_gossip.go`, lines 683-684, 785-786 and 885-886). */
module ChatText {
  import opened GoText
  import opened AckProtocol
  import opened AckRuns
  import opened AckTheorems
  import opened CommitOrder

  // ---------- Decimal numbers ----------

  function DigitValue(c: char): int {
    c as int - '0' as int
  }

  /** The number that a row of digits stands for. */
  function Digits(s: string): int {
    if s == [] then 0 else Digits(s[..|s| - 1]) * 10 + DigitValue(s[|s| - 1])
  }

  function Atoi(s: string): int {
    if s != [] && s[0] == '-' then -Digits(s[1..]) else Digits(s)
  }

  predicate IsDecimal(s: string) {
    s != [] && forall c :: c in s ==> '0' <= c <= '9'
  }

  lemma {:induction false} NatDigits(n: nat)
    ensures IsDecimal(Itoa(n)) && Digits(Itoa(n)) == n
    ensures n > 0 ==> Itoa(n)[0] != '0'
  {
    if n >= 10 {
      NatDigits(n / 10);
      var s := Itoa(n);
      assert s[..|s| - 1] == Itoa(n / 10);
    } else {
      assert Itoa(n)[..0] == [];
    }
  }

  /** `%d` prints every integer in plain decimal, without leading zeros, and can
      be read back. */
  lemma ItoaReadsBack(n: int)
    ensures Atoi(Itoa(n)) == n
    ensures if n < 0 then Itoa(n)[0] == '-' && IsDecimal(Itoa(n)[1..]) else IsDecimal(Itoa(n))
    ensures ',' !in Itoa(n)
  {
    if n < 0 {
      NatDigits(-n);
      assert Itoa(n) == "-" + Itoa(-n) && Itoa(n)[1..] == Itoa(-n);
    } else {
      NatDigits(n);
      assert Itoa(n)[0] in Itoa(n);
    }
  }

  // ---------- Reading a block ----------

  /** The fields of a chat that its block carries. */
  datatype Fields = Fields(key: string, kind: string, data: string, time: int, signature: string)

  function FieldsOf(m: Message): Fields {
    Fields(m.publicKey, m.kind, m.data, m.timestamp, m.signature)
  }

  /** The position of the last `c` in `s`, or `|s|`. */
  function LastIndexOf(s: string, c: char): (i: nat)
    ensures i <= |s|
  {
    if s == [] then 0
    else if s[|s| - 1] == c then |s| - 1
    else
      var i := LastIndexOf(s[..|s| - 1], c);
      if i == |s| - 1 then |s| else i
  }

  /** Splits at the first comma and takes a separator off the rest. */
  function FieldBefore(s: string, sep: string): (string, string) {
    var i := IndexOf(s, ',');
    (s[..i], TrimPrefix(s[i..], sep))
  }

  /** Splits at the last comma and takes a separator off what follows. */
  function FieldBehind(s: string, sep: string): (string, string) {
    var i := LastIndexOf(s, ',');
    (s[..i], TrimPrefix(s[i..], sep))
  }

  function WithoutLast(s: string): string {
    if s == [] then [] else s[..|s| - 1]
  }

  /** The texts between the fields. */
  datatype Frame = Frame(head: string, kind: string, data: string, time: string, signature: string, tail: string)

  /** Reads signature and time from the end; what is left is the data, whatever it
      contains. */
  function ReadEnd(f: Frame, text: string): (string, int, string) {
    var signature := FieldBehind(text, f.signature);
    var time := FieldBehind(signature.0, f.time);
    (time.0, Atoi(time.1), WithoutLast(signature.1))
  }

  /** Reads key and kind from the front and the rest from the end. */
  function ReadFramed(f: Frame, text: string): Option<Fields> {
    if !HasPrefix(text, f.head) then None
    else
      var key := FieldBefore(TrimPrefix(text, f.head), f.kind);
      var kind := FieldBefore(key.1, f.data);
      var end := ReadEnd(f, kind.1);
      Some(Fields(key.0, kind.0, end.0, end.1, end.2))
  }

  /** The reader of block texts. */
  function ReadChat(text: string): Option<Fields> {
    ReadFramed(Frame("CHAT_MSG{Sender: ", ", Type: ", ", Data: ", ", Timestamp: ", ", Signature: ", "}"), text)
  }

  lemma FirstField(field: string, sep: string, rest: string)
    requires ',' !in field && sep != [] && sep[0] == ','
    ensures FieldBefore(field + sep + rest, sep) == (field, rest)
  {
    var s := field + sep + rest;
    var i := IndexOf(s, ',');
    assert s[|field|] == ',';
    assert forall k :: 0 <= k < |field| ==> s[k] == field[k];
    assert forall k :: 0 <= k < i ==> s[k] == s[..i][k];
    assert i == |field| && s[..i] == field && s[i..] == sep + rest;
    assert (sep + rest)[|sep|..] == rest;
  }

  lemma {:induction false} LastComma(front: string, tail: string)
    requires ',' !in tail
    ensures LastIndexOf(front + [','] + tail, ',') == |front|
  {
    var s := front + [','] + tail;
    if tail != [] {
      var shorter := tail[..|tail| - 1];
      assert tail[|tail| - 1] in tail && forall c :: c in shorter ==> c in tail;
      LastComma(front, shorter);
      assert s[..|s| - 1] == front + [','] + shorter;
    }
  }

  lemma LastField(front: string, sep: string, tail: string)
    requires ',' !in tail && sep != [] && sep[0] == ',' && ',' !in sep[1..]
    ensures FieldBehind(front + sep + tail, sep) == (front, tail)
  {
    var s := front + sep + tail;
    LastComma(front, sep[1..] + tail);
    assert s == front + [','] + (sep[1..] + tail);
    assert s[..|front|] == front && s[|front|..] == sep + tail;
    assert (sep + tail)[|sep|..] == tail;
  }

  /** The fields that the reader can tell apart: no comma in key, kind and
      signature; the data may be anything. */
  predicate Separable(m: Message) {
    ',' !in m.publicKey && ',' !in m.kind && ',' !in m.signature
  }

  predicate IsSeparator(s: string) {
    s != [] && s[0] == ',' && ',' !in s[1..]
  }

  /** A text of fields in a frame, grouped from the right. */
  function Framed(f: Frame, key: string, kind: string, data: string, time: string, signature: string): string {
    f.head + (key + f.kind + (kind + f.data + (data + f.time + time + f.signature + (signature + f.tail))))
  }

  lemma FramedIsFlat(f: Frame, key: string, kind: string, data: string, time: string, signature: string)
    ensures f.head + key + f.kind + kind + f.data + data + f.time + time + f.signature + signature + f.tail ==
            Framed(f, key, kind, data, time, signature)
  {
    var end := data + f.time + time + f.signature + (signature + f.tail);
    var front := f.head + key + f.kind + kind + f.data;
    assert front + data + f.time + time + f.signature + signature + f.tail == front + end;
    assert front + end == f.head + (key + f.kind + (kind + f.data + end));
  }

  lemma EndReadsBack(f: Frame, data: string, time: string, signature: string)
    requires ',' !in time && ',' !in signature && |f.tail| == 1 && ',' !in f.tail
    requires IsSeparator(f.time) && IsSeparator(f.signature)
    ensures ReadEnd(f, data + f.time + time + f.signature + (signature + f.tail)) == (data, Atoi(time), signature)
  {
    var timed := data + f.time + time;
    LastField(timed, f.signature, signature + f.tail);
    LastField(data, f.time, time);
    assert (signature + f.tail)[..|signature|] == signature;
  }

  lemma FramedReadsBack(f: Frame, key: string, kind: string, data: string, time: string, signature: string)
    requires ',' !in key && ',' !in kind && ',' !in time && ',' !in signature && |f.tail| == 1 && ',' !in f.tail
    requires IsSeparator(f.kind) && IsSeparator(f.data) && IsSeparator(f.time) && IsSeparator(f.signature)
    ensures ReadFramed(f, Framed(f, key, kind, data, time, signature)) ==
            Some(Fields(key, kind, data, Atoi(time), signature))
  {
    var end := data + f.time + time + f.signature + (signature + f.tail);
    EndReadsBack(f, data, time, signature);
    FirstField(kind, f.data, end);
    FirstField(key, f.kind, kind + f.data + end);
    TrimHead(f.head, key + f.kind + (kind + f.data + end));
  }

  lemma TrimHead(head: string, rest: string)
    ensures HasPrefix(head + rest, head) && TrimPrefix(head + rest, head) == rest
  {}

  lemma SeparatorsSeparate()
    ensures IsSeparator(", Type: ") && IsSeparator(", Data: ")
    ensures IsSeparator(", Timestamp: ") && IsSeparator(", Signature: ")
  {}

  /** A block holds the chat's key, kind, data, time and signature. */
  lemma ChatReadsBack(m: Message)
    requires Separable(m)
    ensures ReadChat(ChatData(m)) == Some(Fields(m.publicKey, m.kind, m.data, m.timestamp, m.signature))
  {
    var f := Frame("CHAT_MSG{Sender: ", ", Type: ", ", Data: ", ", Timestamp: ", ", Signature: ", "}");
    var time := Itoa(m.timestamp);
    SeparatorsSeparate();
    ItoaReadsBack(m.timestamp);
    FramedIsFlat(f, m.publicKey, m.kind, m.data, time, m.signature);
    FramedReadsBack(f, m.publicKey, m.kind, m.data, time, m.signature);
  }

  /** So equal blocks are blocks of chats that agree in every field they carry. */
  lemma EqualBlocksMeanEqualChats(a: Message, b: Message)
    requires Separable(a) && Separable(b)
    ensures ChatData(a) == ChatData(b) <==> FieldsOf(a) == FieldsOf(b)
  {
    ChatReadsBack(a);
    ChatReadsBack(b);
  }

  /** The text cannot be exchanged for another, whatever key, kind and signature
      contain. */
  lemma OtherTextMeansOtherBlock(m: Message, data: string)
    ensures ChatData(m.(data := data)) == ChatData(m) <==> data == m.data
  {
    var head := "CHAT_MSG{Sender: " + m.publicKey + ", Type: " + m.kind + ", Data: ";
    var tail := ", Timestamp: " + Itoa(m.timestamp) + ", Signature: " + m.signature + "}";
    assert ChatData(m) == head + m.data + tail;
    assert ChatData(m.(data := data)) == head + data + tail;
    if head + data + tail == head + m.data + tail {
      assert |data| == |m.data|;
      assert data == (head + data + tail)[|head|..|head| + |data|];
      assert m.data == (head + m.data + tail)[|head|..|head| + |m.data|];
    }
  }

  /** Over any run short of a clear, with acks for the node's room, every committed
      chat can be read back from the room's log, in commit order. */
  lemma CommittedChatsReadBack(cfg: Config, s: Sys, labels: seq<Label>) returns (pos: seq<nat>)
    requires AcksCarryRoom(cfg, labels) && NoClears(labels)
    ensures var t := Run(cfg, s, labels);
      && s.commits <= t.commits && |pos| == |t.commits| - |s.commits|
      && (forall j, k :: 0 <= j < k < |pos| ==> pos[j] < pos[k])
      && forall k :: 0 <= k < |pos| && Separable(t.commits[|s.commits| + k].chat) ==>
           pos[k] < |t.log| && ReadChat(t.log[pos[k]]) == Some(FieldsOf(t.commits[|s.commits| + k].chat))
  {
    pos := LogKeepsCommitOrder(cfg, s, labels);
    var t := Run(cfg, s, labels);
    forall k | 0 <= k < |pos| && Separable(t.commits[|s.commits| + k].chat)
      ensures pos[k] < |t.log| && ReadChat(t.log[pos[k]]) == Some(FieldsOf(t.commits[|s.commits| + k].chat))
    {
      ChatReadsBack(t.commits[|s.commits| + k].chat);
    }
  }
}
