/** What `GetPeersInRoom` shows after a history of additions, other blocks and
    clears: the newest snapshot stands for the whole history of additions. */
module PeerHistory {
  import opened GoText
  import opened Blocks
  import opened ChainStore
  import opened PeerLog

  datatype Event = Join(peer: Peer) | Other(data: string) | ClearRoom

  /** The log after one event; `None` is a panic while reading the peer list. */
  function After(log: seq<string>, e: Event): Option<seq<string>> {
    match e
    case Join(p) =>
      (match Peers(log)
       case None => None
       case Some(ps) => Some(log + [PeerBlock(ps + [p])]))
    case Other(data) => Some(log + [data])
    case ClearRoom => Some(Kept(log))
  }

  function AfterAll(log: seq<string>, events: seq<Event>): Option<seq<string>> {
    if events == [] then Some(log)
    else match AfterAll(log, events[..|events| - 1])
      case None => None
      case Some(l) => After(l, events[|events| - 1])
  }

  function Joined(events: seq<Event>): seq<Peer> {
    if events == [] then []
    else
      var before := Joined(events[..|events| - 1]);
      match events[|events| - 1]
      case Join(p) => before + [p]
      case _ => before
  }

  /** Peers that can be printed, and blocks that are not taken for peer blocks. */
  predicate Admissible(e: Event) {
    match e
    case Join(p) => Printable(p)
    case Other(data) => !HasPrefix(data, PEER_PREFIX)
    case ClearRoom => true
  }

  predicate NoPeerBlock(log: seq<string>) {
    forall d :: d in log ==> !HasPrefix(d, PEER_PREFIX)
  }

  /** Every peer block was written by `AddPeer`. */
  predicate PeerWritten(log: seq<string>) {
    forall d :: d in log && HasPrefix(d, PEER_PREFIX) ==> HasPrefix(d, PEER_ADDED)
  }

  /** A log whose peer list can be read and printed again. */
  predicate Healthy(log: seq<string>) {
    && log != []
    && PeerWritten(log)
    && Peers(log).Some?
    && forall p :: p in Peers(log).value ==> Printable(p)
  }

  function Members(log: seq<string>): set<string> {
    match Peers(log)
    case None => {}
    case Some(ps) => set p | p in ps :: p.publicKey
  }

  // ---------- One event ----------

  lemma {:induction false} PeersInPrefix(a: seq<string>, b: seq<string>, n: nat)
    requires n <= |a| && n <= |b| && a[..n] == b[..n]
    ensures PeersIn(a, n) == PeersIn(b, n)
  {
    if n > 0 {
      assert a[n - 1] == a[..n][n - 1] == b[..n][n - 1] == b[n - 1];
      assert a[..n - 1] == a[..n][..n - 1] == b[..n][..n - 1] == b[..n - 1];
      PeersInPrefix(a, b, n - 1);
    }
  }

  lemma OtherBlockKeepsPeers(log: seq<string>, data: string)
    requires !HasPrefix(data, PEER_PREFIX)
    ensures Peers(log + [data]) == Peers(log)
  {
    assert (log + [data])[..|log|] == log[..|log|];
    PeersInPrefix(log + [data], log, |log|);
  }

  lemma {:induction false} PeersSkipTail(log: seq<string>, k: nat, n: nat)
    requires k <= n <= |log|
    requires forall i :: k <= i < n ==> !HasPrefix(log[i], PEER_PREFIX)
    ensures PeersIn(log, n) == PeersIn(log, k)
  {
    if k < n {
      PeersSkipTail(log, k, n - 1);
    }
  }

  lemma AddedContains(data: string)
    requires HasPrefix(data, PEER_ADDED)
    ensures Contains(data, PEER_ADDED)
  {
    assert OccursAt(data, PEER_ADDED, 0);
  }

  /** The truncation finds its cut with `Contains`, the reader with `HasPrefix`.
      Whatever the chats say, the reader's block is never cut off. */
  lemma ClearKeepsPeers(log: seq<string>)
    requires log != [] && PeerWritten(log)
    ensures Kept(log) != [] && Kept(log) <= log
    ensures PeerWritten(Kept(log))
    ensures Peers(Kept(log)) == Peers(log)
  {
    var k := AfterLastPeerBlock(log, |log|);
    var kept := Kept(log);
    forall i | k <= i < |log|
      ensures !HasPrefix(log[i], PEER_PREFIX)
    {
      if HasPrefix(log[i], PEER_PREFIX) {
        assert log[i] in log;
        AddedContains(log[i]);
      }
    }
    assert kept == log[..|kept|];
    assert forall d :: d in kept ==> d in log;
    PeersSkipTail(log, |kept|, |log|);
    assert log[..|kept|] == kept[..|kept|];
    PeersInPrefix(log, kept, |kept|);
  }

  lemma PeerBlockPrefixes(peers: seq<Peer>)
    ensures HasPrefix(PeerBlock(peers), PEER_PREFIX) && HasPrefix(PeerBlock(peers), PEER_ADDED)
  {}

  lemma JoinAppendsPeer(log: seq<string>, p: Peer)
    requires Healthy(log) && Printable(p)
    ensures Peers(log + [PeerBlock(Peers(log).value + [p])]) == Some(AllAsRead(Peers(log).value + [p]))
    ensures PeerWritten(log + [PeerBlock(Peers(log).value + [p])])
  {
    var ps := Peers(log).value + [p];
    PeerBlockPrefixes(ps);
    PeerBlockRoundTrip(ps);
  }

  lemma ReadPeersArePrintable(peers: seq<Peer>)
    requires forall p :: p in peers ==> Printable(p)
    ensures forall p :: p in AllAsRead(peers) ==> Printable(p)
  {
    forall p | p in AllAsRead(peers)
      ensures Printable(p)
    {
      var i :| 0 <= i < |peers| && AllAsRead(peers)[i] == p;
      assert Printable(peers[i]);
      DerivedIPs(peers[i].publicKey);
    }
  }

  /** No admissible event makes the list unreadable or removes a member. */
  lemma MembersNeverShrink(log: seq<string>, e: Event)
    requires Healthy(log) && Admissible(e)
    ensures After(log, e).Some? && Healthy(After(log, e).value)
    ensures Members(After(log, e).value) == Members(log) + (if e.Join? then {e.peer.publicKey} else {})
  {
    match e
    case Join(p) =>
      var ps := Peers(log).value;
      JoinAppendsPeer(log, p);
      ReadPeersArePrintable(ps + [p]);
      var next := After(log, e).value;
      var read := AllAsRead(ps + [p]);
      assert forall i :: 0 <= i < |ps| ==> read[i].publicKey == ps[i].publicKey;
      assert read[|ps|].publicKey == p.publicKey;
      assert forall q :: q in ps ==> exists i :: 0 <= i < |ps| && ps[i] == q;
      assert Members(next) <= Members(log) + {p.publicKey};
      forall key | key in Members(log) + {p.publicKey}
        ensures key in Members(next)
      {
        if key in Members(log) {
          var i :| 0 <= i < |ps| && ps[i].publicKey == key;
          assert read[i] in read;
        } else {
          assert read[|ps|] in read;
        }
      }
    case Other(data) =>
      OtherBlockKeepsPeers(log, data);
    case ClearRoom =>
      ClearKeepsPeers(log);
  }

  // ---------- Whole histories ----------

  /** What the reader shows of the joined peers: all but the newest were printed
      a second time, with their derived IPs. */
  function AsSeen(joined: seq<Peer>): (seen: seq<Peer>)
    ensures |seen| == |joined|
  {
    seq(|joined|, i requires 0 <= i < |joined| =>
      if i == |joined| - 1 then AsRead(joined[i]) else AsRead(AsRead(joined[i])))
  }

  lemma SeenThenJoined(joined: seq<Peer>, p: Peer)
    ensures AsSeen(joined + [p]) == AllAsRead(AsSeen(joined) + [p])
  {}

  /** The newest snapshot shows every peer ever added, in order, after any
      history of additions, other blocks and clears. */
  lemma {:induction false} SnapshotIsReplay(log: seq<string>, events: seq<Event>)
    requires log != [] && NoPeerBlock(log)
    requires forall e :: e in events ==> Admissible(e)
    ensures AfterAll(log, events).Some? && Healthy(AfterAll(log, events).value)
    ensures Peers(AfterAll(log, events).value) == Some(AsSeen(Joined(events)))
  {
    if events == [] {
      PeersSkipTail(log, 0, |log|);
    } else {
      var before := events[..|events| - 1];
      var last := events[|events| - 1];
      assert last in events && forall e :: e in before ==> e in events;
      SnapshotIsReplay(log, before);
      var mid := AfterAll(log, before).value;
      MembersNeverShrink(mid, last);
      match last
      case Join(p) =>
        JoinAppendsPeer(mid, p);
        SeenThenJoined(Joined(before), p);
      case Other(data) =>
        OtherBlockKeepsPeers(mid, data);
      case ClearRoom =>
        ClearKeepsPeers(mid);
    }
  }

  /** The list that the additions ask for. */
  function AsAdded(joined: seq<Peer>): (added: seq<Peer>)
    ensures |added| == |joined|
  {
    seq(|joined|, i requires 0 <= i < |joined| =>
      Peer(joined[i].publicKey, DeriveIP(joined[i].publicKey), joined[i].isAdmin))
  }

  /** Keys and order are always right.  The admin flags are right exactly when
      every admin was added with a space-free IP and, once another peer followed,
      has a well-formed key: the error text that stands in for the IP of a
      malformed key has spaces, and the second printing loses the flag. */
  lemma SeenIsAddedExactlyWhen(joined: seq<Peer>)
    ensures AsSeen(joined) == AsAdded(joined) <==>
            forall i :: 0 <= i < |joined| && joined[i].isAdmin ==>
              ' ' !in joined[i].ip && (i < |joined| - 1 ==> IsKey(joined[i].publicKey))
    ensures forall i :: 0 <= i < |joined| ==> AsSeen(joined)[i].publicKey == joined[i].publicKey
  {
    forall i | 0 <= i < |joined|
      ensures AsSeen(joined)[i] == AsAdded(joined)[i] <==>
              (joined[i].isAdmin ==> ' ' !in joined[i].ip && (i < |joined| - 1 ==> IsKey(joined[i].publicKey)))
    {
      DerivedIPs(joined[i].publicKey);
    }
    if AsSeen(joined) == AsAdded(joined) {
      forall i | 0 <= i < |joined|
        ensures AsSeen(joined)[i] == AsAdded(joined)[i]
      {}
    }
  }

  /** Rooms of every size exist: a genesis block and one list of peers. */
  lemma RoomOf(keys: seq<string>) returns (log: seq<string>)
    requires forall key :: key in keys ==> Lacks(key, {' ', '{', '}'})
    ensures Healthy(log) && Members(log) == set key | key in keys
  {
    var peers := seq(|keys|, i requires 0 <= i < |keys| => Peer(keys[i], "::", false));
    log := [GENESIS_TEXT, PeerBlock(peers)];
    PeerBlockPrefixes(peers);
    PeerBlockRoundTrip(peers);
    ReadPeersArePrintable(peers);
    assert Peers(log) == Some(AllAsRead(peers));
    KeysRead(peers, keys);
  }

  lemma KeysRead(peers: seq<Peer>, keys: seq<string>)
    requires |peers| == |keys| && forall i :: 0 <= i < |keys| ==> peers[i].publicKey == keys[i]
    ensures (set p | p in AllAsRead(peers) :: p.publicKey) == set key | key in keys
  {
    forall key | key in keys
      ensures key in set p | p in AllAsRead(peers) :: p.publicKey
    {
      var i :| 0 <= i < |keys| && keys[i] == key;
      assert AllAsRead(peers)[i] in AllAsRead(peers);
    }
  }

  // ---------- Removal ----------

  /** `json.Marshal` of a peer list, left undefined. */
  const MarshalPeers: seq<Peer> -> string

  const PEER_REMOVED := "PEER_REMOVED\n"

  /** After `RemovePeer` the reader sees what it can parse of that block, whatever
      is appended short of another peer block.  The block itself has no `$` for
      the reader to split at: unless the list holds one, every read panics. */
  lemma {:induction false} RemovalMakesPeersUnreadable(log: seq<string>, left: seq<Peer>, later: seq<string>)
    requires NoPeerBlock(later)
    ensures Peers(log + [PEER_REMOVED + MarshalPeers(left)] + later) == ParseBlock(PEER_REMOVED + MarshalPeers(left))
    ensures '$' !in MarshalPeers(left) ==> Peers(log + [PEER_REMOVED + MarshalPeers(left)] + later) == None
    decreases |later|
  {
    var block := PEER_REMOVED + MarshalPeers(left);
    if later == [] {
      assert log + [block] + later == log + [block];
      assert block[..5] == PEER_PREFIX;
      if '$' !in MarshalPeers(left) {
        SplitNone(block, '$', 2);
      }
    } else {
      var front := later[..|later| - 1];
      RemovalMakesPeersUnreadable(log, left, front);
      assert later[|later| - 1] in later && forall d :: d in front ==> d in later;
      OtherBlockKeepsPeers(log + [block] + front, later[|later| - 1]);
      assert log + [block] + front + [later[|later| - 1]] == log + [block] + later;
    }
  }
}
