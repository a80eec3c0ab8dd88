/** The rooms' chains: the in-memory map of `src/blockchain/blockchain.go`, the
    files behind it, and the truncation of `src/network_gossip/network_gossip.go`.
    A file is a value of `disk`; reading and writing it succeeds. */
module ChainStore {
  import opened GoText
  import opened Blocks

  datatype Stored = Stored(cache: map<string, seq<Block>>, disk: map<string, seq<Block>>)

  /** The chain that `GetBlockchain` returns for a room. */
  function View(s: Stored, room: string): seq<Block> {
    if room in s.cache then s.cache[room]
    else if room in s.disk then s.disk[room]
    else [Genesis()]
  }

  function LogOf(s: Stored, room: string): seq<string> {
    Log(View(s, room))
  }

  /** A room that was never written to shows one entry. */
  lemma NewRoomHoldsGenesis(s: Stored, room: string)
    requires room !in s.cache && room !in s.disk
    ensures LogOf(s, room) == ["Genesis Block"]
  {}

  // ---------- What each operation does to the map and the files ----------

  function Loaded(s: Stored, room: string): Stored {
    if room in s.cache then s
    else if room in s.disk then s.(cache := s.cache[room := s.disk[room]])
    else Stored(s.cache[room := [Genesis()]], s.disk[room := [Genesis()]])
  }

  /** Both copies of a room after `SaveBlockchainToFile`. */
  function Saved(s: Stored, room: string, chain: seq<Block>): Stored {
    Stored(s.cache[room := chain], s.disk[room := chain])
  }

  function Added(s: Stored, room: string, data: string, now: string): Stored
    requires View(s, room) != []
  {
    var chain := View(s, room);
    Saved(Loaded(s, room), room, chain + [GenerateBlock(chain[|chain| - 1], data, now)])
  }

  function Replaced(s: Stored, room: string, blocks: seq<Block>): Stored {
    if |blocks| > |View(s, room)| then Saved(Loaded(s, room), room, blocks) else Loaded(s, room)
  }

  function Cleared(s: Stored, room: string): Stored {
    s.(cache := s.cache - {room})
  }

  const PEER_ADDED := "PEER_ADDED"

  /** One more than the position of the last of the first `n` entries that
      contains "PEER_ADDED"; 0 if there is none. */
  function AfterLastPeerBlock(log: seq<string>, n: nat): (k: nat)
    requires n <= |log|
    ensures k <= n
    ensures k > 0 ==> Contains(log[k - 1], PEER_ADDED)
    ensures forall i :: k <= i < n ==> !Contains(log[i], PEER_ADDED)
  {
    if n == 0 then 0
    else if Contains(log[n - 1], PEER_ADDED) then n
    else AfterLastPeerBlock(log, n - 1)
  }

  /** How many blocks `clearBlockchainForRoom` keeps. */
  function KeptLength(log: seq<string>): nat {
    var k := AfterLastPeerBlock(log, |log|);
    if k > 0 then k else 1
  }

  /** The truncation on logs. */
  function Kept(log: seq<string>): seq<string> {
    if log == [] then [] else log[..KeptLength(log)]
  }

  /** What a clear must leave of a log: a beginning that ends with the last entry
      that mentions an added peer, or else with the first entry. */
  ghost predicate CutBehindPeers(before: seq<string>, after: seq<string>) {
    && 1 <= |after| <= |before| && after == before[..|after|]
    && (forall i :: |after| <= i < |before| ==> !Contains(before[i], "PEER_ADDED"))
    && (|after| == 1 || Contains(before[|after| - 1], "PEER_ADDED"))
  }

  /** The truncation is the one cut that meets this. */
  lemma KeptIsCut(log: seq<string>, after: seq<string>)
    requires log != []
    ensures CutBehindPeers(log, after) <==> after == Kept(log)
  {
    var k := AfterLastPeerBlock(log, |log|);
    if CutBehindPeers(log, after) {
      assert k > 0 ==> !(|after| <= k - 1 < |log|);
      assert |after| == KeptLength(log);
    }
  }

  /** Entries that follow the last mention of a peer are all gone after a clear,
      and so are all but the first of a log without one. */
  lemma ClearRemovesWhatFollows(front: seq<string>, last: string, later: seq<string>)
    requires front == [] || Contains(last, "PEER_ADDED")
    requires forall d :: d in later ==> !Contains(d, "PEER_ADDED")
    ensures Kept(front + [last] + later) == front + [last]
  {
    var log := front + [last] + later;
    assert forall i :: |front| < i < |log| ==> log[i] in later;
    assert log[..|front| + 1] == front + [last] && log[|front|] == last;
    KeptIsCut(log, front + [last]);
  }

  /** The file alone is rewritten; a missing file is an error that changes nothing. */
  function Truncated(s: Stored, room: string): Stored {
    if room !in s.disk || s.disk[room] == [] then s
    else s.(disk := s.disk[room := s.disk[room][..KeptLength(Log(s.disk[room]))]])
  }

  // ---------- The store itself ----------

  class Blockchains {
    var cache: map<string, seq<Block>>
    var disk: map<string, seq<Block>>

    ghost function State(): Stored
      reads this
    {
      Stored(cache, disk)
    }

    constructor (files: map<string, seq<Block>>)
      ensures State() == Stored(map[], files)
    {
      cache, disk := map[], files;
    }

    /** A room that is not in memory is saved as an empty list. */
    method SaveBlockchainToFile(room: string)
      modifies this
      ensures State() == Stored(old(cache), old(disk)[room := if room in old(cache) then old(cache)[room] else []])
    {
      disk := disk[room := if room in cache then cache[room] else []];
    }

    method LoadBlockchainFromFile(room: string)
      modifies this
      ensures State() == Loaded(old(State()), room)
    {
      if room in cache {
        return;
      }
      if room !in disk {
        var genesis := Block(0, GENESIS_TEXT, GENESIS_TEXT, "", "");
        genesis := genesis.(hash := CalculateHash(genesis));
        cache := cache[room := [genesis]];
        SaveBlockchainToFile(room);
        return;
      }
      cache := cache[room := disk[room]];
    }

    method GetBlockchain(room: string) returns (chain: seq<Block>)
      modifies this
      ensures State() == Loaded(old(State()), room)
      ensures chain == View(old(State()), room)
    {
      LoadBlockchainFromFile(room);
      chain := if room in cache then cache[room] else [];
    }

    method AddBlock(data: string, room: string, now: string)
      requires View(State(), room) != []
      modifies this
      ensures State() == Added(old(State()), room, data, now)
    {
      LoadBlockchainFromFile(room);
      var chain := cache[room];
      assert chain == View(old(State()), room);
      var lastBlock := chain[|chain| - 1];
      cache := cache[room := chain + [GenerateBlock(lastBlock, data, now)]];
      SaveBlockchainToFile(room);
    }

    method ReplaceChain(blocks: seq<Block>, room: string)
      modifies this
      ensures State() == Replaced(old(State()), room, blocks)
    {
      LoadBlockchainFromFile(room);
      if |blocks| > |cache[room]| {
        cache := cache[room := blocks];
        SaveBlockchainToFile(room);
      }
    }

    method ClearBlockchain(room: string)
      modifies this
      ensures State() == Cleared(old(State()), room)
    {
      cache := cache - {room};
    }

    method ClearBlockchainForRoom(room: string) returns (ok: bool)
      requires room in disk ==> disk[room] != []
      modifies this
      ensures State() == Truncated(old(State()), room)
      ensures ok <==> room in old(disk)
      ensures ok ==> room in disk && CutBehindPeers(Log(old(disk)[room]), Log(disk[room]))
    {
      if room !in disk {
        return false;
      }
      var chain := disk[room];
      var lastPeerIndex := -1;
      var i := |chain| - 1;
      while i >= 0
        invariant -1 <= i < |chain|
        invariant lastPeerIndex == -1
        invariant AfterLastPeerBlock(Log(chain), i + 1) == AfterLastPeerBlock(Log(chain), |chain|)
      {
        if Contains(chain[i].data, PEER_ADDED) {
          lastPeerIndex := i;
          break;
        }
        i := i - 1;
      }
      disk := disk[room := if lastPeerIndex >= 0 then chain[..lastPeerIndex + 1] else chain[..1]];
      KeptLengthFits(chain);
      KeptIsCut(Log(chain), Kept(Log(chain)));
      return true;
    }
  }

  // ---------- The invariant of cache and files ----------

  /** Every file is a valid chain and every cached chain is its file. */
  ghost predicate Coherent(s: Stored) {
    && (forall room :: room in s.disk ==> ValidChain(s.disk[room]))
    && (forall room :: room in s.cache ==> room in s.disk && s.cache[room] == s.disk[room])
  }

  datatype Op =
    | Load(room: string)
    | Add(room: string, data: string, now: string)
    | Replace(room: string, blocks: seq<Block>)
    | Clear(room: string)
    | Truncate(room: string)

  function Do(s: Stored, op: Op): Stored {
    match op
    case Load(room) => Loaded(s, room)
    case Add(room, data, now) => if View(s, room) == [] then s else Added(s, room, data, now)
    case Replace(room, blocks) => Replaced(s, room, blocks)
    case Clear(room) => Cleared(s, room)
    case Truncate(room) => Truncated(s, room)
  }

  function DoAll(s: Stored, ops: seq<Op>): Stored
    decreases |ops|
  {
    if ops == [] then s else DoAll(Do(s, ops[0]), ops[1..])
  }

  lemma ViewIsValid(s: Stored, room: string)
    requires Coherent(s)
    ensures ValidChain(View(s, room))
  {}

  /** When an operation may run: the two that the code leaves unguarded are
      `ReplaceChain`, which does not validate its input, and the truncation of
      the file, which does not look at the cache. */
  ghost predicate Harmless(s: Stored, op: Op) {
    match op
    case Replace(room, blocks) => ValidChain(blocks) || |blocks| <= |View(s, room)|
    case Truncate(room) => room in s.cache ==> KeptLength(LogOf(s, room)) == |View(s, room)|
    case _ => true
  }

  lemma KeptLengthFits(chain: seq<Block>)
    requires chain != []
    ensures 0 < KeptLength(Log(chain)) <= |chain|
    ensures Log(chain[..KeptLength(Log(chain))]) == Kept(Log(chain))
  {}

  lemma SavedIsCoherent(s: Stored, room: string, chain: seq<Block>)
    requires Coherent(s)
    ensures Coherent(Saved(s, room, chain)) <==> ValidChain(chain)
  {
    assert Saved(s, room, chain).disk[room] == chain;
  }

  lemma LoadedIsCoherent(s: Stored, room: string)
    requires Coherent(s)
    ensures Coherent(Loaded(s, room))
  {}

  lemma TruncatedIsCoherent(s: Stored, room: string)
    requires Coherent(s)
    ensures Coherent(Truncated(s, room)) <==> Harmless(s, Truncate(room))
  {}

  /** An operation keeps cache and files coherent exactly when it is harmless. */
  lemma CoherentExactlyWhenHarmless(s: Stored, op: Op)
    requires Coherent(s)
    ensures Coherent(Do(s, op)) <==> Harmless(s, op)
  {
    ViewIsValid(s, op.room);
    LoadedIsCoherent(s, op.room);
    match op
    case Add(room, data, now) =>
      GeneratedBlockExtends(View(s, room), data, now);
      SavedIsCoherent(Loaded(s, room), room, Added(s, room, data, now).disk[room]);
    case Replace(room, blocks) =>
      SavedIsCoherent(Loaded(s, room), room, blocks);
    case Truncate(room) =>
      TruncatedIsCoherent(s, room);
    case _ =>
  }

  ghost predicate AllHarmless(s: Stored, ops: seq<Op>)
    decreases |ops|
  {
    ops == [] || (Harmless(s, ops[0]) && AllHarmless(Do(s, ops[0]), ops[1..]))
  }

  /** Any sequence of harmless operations keeps every room's cached chain equal
      to its file and every chain valid. */
  lemma {:induction false} CoherentOverRuns(s: Stored, ops: seq<Op>)
    requires Coherent(s) && AllHarmless(s, ops)
    ensures Coherent(DoAll(s, ops))
    decreases |ops|
  {
    if ops != [] {
      CoherentExactlyWhenHarmless(s, ops[0]);
      CoherentOverRuns(Do(s, ops[0]), ops[1..]);
    }
  }

  /** What one operation does to the log of each room. */
  lemma LogsAfter(s: Stored, op: Op, room: string)
    requires Coherent(s) && Harmless(s, op)
    ensures var before, after := LogOf(s, room), LogOf(Do(s, op), room);
      if room != op.room || op.Load? || op.Clear? then after == before
      else if op.Add? then after == before + [op.data]
      else if op.Replace? then after == if |op.blocks| > |before| then Log(op.blocks) else before
      else after == Kept(before)
  {
    ViewIsValid(s, op.room);
    match op
    case Add(r, data, now) =>
      GeneratedBlockExtends(View(s, r), data, now);
    case Truncate(r) =>
      TruncatedLog(s, r);
    case _ =>
  }

  lemma TruncatedLog(s: Stored, room: string)
    requires Coherent(s) && Harmless(s, Truncate(room))
    ensures LogOf(Truncated(s, room), room) == Kept(LogOf(s, room))
  {}

  /** A room's chain never gets shorter except by truncation. */
  lemma {:induction false} LengthNeverFalls(s: Stored, ops: seq<Op>, room: string)
    requires Coherent(s) && AllHarmless(s, ops)
    requires forall op :: op in ops ==> op != Truncate(room)
    ensures |LogOf(s, room)| <= |LogOf(DoAll(s, ops), room)|
    decreases |ops|
  {
    if ops != [] {
      assert ops[0] in ops && forall op :: op in ops[1..] ==> op in ops;
      LogsAfter(s, ops[0], room);
      CoherentExactlyWhenHarmless(s, ops[0]);
      LengthNeverFalls(Do(s, ops[0]), ops[1..], room);
    }
  }

  // ---------- The clear command ----------

  /** `ClearBlockchain` followed at once by `clearBlockchainForRoom`. */
  function ClearRoom(s: Stored, room: string): Stored {
    Truncated(Cleared(s, room), room)
  }

  lemma KeptIsStable(log: seq<string>)
    ensures Kept(Kept(log)) == Kept(log)
  {}

  /** Run back to back, the two steps keep the store coherent, leave the other
      rooms alone and truncate the room's log. */
  lemma ClearRoomTruncates(s: Stored, room: string)
    requires Coherent(s)
    ensures Coherent(ClearRoom(s, room))
    ensures LogOf(ClearRoom(s, room), room) == Kept(LogOf(s, room))
    ensures CutBehindPeers(LogOf(s, room), LogOf(ClearRoom(s, room), room))
    ensures forall other :: other != room ==> LogOf(ClearRoom(s, room), other) == LogOf(s, other)
  {
    var c := Cleared(s, room);
    ViewIsValid(s, room);
    KeptIsCut(LogOf(s, room), Kept(LogOf(s, room)));
    CoherentExactlyWhenHarmless(s, Clear(room));
    CoherentExactlyWhenHarmless(c, Truncate(room));
    LogsAfter(s, Clear(room), room);
    LogsAfter(c, Truncate(room), room);
    forall other | other != room
      ensures LogOf(ClearRoom(s, room), other) == LogOf(s, other)
    {
      LogsAfter(s, Clear(room), other);
      LogsAfter(c, Truncate(room), other);
    }
  }

  /** Clearing twice is clearing once. */
  lemma ClearRoomTwice(s: Stored, room: string)
    requires Coherent(s)
    ensures ClearRoom(ClearRoom(s, room), room) == ClearRoom(s, room)
  {
    var t := ClearRoom(s, room);
    if room in s.disk {
      var log := Log(s.disk[room]);
      KeptLengthFits(s.disk[room]);
      KeptIsStable(log);
      assert Log(t.disk[room]) == Kept(log);
      KeptLengthFits(t.disk[room]);
      assert |Kept(log)| == KeptLength(Kept(log));
      var kept := t.disk[room];
      assert kept[..KeptLength(Log(kept))] == kept;
      assert t.disk[room := kept] == t.disk && t.cache - {room} == t.cache;
    }
  }

  /** With a load between the two steps the clear does not last: the next
      `AddBlock` writes every cleared block back to the file. */
  lemma LoadBetweenStepsUndoesClear(s: Stored, room: string, data: string, now: string)
    requires Coherent(s) && room in s.disk
    ensures var raced := Truncated(Loaded(Cleared(s, room), room), room);
      && raced.disk[room] == s.disk[room][..KeptLength(LogOf(s, room))]
      && LogOf(raced, room) == LogOf(s, room)
      && Added(raced, room, data, now).disk[room] == Added(s, room, data, now).disk[room]
      && Log(Added(raced, room, data, now).disk[room]) == LogOf(s, room) + [data]
  {
    ViewIsValid(s, room);
    GeneratedBlockExtends(View(s, room), data, now);
  }
}
