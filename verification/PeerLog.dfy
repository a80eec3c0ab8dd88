/** The peer list as a view over a room's log (`src/peerDetails/peerDetails.go`):
    how a list is printed into a block, how the newest block is read back, and
    what a reader sees after any history of additions, other blocks and clears. */
module PeerLog {
  import opened GoText
  import opened ChainStore

  datatype Peer = Peer(publicKey: string, ip: string, isAdmin: bool)

  predicate Lacks(s: string, chars: set<char>) {
    forall c :: c in s ==> c !in chars
  }

  /** The text of a Yggdrasil address: hex digits and colons only. */
  type Address = s: string | Lacks(s, {' ', '{', '}'}) witness "::"

  /** Yggdrasil's address derivation, left undefined. */
  const AddrForKey: string -> Address

  predicate IsHex(s: string) {
    forall c :: c in s ==> '0' <= c <= '9' || 'a' <= c <= 'f' || 'A' <= c <= 'F'
  }

  /** A hex-encoded ed25519 public key. */
  predicate IsKey(key: string) {
    IsHex(key) && |key| == 64
  }

  /** `DeriveIPAddressFromPublicKey`: its errors are texts with spaces. */
  function DeriveIP(key: string): string {
    if !IsHex(key) || |key| % 2 != 0 then "invalid public key format"
    else if |key| != 64 then "invalid public key size"
    else AddrForKey(key)
  }

  lemma DerivedIPs(key: string)
    ensures Lacks(DeriveIP(key), {'{', '}'})
    ensures ' ' !in DeriveIP(key) <==> IsKey(key)
  {
    var text := DeriveIP(key);
    if !IsHex(key) || |key| % 2 != 0 {
      assert text[7] == ' ' && text in ["invalid public key format"];
    } else if |key| != 64 {
      assert text[7] == ' ' && text in ["invalid public key size"];
    }
  }

  /** 64 hex digits of either case give an address; anything else gives one of the
      two error texts. */
  lemma DeriveIPOutcome(key: string)
    ensures var hex := forall c :: c in key ==> c in "0123456789abcdefABCDEF";
      DeriveIP(key) ==
        if hex && |key| == 64 then AddrForKey(key)
        else if hex && |key| % 2 == 0 then "invalid public key size"
        else "invalid public key format"
  {
    forall c: char
      ensures c in "0123456789abcdefABCDEF" <==> '0' <= c <= '9' || 'a' <= c <= 'f' || 'A' <= c <= 'F'
    {
      HexDigits(c);
    }
  }

  lemma HexDigits(c: char)
    ensures c in "0123456789abcdefABCDEF" <==> '0' <= c <= '9' || 'a' <= c <= 'f' || 'A' <= c <= 'F'
  {
    var digits := "0123456789abcdefABCDEF";
    if '0' <= c <= '9' {
      assert digits[c as int - '0' as int] == c;
    } else if 'a' <= c <= 'f' {
      assert digits[10 + c as int - 'a' as int] == c;
    } else if 'A' <= c <= 'F' {
      assert digits[16 + c as int - 'A' as int] == c;
    }
  }

  // ---------- Printing ----------

  function Fields(p: Peer): string {
    p.publicKey + " " + (p.ip + " " + FormatBool(p.isAdmin))
  }

  /** What the loop of `AddPeer` still has to print from peer `i` on. */
  function PrintFrom(peers: seq<Peer>, i: nat): string
    requires i <= |peers|
    decreases |peers| - i
  {
    if i == |peers| then "]"
    else "{" + Fields(peers[i]) + "}" + (if i != |peers| - 1 then ", " else "") + PrintFrom(peers, i + 1)
  }

  function PeerBlock(peers: seq<Peer>): string {
    PEER_ADDED + "$" + ("[" + PrintFrom(peers, 0))
  }

  /** What a peer looks like in a block. */
  function PeerText(p: Peer): string {
    "{" + p.publicKey + " " + p.ip + " " + (if p.isAdmin then "true" else "false") + "}"
  }

  function PeerTexts(peers: seq<Peer>, i: nat): (texts: seq<string>)
    requires i <= |peers|
    ensures |texts| == |peers| - i
    ensures forall k :: 0 <= k < |texts| ==> texts[k] == PeerText(peers[i + k])
  {
    seq(|peers| - i, k requires 0 <= k < |peers| - i => PeerText(peers[i + k]))
  }

  lemma FieldsText(p: Peer)
    ensures "{" + Fields(p) + "}" == PeerText(p)
  {}

  lemma PrintedStep(peers: seq<Peer>, i: nat)
    requires i < |peers|
    ensures PrintFrom(peers, i) ==
            PeerText(peers[i]) + (if i + 1 < |peers| then ", " + PrintFrom(peers, i + 1) else "]")
  {
    FieldsText(peers[i]);
    if i + 1 < |peers| {
      Regroup(PeerText(peers[i]), ", ", PrintFrom(peers, i + 1));
    } else {
      assert PeerText(peers[i]) + "" == PeerText(peers[i]);
    }
  }

  lemma Regroup(a: string, b: string, c: string)
    ensures a + b + c == a + (b + c)
  {}

  lemma TextsStep(peers: seq<Peer>, i: nat)
    requires i < |peers|
    ensures Join(PeerTexts(peers, i), ", ") ==
            PeerText(peers[i]) + (if i + 1 < |peers| then ", " + Join(PeerTexts(peers, i + 1), ", ") else "")
  {
    assert PeerTexts(peers, i) == [PeerText(peers[i])] + PeerTexts(peers, i + 1);
    if i + 1 < |peers| {
      JoinFirst(PeerText(peers[i]), PeerTexts(peers, i + 1), ", ");
      Regroup(PeerText(peers[i]), ", ", Join(PeerTexts(peers, i + 1), ", "));
    }
  }

  lemma {:induction false} PrintedIsJoined(peers: seq<Peer>, i: nat)
    requires i <= |peers|
    ensures PrintFrom(peers, i) == Join(PeerTexts(peers, i), ", ") + "]"
    decreases |peers| - i
  {
    if i < |peers| {
      PrintedStep(peers, i);
      TextsStep(peers, i);
      if i + 1 < |peers| {
        PrintedIsJoined(peers, i + 1);
        Regroup(", ", Join(PeerTexts(peers, i + 1), ", "), "]");
        Regroup(PeerText(peers[i]), ", " + Join(PeerTexts(peers, i + 1), ", "), "]");
      }
    }
  }

  /** A peer block shows key, IP and admin flag of every peer, in order. */
  lemma PeerBlockText(peers: seq<Peer>)
    ensures PeerBlock(peers) == "PEER_ADDED$[" + Join(PeerTexts(peers, 0), ", ") + "]"
  {
    PrintedIsJoined(peers, 0);
    var joined := Join(PeerTexts(peers, 0), ", ");
    assert "PEER_ADDED" + "$" + ("[" + (joined + "]")) == "PEER_ADDED" + "$" + "[" + joined + "]";
    assert "PEER_ADDED" + "$" + "[" == "PEER_ADDED$[";
  }

  // ---------- Reading ----------

  /** Reads one piece between braces; `None` is the index panic of a piece with
      fewer than three fields. */
  function ParsePeer(piece: string): Option<Peer> {
    var fields := SplitN(SplitN(piece, '}', 2)[0], ' ', 3);
    if |fields| < 3 then None
    else
      var isAdmin := match ParseBool(fields[2]) case Some(b) => b case None => false;
      Some(Peer(fields[0], DeriveIP(fields[0]), isAdmin))
  }

  /** Reads the pieces from `i` on with `parse`, stopping at the first panic. */
  function ParseFrom<T>(parse: string -> Option<T>, pieces: seq<string>, i: nat): Option<seq<T>>
    decreases |pieces| - i
  {
    if i >= |pieces| then Some([])
    else match parse(pieces[i])
      case None => None
      case Some(p) =>
        match ParseFrom(parse, pieces, i + 1)
        case None => None
        case Some(rest) => Some([p] + rest)
  }

  const PEER_PREFIX := "PEER_"

  /** Reads a `PEER_` block; `None` is the index panic of a block without `$`. */
  function ParseBlock(data: string): Option<seq<Peer>> {
    var parts := SplitN(data, '$', 2);
    if |parts| < 2 then None else ParseFrom(ParsePeer, SplitN(parts[1], '{', -1), 1)
  }

  /** `GetPeersInRoom` looking at the first `n` blocks of a log. */
  function PeersIn(log: seq<string>, n: nat): Option<seq<Peer>>
    requires n <= |log|
  {
    if n == 0 then Some([])
    else if HasPrefix(log[n - 1], PEER_PREFIX) then ParseBlock(log[n - 1])
    else PeersIn(log, n - 1)
  }

  function Peers(log: seq<string>): Option<seq<Peer>> {
    PeersIn(log, |log|)
  }

  // ---------- Round trip ----------

  /** A peer that can be printed: no separator in its key, no brace in its IP. */
  predicate Printable(p: Peer) {
    Lacks(p.publicKey, {' ', '{', '}'}) && Lacks(p.ip, {'{', '}'})
  }

  /** A peer as it is read back: the IP is derived anew, and a space in the
      printed IP spoils the admin flag. */
  function AsRead(p: Peer): Peer {
    Peer(p.publicKey, DeriveIP(p.publicKey), p.isAdmin && ' ' !in p.ip)
  }

  function AllAsRead(peers: seq<Peer>): (read: seq<Peer>)
    ensures |read| == |peers|
    ensures forall i :: 0 <= i < |peers| ==> read[i] == AsRead(peers[i])
  {
    seq(|peers|, i requires 0 <= i < |peers| => AsRead(peers[i]))
  }

  lemma SpacedIPSpoilsFlag(ip: string, flag: string)
    requires ' ' in ip
    ensures |SplitN(ip + " " + flag, ' ', 2)| == 2
    ensures ParseBool(SplitN(ip + " " + flag, ' ', 2)[1]) == None
  {
    var i := IndexOf(ip, ' ');
    assert ip[..|ip|] == ip;
    var tail := ip[i + 1..] + " " + flag;
    assert ip + " " + flag == ip[..i] + [' '] + tail;
    SplitStep(ip[..i], ' ', tail, 2);
    assert tail[|ip| - i - 1] == ' ';
    SpacedIsNoBool(tail);
  }

  /** The three fields of a printed peer. */
  lemma FieldsSplit(p: Peer)
    requires ' ' !in p.publicKey
    ensures var fields := SplitN(Fields(p), ' ', 3);
      && |fields| == 3 && fields[0] == p.publicKey
      && ParseBool(fields[2]) == if ' ' in p.ip then None else Some(p.isAdmin)
  {
    var flag := FormatBool(p.isAdmin);
    SplitStep(p.publicKey, ' ', p.ip + " " + flag, 3);
    if ' ' in p.ip {
      SpacedIPSpoilsFlag(p.ip, flag);
    } else {
      SplitStep(p.ip, ' ', flag, 2);
      ParseFormattedBool(p.isAdmin);
    }
  }

  lemma PrintedPeerReadsBack(p: Peer, tail: string)
    requires Printable(p)
    ensures ParsePeer(Fields(p) + "}" + tail) == Some(AsRead(p))
  {
    ParseFormattedBool(p.isAdmin);
    assert '}' !in p.publicKey && '}' !in p.ip;
    SplitStep(Fields(p), '}', tail, 2);
    FieldsSplit(p);
  }

  lemma AllAsReadFrom(peers: seq<Peer>, i: nat)
    requires i < |peers|
    ensures AllAsRead(peers[i..]) == [AsRead(peers[i])] + AllAsRead(peers[i + 1..])
  {}

  /** What follows the opening brace of peer `i`, up to the next one. */
  function Piece(peers: seq<Peer>, i: nat): string
    requires i < |peers|
  {
    Fields(peers[i]) + "}" + (if i != |peers| - 1 then ", " else "")
  }

  lemma PieceHasNoBrace(peers: seq<Peer>, i: nat)
    requires i < |peers| && Printable(peers[i])
    ensures '{' !in Piece(peers, i)
  {}

  lemma PrintedSplits(peers: seq<Peer>, i: nat, head: string)
    requires i < |peers| && '{' !in head
    ensures SplitN(head + PrintFrom(peers, i), '{', -1) ==
            [head] + SplitN(Piece(peers, i) + PrintFrom(peers, i + 1), '{', -1)
  {
    var after := Piece(peers, i) + PrintFrom(peers, i + 1);
    assert PrintFrom(peers, i) == ['{'] + after;
    assert head + PrintFrom(peers, i) == head + ['{'] + after;
    SplitStep(head, '{', after, -1);
  }

  /** The piece of peer `i` reads back, with the end of the list still attached
      when it is the last. */
  lemma PrintedPieceReadsBack(peers: seq<Peer>, i: nat)
    requires i < |peers| && Printable(peers[i])
    ensures var pieces := SplitN(Piece(peers, i) + PrintFrom(peers, i + 1), '{', -1);
      ParsePeer(pieces[0]) == Some(AsRead(peers[i]))
  {
    PieceHasNoBrace(peers, i);
    if i + 1 < |peers| {
      PrintedSplits(peers, i + 1, Piece(peers, i));
      PrintedPeerReadsBack(peers[i], ", ");
    } else {
      LastPiece(peers, i);
      PrintedPeerReadsBack(peers[i], "]");
    }
  }

  lemma LastPiece(peers: seq<Peer>, i: nat)
    requires i == |peers| - 1 && '{' !in Piece(peers, i)
    ensures SplitN(Piece(peers, i) + PrintFrom(peers, i + 1), '{', -1) == [Fields(peers[i]) + "}" + "]"]
  {
    var piece := Piece(peers, i);
    assert piece == Fields(peers[i]) + "}";
    assert '{' !in piece + "]";
    SplitNone(piece + "]", '{', -1);
  }

  /** Reading `head{peer}, {peer}]` from peer `i` on gives those peers. */
  ghost predicate ReadsBack(peers: seq<Peer>, i: nat, head: string)
    requires i <= |peers|
  {
    ParseFrom(ParsePeer, SplitN(head + PrintFrom(peers, i), '{', -1), 1) == Some(AllAsRead(peers[i..]))
  }

  lemma PrintedEndReadsBack(peers: seq<Peer>, head: string)
    requires '{' !in head
    ensures ReadsBack(peers, |peers|, head)
  {}

  lemma PrintedListStep(peers: seq<Peer>, i: nat, head: string)
    requires i < |peers| && '{' !in head && Printable(peers[i])
    requires ReadsBack(peers, i + 1, Piece(peers, i))
    ensures ReadsBack(peers, i, head)
  {
    var later := SplitN(Piece(peers, i) + PrintFrom(peers, i + 1), '{', -1);
    PrintedSplits(peers, i, head);
    PrintedPieceReadsBack(peers, i);
    ParseFromCons(ParsePeer, [head], later, AsRead(peers[i]), AllAsRead(peers[i + 1..]));
    AllAsReadFrom(peers, i);
  }

  lemma {:induction false} PrintedListReadsBack(peers: seq<Peer>, i: nat, head: string)
    requires i <= |peers| && '{' !in head
    requires forall p :: p in peers ==> Printable(p)
    ensures ReadsBack(peers, i, head)
    decreases |peers| - i
  {
    if i == |peers| {
      PrintedEndReadsBack(peers, head);
    } else {
      PieceHasNoBrace(peers, i);
      PrintedListReadsBack(peers, i + 1, Piece(peers, i));
      PrintedListStep(peers, i, head);
    }
  }

  lemma {:induction false} ParseFromOffset<T>(parse: string -> Option<T>, front: seq<string>,
                                              pieces: seq<string>, i: nat)
    requires |front| == 1
    ensures ParseFrom(parse, front + pieces, i + 1) == ParseFrom(parse, pieces, i)
    decreases |pieces| - i
  {
    if i < |pieces| {
      assert (front + pieces)[i + 1] == pieces[i];
      ParseFromOffset(parse, front, pieces, i + 1);
    }
  }

  lemma ParseFromCons<T>(parse: string -> Option<T>, front: seq<string>, pieces: seq<string>, p: T, rest: seq<T>)
    requires |front| == 1 && pieces != []
    requires parse(pieces[0]) == Some(p) && ParseFrom(parse, pieces, 1) == Some(rest)
    ensures ParseFrom(parse, front + pieces, 1) == Some([p] + rest)
  {
    ParseFromOffset(parse, front, pieces, 0);
  }

  /** Reading the block that `AddPeer` prints gives the printed peers, in order,
      with derived IPs. */
  lemma PeerBlockRoundTrip(peers: seq<Peer>)
    requires forall p :: p in peers ==> Printable(p)
    ensures ParseBlock(PeerBlock(peers)) == Some(AllAsRead(peers))
  {
    var list := "[" + PrintFrom(peers, 0);
    assert PeerBlock(peers) == PEER_ADDED + ['$'] + list;
    SplitStep(PEER_ADDED, '$', list, 2);
    PrintedListReadsBack(peers, 0, "[");
    assert peers[0..] == peers;
  }

  /** Printing and reading what was read once more changes nothing, exactly when
      every peer read as an admin has a well-formed key. */
  lemma SecondRoundTrip(peers: seq<Peer>)
    requires forall p :: p in peers ==> Printable(p)
    ensures ParseBlock(PeerBlock(AllAsRead(peers))) == Some(AllAsRead(peers)) <==>
            forall p :: p in peers && p.isAdmin && ' ' !in p.ip ==> IsKey(p.publicKey)
  {
    var read := AllAsRead(peers);
    forall p | p in read
      ensures Printable(p)
    {
      var i :| 0 <= i < |peers| && read[i] == p;
      assert Printable(peers[i]);
      DerivedIPs(peers[i].publicKey);
    }
    PeerBlockRoundTrip(read);
    forall i | 0 <= i < |peers|
      ensures AsRead(read[i]) == read[i] <==>
              (peers[i].isAdmin && ' ' !in peers[i].ip ==> IsKey(peers[i].publicKey))
    {
      DerivedIPs(peers[i].publicKey);
    }
    SameElementwise(AllAsRead(read), read);
  }

  lemma SameElementwise(a: seq<Peer>, b: seq<Peer>)
    requires |a| == |b|
    ensures a == b <==> forall i :: 0 <= i < |a| ==> a[i] == b[i]
  {}
}
