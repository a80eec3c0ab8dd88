/** Blocks, their hashes and the hash-linked log (`src/blockchain/blockchain.go`). */
module Blocks {
  import opened GoText

  /** The hex form of a SHA-256 sum. */
  type Digest = s: string | |s| == 64 witness seq(64, _ => '0')

  /** SHA-256 followed by hex encoding.  The constant has no definition, so
      every lemma holds of every function from records to digests. */
  const Sha256Hex: string -> Digest

  datatype Block = Block(index: int, timestamp: string, data: string, hash: string, prevHash: string)

  /** Go's `string(i)` conversion: the UTF-8 bytes of code point `i`, and those
      of U+FFFD when `i` is not a code point (section 3 of RFC 3629). */
  function Utf8(i: int): (bytes: string)
    ensures 1 <= |bytes| <= 4
  {
    if 0 <= i < 0x80 then [i as char]
    else if 0x80 <= i < 0x800 then [(0xC0 + i / 64) as char, (0x80 + i % 64) as char]
    else if i < 0 || 0xD800 <= i < 0xE000 || 0x10FFFF < i then [0xEF as char, 0xBF as char, 0xBD as char]
    else if i < 0x10000 then
      [(0xE0 + i / 4096) as char, (0x80 + i / 64 % 64) as char, (0x80 + i % 64) as char]
    else
      [(0xF0 + i / 262144) as char, (0x80 + i / 4096 % 64) as char,
       (0x80 + i / 64 % 64) as char, (0x80 + i % 64) as char]
  }

  /** What `CalculateHash` feeds to SHA-256; the timestamp is left out. */
  function Record(b: Block): string {
    Utf8(b.index) + b.data + b.prevHash
  }

  function CalculateHash(b: Block): Digest {
    Sha256Hex(Record(b))
  }

  function GenerateBlock(oldBlock: Block, data: string, now: string): Block {
    var b := Block(oldBlock.index + 1, now, data, "", oldBlock.hash);
    b.(hash := CalculateHash(b))
  }

  predicate IsBlockValid(newBlock: Block, oldBlock: Block) {
    && oldBlock.index + 1 == newBlock.index
    && oldBlock.hash == newBlock.prevHash
    && CalculateHash(newBlock) == newBlock.hash
  }

  /** The block that `LoadBlockchainFromFile` starts a room with. */
  const GENESIS_TEXT := "Genesis Block"

  function Genesis(): Block {
    var b := Block(0, GENESIS_TEXT, GENESIS_TEXT, "", "");
    b.(hash := CalculateHash(b))
  }

  ghost predicate IsGenesis(b: Block) {
    b.index == 0 && b.prevHash == "" && b.hash == CalculateHash(b)
  }

  /** A non-empty chain that starts at a genesis block and whose neighbours all
      pass `IsBlockValid`. */
  ghost predicate ValidChain(chain: seq<Block>) {
    && chain != []
    && IsGenesis(chain[0])
    && forall i :: 0 < i < |chain| ==> IsBlockValid(chain[i], chain[i - 1])
  }

  /** The message log that a chain carries. */
  function Log(chain: seq<Block>): (log: seq<string>)
    ensures |log| == |chain|
    ensures forall i :: 0 <= i < |chain| ==> log[i] == chain[i].data
  {
    seq(|chain|, i requires 0 <= i < |chain| => chain[i].data)
  }

  lemma {:induction false} PositionIsIndex(chain: seq<Block>, i: nat)
    requires ValidChain(chain) && i < |chain|
    ensures chain[i].index == i
    ensures chain[i].hash == CalculateHash(chain[i])
    ensures i > 0 ==> |chain[i].prevHash| == 64
  {
    if i > 0 {
      PositionIsIndex(chain, i - 1);
      assert IsBlockValid(chain[i], chain[i - 1]);
    }
  }

  lemma PrefixIsValid(chain: seq<Block>, n: nat)
    requires ValidChain(chain) && 0 < n <= |chain|
    ensures ValidChain(chain[..n])
  {}

  lemma GeneratedBlockExtends(chain: seq<Block>, data: string, now: string)
    requires ValidChain(chain)
    ensures ValidChain(chain + [GenerateBlock(chain[|chain| - 1], data, now)])
    ensures Log(chain + [GenerateBlock(chain[|chain| - 1], data, now)]) == Log(chain) + [data]
    ensures GenerateBlock(chain[|chain| - 1], data, now).timestamp == now
  {}

  // ---------- What the hashed record says ----------

  /** A code point: not negative, not a surrogate and not too large. */
  predicate IsCodePoint(i: int) {
    0 <= i < 0xD800 || 0xE000 <= i <= 0x10FFFF
  }

  /** The code point whose encoding stands for `i`. */
  function Shown(i: int): int {
    if IsCodePoint(i) then i else 0xFFFD
  }

  /** The first byte of an encoding tells how long the encoding is. */
  function Utf8Length(first: char): nat {
    if first < 0x80 as char then 1
    else if first < 0xE0 as char then 2
    else if first < 0xF0 as char then 3
    else 4
  }

  /** The six low bits of a continuation byte. */
  function LowBits(c: char): int {
    c as int - 0x80
  }

  /** The code point of an encoding, put together from its bits. */
  function DecodeUtf8(bytes: string): int {
    if |bytes| == 1 then bytes[0] as int
    else if |bytes| == 2 then (bytes[0] as int - 0xC0) * 64 + LowBits(bytes[1])
    else if |bytes| == 3 then ((bytes[0] as int - 0xE0) * 64 + LowBits(bytes[1])) * 64 + LowBits(bytes[2])
    else if |bytes| == 4 then
      (((bytes[0] as int - 0xF0) * 64 + LowBits(bytes[1])) * 64 + LowBits(bytes[2])) * 64 + LowBits(bytes[3])
    else -1
  }

  predicate IsContinuation(c: char) {
    0x80 <= c as int <= 0xBF
  }

  /** The base-64 digits of a number. */
  lemma Digits64(i: nat)
    ensures i == i / 64 * 64 + i % 64
    ensures i / 64 == i / 4096 * 64 + i / 64 % 64
    ensures i / 4096 == i / 262144 * 64 + i / 4096 % 64
  {
    assert i / 64 / 64 == i / 4096;
    assert i / 4096 / 64 == i / 262144;
  }

  /** An encoding is one first byte and continuation bytes, as many as the first
      byte tells. */
  lemma Utf8Shape(i: int)
    ensures |Utf8(i)| == Utf8Length(Utf8(i)[0]) && !IsContinuation(Utf8(i)[0])
    ensures forall k :: 0 < k < |Utf8(i)| ==> IsContinuation(Utf8(i)[k])
  {}

  /** Every index is encoded as section 3 of RFC 3629 lays it out: decoding gives
      it back, or U+FFFD for what is no code point. */
  lemma Utf8Decodes(i: int)
    ensures DecodeUtf8(Utf8(i)) == Shown(i)
    ensures |Utf8(i)| ==
            if Shown(i) < 0x80 then 1 else if Shown(i) < 0x800 then 2 else if Shown(i) < 0x10000 then 3 else 4
  {
    Digits64(if i < 0 then 0 else i);
  }

  /** Two indexes share an encoding exactly when they are equal or neither can be
      told from U+FFFD. */
  lemma Utf8EqualExactlyWhen(i: int, j: int)
    ensures Utf8(i) == Utf8(j) <==> Shown(i) == Shown(j)
    ensures Shown(i) == Shown(j) <==> i == j || (Shown(i) == 0xFFFD && Shown(j) == 0xFFFD)
  {
    Utf8Decodes(i);
    Utf8Decodes(j);
  }

  /** Reads a record: the index from its front, the previous hash from its end
      unless the index is 0, and the data from between. */
  function ReadRecord(record: string): Option<(int, string, string)> {
    if record == [] || |record| < Utf8Length(record[0]) then None
    else
      var n := Utf8Length(record[0]);
      var index := DecodeUtf8(record[..n]);
      var rest := record[n..];
      if index == 0 then Some((index, rest, ""))
      else if |rest| < 64 then None
      else Some((index, rest[..|rest| - 64], rest[|rest| - 64..]))
  }

  /** The record that is hashed for a block of a chain reads back as the block's
      index, data and previous hash. */
  lemma RecordReadsBack(chain: seq<Block>, i: nat)
    requires ValidChain(chain) && i < |chain|
    ensures ReadRecord(Record(chain[i])) == Some((Shown(i), chain[i].data, chain[i].prevHash))
  {
    var b := chain[i];
    PositionIsIndex(chain, i);
    Utf8Decodes(i);
    Utf8Shape(i);
    var code, rest := Utf8(i), b.data + b.prevHash;
    assert Record(b) == code + rest && Record(b)[0] == code[0];
    assert Record(b)[..|code|] == code && Record(b)[|code|..] == rest;
    if i == 0 {
      assert rest == b.data;
    } else {
      assert rest[..|rest| - 64] == b.data && rest[|rest| - 64..] == b.prevHash;
    }
  }

  // ---------- Tamper evidence ----------

  /** Two different records with one digest. */
  ghost predicate Collide(a: Block, b: Block) {
    Record(a) != Record(b) && Sha256Hex(Record(a)) == Sha256Hex(Record(b))
  }

  ghost predicate SomeCollision(c: seq<Block>, d: seq<Block>) {
    exists i, j :: 0 <= i < |c| && 0 <= j < |d| && Collide(c[i], d[j])
  }

  /** No encoding is a proper prefix of another, even though several indexes
      share the encoding of U+FFFD. */
  lemma Utf8PrefixFree(i: int, x: string, j: int, y: string)
    requires Utf8(i) + x == Utf8(j) + y
    ensures Utf8(i) == Utf8(j) && x == y
  {
    var a, b := Utf8(i), Utf8(j);
    assert a[0] == (a + x)[0] && b[0] == (b + y)[0];
    Utf8Shape(i);
    Utf8Shape(j);
    assert a == (a + x)[..|a|] && b == (b + y)[..|b|];
    assert x == (a + x)[|a|..] && y == (b + y)[|b|..];
  }

  /** A record of a chain splits in one way: the same record has the same data
      and previous hash, and the same index short of the surrogates, where indexes
      start to share encodings. */
  lemma RecordSplitsUniquely(c: seq<Block>, i: nat, d: seq<Block>, j: nat)
    requires ValidChain(c) && ValidChain(d) && i < |c| && j < |d|
    requires Record(c[i]) == Record(d[j])
    ensures c[i].data == d[j].data && c[i].prevHash == d[j].prevHash
    ensures i == j || (Shown(i) == 0xFFFD && Shown(j) == 0xFFFD)
    ensures i == 0 <==> j == 0
  {
    RecordReadsBack(c, i);
    RecordReadsBack(d, j);
    Utf8EqualExactlyWhen(i, j);
  }

  /** One hash fixes the whole log up to its block, and the block's position:
      otherwise the two chains exhibit a SHA-256 collision. */
  lemma {:induction false} HashFixesPrefix(c: seq<Block>, i: nat, d: seq<Block>, j: nat)
    requires ValidChain(c) && ValidChain(d) && i < |c| && j < |d|
    requires c[i].hash == d[j].hash
    ensures SomeCollision(c, d) || (i == j && Log(c)[..i + 1] == Log(d)[..j + 1])
  {
    PositionIsIndex(c, i);
    PositionIsIndex(d, j);
    if Record(c[i]) != Record(d[j]) {
      assert Collide(c[i], d[j]);
    } else {
      RecordSplitsUniquely(c, i, d, j);
      if i > 0 {
        assert IsBlockValid(c[i], c[i - 1]) && IsBlockValid(d[j], d[j - 1]);
        HashFixesPrefix(c, i - 1, d, j - 1);
        assert Log(c)[..i + 1] == Log(c)[..i] + [c[i].data];
        assert Log(d)[..j + 1] == Log(d)[..j] + [d[j].data];
      }
    }
  }

  /** Equal logs have equal hashes at every position, whatever the timestamps. */
  lemma {:induction false} LogFixesHash(c: seq<Block>, d: seq<Block>, i: nat)
    requires ValidChain(c) && ValidChain(d) && i < |c| && i < |d|
    requires Log(c)[..i + 1] == Log(d)[..i + 1]
    ensures c[i].hash == d[i].hash
  {
    PositionIsIndex(c, i);
    PositionIsIndex(d, i);
    assert c[i].data == Log(c)[..i + 1][i] == Log(d)[..i + 1][i] == d[i].data;
    if i > 0 {
      assert IsBlockValid(c[i], c[i - 1]) && IsBlockValid(d[i], d[i - 1]);
      assert Log(c)[..i] == Log(c)[..i + 1][..i] == Log(d)[..i + 1][..i] == Log(d)[..i];
      LogFixesHash(c, d, i - 1);
    }
  }

  function FinalHash(chain: seq<Block>): string
    requires chain != []
  {
    chain[|chain| - 1].hash
  }

  /** The final hash determines the whole log, up to a collision, and depends on
      nothing else. */
  lemma FinalHashDecidesLog(c: seq<Block>, d: seq<Block>)
    requires ValidChain(c) && ValidChain(d)
    ensures Log(c) == Log(d) ==> FinalHash(c) == FinalHash(d)
    ensures FinalHash(c) == FinalHash(d) ==> Log(c) == Log(d) || SomeCollision(c, d)
  {
    if Log(c) == Log(d) {
      LogFixesHash(c, d, |c| - 1);
    }
    if FinalHash(c) == FinalHash(d) {
      HashFixesPrefix(c, |c| - 1, d, |d| - 1);
      assert Log(c) == Log(c)[..|c|] && Log(d) == Log(d)[..|d|];
    }
  }
}
