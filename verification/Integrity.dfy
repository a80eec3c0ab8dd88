/** The integrity score over the chains that the nodes report
    (`src/simulations/consensus_tests/main/consensusStatCollector.go`). */
module Integrity {
  import opened Blocks

  /** A reported text: it decodes to a list of blocks, or not, or to a list whose
      last entry has no hash text. */
  datatype Report = Chain(blocks: seq<Block>) | Text(text: string)

  /** The reports that each node has sent; the first one counts. */
  type Reports = map<string, seq<Report>>

  /** The last match of the hash pattern in a text, left undefined. */
  const LastHashMatch: string -> string

  /** `extractFinalBlockHash`: the hash of the last block, or else the last thing
      in the text that looks like one; empty if there is none. */
  function FinalHashOf(report: Report): string {
    match report
    case Chain(blocks) => if blocks == [] then "" else FinalHash(blocks)
    case Text(text) => LastHashMatch(text)
  }

  predicate HasHash(r: Reports, id: string) {
    id in r && r[id] != [] && FinalHashOf(r[id][0]) != ""
  }

  /** The nodes whose chain has a final hash. */
  function Reporters(r: Reports): set<string> {
    set id | id in r && HasHash(r, id)
  }

  /** The nodes whose chain ends in `hash`. */
  function Holders(r: Reports, hash: string): set<string> {
    set id | id in Reporters(r) && FinalHashOf(r[id][0]) == hash
  }

  /** `hash` ends at least as many chains as any other. */
  ghost predicate MostCommon(r: Reports, hash: string) {
    Holders(r, hash) != {} && forall other :: |Holders(r, other)| <= |Holders(r, hash)|
  }

  /** The share of the most common final hash. */
  ghost predicate IsScore(r: Reports, score: real) {
    if Reporters(r) == {} then score == 0.0
    else exists hash :: MostCommon(r, hash) && score == |Holders(r, hash)| as real / |Reporters(r)| as real
  }

  class StatCollector {
    var honestNodes: seq<string>
    var nodeBlockchains: Reports

    constructor (honestNodes: seq<string>, nodeBlockchains: Reports)
      ensures this.honestNodes == honestNodes && this.nodeBlockchains == nodeBlockchains
    {
      this.honestNodes := honestNodes;
      this.nodeBlockchains := nodeBlockchains;
    }

    /** The loop over the reports, in any order. */
    method CollectHashes() returns (hashes: seq<string>)
      ensures "" !in hashes
      ensures |hashes| == |Reporters(nodeBlockchains)|
      ensures forall h :: h != "" ==> multiset(hashes)[h] == |Holders(nodeBlockchains, h)|
    {
      hashes := [];
      var r := nodeBlockchains;
      var ids := r.Keys;
      NoneTallied(r);
      while ids != {}
        invariant ids <= r.Keys && Tallied(r, ids, hashes)
      {
        var id :| id in ids;
        var hash := if r[id] != [] then FinalHashOf(r[id][0]) else "";
        OneMoreTallied(r, ids, hashes, id);
        if hash != "" {
          hashes := hashes + [hash];
        }
        ids := ids - {id};
      }
      AllTallied(r, hashes);
    }

    static method CountHashes(hashes: seq<string>) returns (hashCounts: map<string, nat>)
      ensures forall h :: h in hashCounts <==> h in hashes
      ensures forall h :: h in hashCounts ==> hashCounts[h] == multiset(hashes)[h]
    {
      hashCounts := map[];
      var i := 0;
      while i < |hashes|
        invariant 0 <= i <= |hashes|
        invariant forall h :: h in hashCounts <==> h in hashes[..i]
        invariant forall h :: h in hashCounts ==> hashCounts[h] == multiset(hashes[..i])[h]
      {
        assert hashes[..i + 1] == hashes[..i] + [hashes[i]];
        var h := hashes[i];
        hashCounts := hashCounts[h := (if h in hashCounts then hashCounts[h] else 0) + 1];
        i := i + 1;
      }
      assert hashes[..i] == hashes;
    }

    /** The loop that keeps the largest count, in any order of the map. */
    static method MostFrequent(hashCounts: map<string, nat>) returns (referenceHash: string, maxCount: nat)
      requires hashCounts != map[] && forall h :: h in hashCounts ==> hashCounts[h] > 0
      ensures referenceHash in hashCounts && maxCount == hashCounts[referenceHash]
      ensures forall h :: h in hashCounts ==> hashCounts[h] <= maxCount
    {
      referenceHash, maxCount := "", 0;
      var keys := hashCounts.Keys;
      while keys != {}
        invariant keys <= hashCounts.Keys
        invariant forall h :: h in hashCounts && h !in keys ==> hashCounts[h] <= maxCount
        invariant keys == hashCounts.Keys ==> maxCount == 0
        invariant keys == hashCounts.Keys || (referenceHash in hashCounts && maxCount == hashCounts[referenceHash])
      {
        var h :| h in keys;
        if hashCounts[h] > maxCount {
          referenceHash, maxCount := h, hashCounts[h];
        }
        keys := keys - {h};
      }
    }

    static method CountMatches(hashes: seq<string>, referenceHash: string) returns (consistentNodes: nat)
      ensures consistentNodes == multiset(hashes)[referenceHash]
    {
      consistentNodes := 0;
      var i := 0;
      while i < |hashes|
        invariant 0 <= i <= |hashes|
        invariant consistentNodes == multiset(hashes[..i])[referenceHash]
      {
        assert hashes[..i + 1] == hashes[..i] + [hashes[i]];
        if hashes[i] == referenceHash {
          consistentNodes := consistentNodes + 1;
        }
        i := i + 1;
      }
      assert hashes[..i] == hashes;
    }

    method AssessConsensusIntegrity() returns (integrity: real)
      ensures if honestNodes == [] then integrity == 0.0 else IsScore(nodeBlockchains, integrity)
    {
      if |honestNodes| == 0 {
        return 0.0;
      }
      var hashes := CollectHashes();
      if |hashes| == 0 {
        return 0.0;
      }
      var hashCounts := CountHashes(hashes);
      assert hashes[0] in hashCounts;
      var referenceHash, maxCount := MostFrequent(hashCounts);
      var consistentNodes := CountMatches(hashes, referenceHash);
      CountedIsMostCommon(nodeBlockchains, hashes, referenceHash);
      integrity := consistentNodes as real / |hashes| as real;
    }
  }

  /** The hashes collected from all reports but those of `ids`. */
  ghost predicate Tallied(r: Reports, ids: set<string>, hashes: seq<string>) {
    && "" !in hashes
    && |hashes| == |Reporters(r) - ids|
    && forall h :: h != "" ==> multiset(hashes)[h] == |Holders(r, h) - ids|
  }

  lemma NoneTallied(r: Reports)
    ensures Tallied(r, r.Keys, [])
  {}

  lemma AllTallied(r: Reports, hashes: seq<string>)
    requires Tallied(r, {}, hashes)
    ensures |hashes| == |Reporters(r)|
    ensures forall h :: h != "" ==> multiset(hashes)[h] == |Holders(r, h)|
  {}

  lemma OneMoreTallied(r: Reports, ids: set<string>, hashes: seq<string>, id: string)
    requires ids <= r.Keys && id in ids && Tallied(r, ids, hashes)
    ensures Tallied(r, ids - {id}, if HasHash(r, id) then hashes + [FinalHashOf(r[id][0])] else hashes)
  {
    OneMoreReport(r, ids, id);
    var hash := if HasHash(r, id) then FinalHashOf(r[id][0]) else "";
    var more := if HasHash(r, id) then hashes + [hash] else hashes;
    SizeWith(Reporters(r) - ids, id, HasHash(r, id));
    forall h | h != ""
      ensures multiset(more)[h] == |Holders(r, h) - (ids - {id})|
    {
      SizeWith(Holders(r, h) - ids, id, HasHash(r, id) && hash == h);
      CountWith(hashes, hash, h);
    }
  }

  lemma SizeWith(a: set<string>, x: string, add: bool)
    requires x !in a
    ensures |a + (if add then {x} else {})| == |a| + (if add then 1 else 0)
  {}

  lemma CountWith(hashes: seq<string>, last: string, h: string)
    ensures multiset(hashes + [last])[h] == multiset(hashes)[h] + (if h == last then 1 else 0)
  {}

  lemma OneMoreReport(r: Reports, ids: set<string>, id: string)
    requires ids <= r.Keys && id in ids
    ensures Reporters(r) - (ids - {id}) == Reporters(r) - ids + (if HasHash(r, id) then {id} else {})
    ensures forall h :: Holders(r, h) - (ids - {id}) ==
                        Holders(r, h) - ids + (if HasHash(r, id) && FinalHashOf(r[id][0]) == h then {id} else {})
  {}

  lemma CountedIsMostCommon(r: Reports, hashes: seq<string>, hash: string)
    requires "" !in hashes && hash in hashes
    requires forall h :: h != "" ==> multiset(hashes)[h] == |Holders(r, h)|
    requires forall h :: h in hashes ==> multiset(hashes)[h] <= multiset(hashes)[hash]
    ensures MostCommon(r, hash)
  {}

  /** A node counts for the hash of the last block that it reported first, or for
      the last hash in a text that does not decode. */
  lemma CountsFor(r: Reports, id: string, hash: string)
    requires id in r && r[id] != [] && hash != ""
    ensures id in Holders(r, hash) <==>
            match r[id][0]
            case Chain(blocks) => blocks != [] && blocks[|blocks| - 1].hash == hash
            case Text(text) => LastHashMatch(text) == hash
  {}

  // ---------- What the score says ----------

  /** The score does not depend on the order in which the maps are walked. */
  lemma ScoreIsUnique(r: Reports, a: real, b: real)
    requires IsScore(r, a) && IsScore(r, b)
    ensures a == b
  {}

  ghost predicate AllAgree(r: Reports) {
    forall i, j :: i in Reporters(r) && j in Reporters(r) ==> FinalHashOf(r[i][0]) == FinalHashOf(r[j][0])
  }

  lemma PartIsWhole(part: set<string>, whole: set<string>)
    requires part <= whole && whole != {}
    ensures |whole| > 0
    ensures |part| as real / |whole| as real == 1.0 <==> part == whole
  {
    assert whole == part + (whole - part);
  }

  /** The score is 1 exactly when there are reports and all end in one hash. */
  lemma FullScoreExactlyWhenAllAgree(r: Reports, score: real)
    requires IsScore(r, score)
    ensures score == 1.0 <==> Reporters(r) != {} && AllAgree(r)
  {
    if Reporters(r) != {} {
      var h :| MostCommon(r, h) && score == |Holders(r, h)| as real / |Reporters(r)| as real;
      PartIsWhole(Holders(r, h), Reporters(r));
      if AllAgree(r) {
        var i :| i in Holders(r, h);
        assert forall j :: j in Reporters(r) ==> FinalHashOf(r[j][0]) == FinalHashOf(r[i][0]) == h;
        assert Holders(r, h) == Reporters(r);
      } else {
        var i, j :| i in Reporters(r) && j in Reporters(r) && FinalHashOf(r[i][0]) != FinalHashOf(r[j][0]);
        assert i !in Holders(r, h) || j !in Holders(r, h);
      }
    }
  }

  /** When the reported chains are valid, a full score means equal logs on every
      node, or a hash collision between two of the chains; and nodes with equal
      logs always score 1. */
  lemma FullScoreMeansEqualLogs(r: Reports, score: real)
    requires IsScore(r, score) && Reporters(r) != {}
    requires forall id :: id in Reporters(r) ==> r[id][0].Chain? && ValidChain(r[id][0].blocks)
    ensures score == 1.0 ==> forall i, j :: i in Reporters(r) && j in Reporters(r) ==>
              Log(r[i][0].blocks) == Log(r[j][0].blocks) || SomeCollision(r[i][0].blocks, r[j][0].blocks)
    ensures (forall i, j :: i in Reporters(r) && j in Reporters(r) ==>
               Log(r[i][0].blocks) == Log(r[j][0].blocks)) ==> score == 1.0
  {
    FullScoreExactlyWhenAllAgree(r, score);
    forall i, j | i in Reporters(r) && j in Reporters(r)
      ensures Log(r[i][0].blocks) == Log(r[j][0].blocks) ==> FinalHashOf(r[i][0]) == FinalHashOf(r[j][0])
      ensures FinalHashOf(r[i][0]) == FinalHashOf(r[j][0]) ==>
                Log(r[i][0].blocks) == Log(r[j][0].blocks) || SomeCollision(r[i][0].blocks, r[j][0].blocks)
    {
      FinalHashDecidesLog(r[i][0].blocks, r[j][0].blocks);
    }
  }
}
