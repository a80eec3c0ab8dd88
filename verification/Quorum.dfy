/** When two commits must share an acking peer
    (`InitializeGossipNetwork` in `src/network_gossip/network_gossip.go`). */
module Quorum {
  import opened FiniteSets
  import opened PeerHistory
  import opened AckProtocol
  import opened AckRuns
  import opened AckTheorems
  import opened QuorumRuns

  /** 66 % of the listed peers, rounded down, but at least 2. */
  function Threshold(peerCount: nat): nat {
    var calculated := 66 * peerCount / 100;
    if calculated < 2 then 2 else calculated
  }

  /** The threshold is the largest number that is at most 66 % of the peers, or 2
      where that is larger. */
  lemma ThresholdIsTwoThirds(n: nat, k: nat)
    ensures Threshold(n) >= 2
    ensures k > 2 ==> (k <= Threshold(n) <==> 100 * k <= 66 * n)
  {
    assert k <= 66 * n / 100 <==> 100 * k <= 66 * n;
  }

  // ---------- Commits of any two nodes ----------

  /** Two sets too large to fit side by side into a third share an element. */
  lemma TooLargeToMiss(a: set<string>, b: set<string>, members: set<string>)
    requires a <= members && b <= members && |a| + |b| > |members|
    ensures a * b != {}
  {
    SubsetSize(a + b, members);
    assert |a + b| == |a| + |b| - |a * b|;
  }

  /** Any two commits of any two nodes, started at different times and with
      different thresholds, share a backer when the thresholds together exceed
      the number of peers that either node lists in the end. */
  lemma CommitsOverlap(cfg1: Config, log1: seq<string>, labels1: seq<Label>, c1: Committed,
                       cfg2: Config, log2: seq<string>, labels2: seq<Label>, c2: Committed)
    requires Healthy(log1) && Possible(cfg1, Start(log1), labels1) && c1 in Run(cfg1, Start(log1), labels1).commits
    requires Healthy(log2) && Possible(cfg2, Start(log2), labels2) && c2 in Run(cfg2, Start(log2), labels2).commits
    requires var t1, t2 := Run(cfg1, Start(log1), labels1), Run(cfg2, Start(log2), labels2);
      cfg1.threshold + cfg2.threshold > |Members(t1.log) + Members(t2.log)|
    ensures exists key :: key in c1.backers && key in c2.backers
  {
    var t1, t2 := Run(cfg1, Start(log1), labels1), Run(cfg2, Start(log2), labels2);
    QuorumSafety(cfg1, log1, labels1);
    QuorumSafety(cfg2, log2, labels2);
    TooLargeToMiss(c1.backers, c2.backers, Members(t1.log) + Members(t2.log));
    var key :| key in c1.backers * c2.backers;
  }

  /** Any two commits, on any two nodes whose rooms have the same n members and
      whose threshold was configured for n, share an acking peer, for every n
      but 4 and 6. */
  lemma AnyTwoCommitsShareABacker(cfg1: Config, log1: seq<string>, labels1: seq<Label>, c1: Committed,
                                  cfg2: Config, log2: seq<string>, labels2: seq<Label>, c2: Committed,
                                  members: set<string>)
    requires Healthy(log1) && Possible(cfg1, Start(log1), labels1) && c1 in Run(cfg1, Start(log1), labels1).commits
    requires Healthy(log2) && Possible(cfg2, Start(log2), labels2) && c2 in Run(cfg2, Start(log2), labels2).commits
    requires Members(Run(cfg1, Start(log1), labels1).log) == members
    requires Members(Run(cfg2, Start(log2), labels2).log) == members
    requires cfg1.threshold == Threshold(|members|) && cfg2.threshold == Threshold(|members|)
    requires |members| != 4 && |members| != 6
    ensures exists key :: key in members && key in c1.backers && key in c2.backers
  {
    ConfiguredThreshold(|members|);
    assert members + members == members;
    CommitsOverlap(cfg1, log1, labels1, c1, cfg2, log2, labels2, c2);
    QuorumSafety(cfg1, log1, labels1);
  }

  // ---------- Exactly when commits must overlap ----------

  /** A node with threshold `t` can commit `c` from a fresh start over `log`, with
      the members of the room unchanged, from acks that all satisfy `p`. */
  ghost predicate CanCommit(log: seq<string>, t: int, p: Message -> bool, c: Committed) {
    exists cfg, labels :: CommitsIn(log, t, p, c, cfg, labels)
  }

  ghost predicate CommitsIn(log: seq<string>, t: int, p: Message -> bool, c: Committed,
                            cfg: Config, labels: seq<Label>)
  {
    && cfg.threshold == t && Possible(cfg, Start(log), labels) && OnlyAcks(labels, p)
    && c in Run(cfg, Start(log), labels).commits
    && Members(Run(cfg, Start(log), labels).log) == Members(log)
  }

  /** Whatever two nodes with these thresholds commit has a common backer. */
  ghost predicate CommitsShare(log: seq<string>, t1: int, t2: int, p: Message -> bool) {
    forall c1, c2 :: CanCommit(log, t1, p, c1) && CanCommit(log, t2, p, c2) ==> c1.backers * c2.backers != {}
  }

  /** A chat that stands for any other. */
  const CHAT := Message("id", "chat", "", "", "room", 0, 10, "", "", 0)

  /** For some style, `p` holds of the ack of every key. */
  ghost predicate Admits(p: Message -> bool, how: Style) {
    forall key :: p(AckOf(CHAT, key, how))
  }

  lemma QuorumCanCommit(log: seq<string>, p: Message -> bool, how: Style, backers: set<string>) returns (c: Committed)
    requires Healthy(log) && backers != {} && backers <= Members(log) && Admits(p, how)
    ensures CanCommit(log, |backers|, p, c) && c.backers == backers
  {
    var cfg := Config("room", |backers|);
    var labels := AnyQuorumCommits(cfg, log, CHAT, how, backers);
    c := Run(cfg, Start(log), labels).commits[0];
    forall l | l in labels && l.RunAck?
      ensures p(l.m)
    {
      assert l.m == AckOf(CHAT, l.m.publicKey, how);
    }
    assert CommitsIn(log, |backers|, p, c, cfg, labels);
  }

  lemma OverlapForced(log: seq<string>, t1: int, t2: int, p: Message -> bool)
    requires Healthy(log) && t1 + t2 > |Members(log)|
    ensures CommitsShare(log, t1, t2, p)
  {
    forall c1, c2 | CanCommit(log, t1, p, c1) && CanCommit(log, t2, p, c2)
      ensures c1.backers * c2.backers != {}
    {
      var cfg1, labels1 :| CommitsIn(log, t1, p, c1, cfg1, labels1);
      var cfg2, labels2 :| CommitsIn(log, t2, p, c2, cfg2, labels2);
      assert Members(log) + Members(log) == Members(log);
      CommitsOverlap(cfg1, log, labels1, c1, cfg2, log, labels2, c2);
    }
  }

  /** Two nodes over the same room always commit with a common backer exactly when
      their thresholds together exceed the number of members; otherwise two
      possible runs commit with disjoint backers.  This holds for acks of any kind
      that every key can send, honestly signed ones included. */
  lemma CommitsShareExactlyWhen(log: seq<string>, t1: nat, t2: nat, p: Message -> bool, how: Style)
    requires Healthy(log) && t1 > 0 && t2 > 0 && Admits(p, how)
    ensures CommitsShare(log, t1, t2, p) <==> t1 + t2 > |Members(log)|
  {
    var members := Members(log);
    if t1 + t2 > |members| {
      OverlapForced(log, t1, t2, p);
    } else {
      var a := SubsetOfSize(members, t1);
      assert |members - a| == |members| - t1;
      var b := SubsetOfSize(members - a, t2);
      var c1 := QuorumCanCommit(log, p, how, a);
      var c2 := QuorumCanCommit(log, p, how, b);
      assert c1.backers * c2.backers == {};
    }
  }

  // ---------- The configured threshold ----------

  lemma LargeThreshold(n: nat)
    requires n >= 13
    ensures 2 * Threshold(n) > n + 1
  {
    assert 100 * (66 * n / 100) > 66 * n - 100;
    assert n < 16 ==> 66 * n / 100 >= 8;
  }

  /** Twice the configured threshold exceeds the number of peers for every number
      but 4 and 6, and the threshold can be reached exactly from two peers on. */
  lemma ConfiguredThreshold(n: nat)
    ensures 2 * Threshold(n) > n <==> n != 4 && n != 6
    ensures Threshold(n) <= n <==> n >= 2
  {
    if n < 13 {
      assert n in {0, 1, 2, 3, 4, 5, 6, 7, 8, 9, 10, 11, 12};
    } else {
      LargeThreshold(n);
    }
  }

  /** In a room of n members, any two commits of nodes configured for n share a
      backer exactly when n is neither 4 nor 6. */
  lemma ConfiguredQuorumsIntersect(log: seq<string>, p: Message -> bool, how: Style)
    requires Healthy(log) && Admits(p, how)
    ensures var n := |Members(log)|;
      CommitsShare(log, Threshold(n), Threshold(n), p) <==> n != 4 && n != 6
  {
    var n := |Members(log)|;
    ConfiguredThreshold(n);
    CommitsShareExactlyWhen(log, Threshold(n), Threshold(n), p, how);
  }

  /** So it is whether acks are signed honestly or not checked at all. */
  lemma HonestQuorumsIntersect(log: seq<string>, sign: (string, string) -> string)
    requires Healthy(log) && Signs(sign)
    ensures var n := |Members(log)|;
      && (CommitsShare(log, Threshold(n), Threshold(n), AnyAck) <==> n != 4 && n != 6)
      && (CommitsShare(log, Threshold(n), Threshold(n), SignedAck) <==> n != 4 && n != 6)
  {
    var how := Honest(CHAT, "room", sign);
    forall key
      ensures SignedAck(AckOf(CHAT, key, how))
    {
      HonestAcksAreSigned(CHAT, key, "room", sign);
    }
    ConfiguredQuorumsIntersect(log, AnyAck, how);
    ConfiguredQuorumsIntersect(log, SignedAck, how);
  }

  /** The threshold is computed before the node lists itself.  In a room of n + 1
      members, two nodes that both started over a list of n peers can commit with
      disjoint backers exactly for six values of n; one that did and one that is
      configured for the whole room, for four. */
  lemma ThresholdOfLateJoiner(log: seq<string>, n: nat, p: Message -> bool, how: Style)
    requires Healthy(log) && |Members(log)| == n + 1 && Admits(p, how)
    ensures CommitsShare(log, Threshold(n), Threshold(n), p) <==> n !in {3, 4, 5, 6, 7, 9}
    ensures CommitsShare(log, Threshold(n), Threshold(n + 1), p) <==> n !in {3, 4, 5, 6}
  {
    CommitsShareExactlyWhen(log, Threshold(n), Threshold(n), p, how);
    CommitsShareExactlyWhen(log, Threshold(n), Threshold(n + 1), p, how);
    if n < 13 {
      assert n in {0, 1, 2, 3, 4, 5, 6, 7, 8, 9, 10, 11, 12};
    } else {
      LargeThreshold(n);
    }
  }
}
