/** What the root of a batch says about its leaves: framed packets, hashed with SHA-256 and folded in a Merkle tree. */
module BatchRoots {
  import opened EvidencePacket
  import opened CompleteTree
  import Merkle

  function LeafDigests(leaves: seq<Leaf>, sha: string -> string): (d: seq<string>)
    ensures |d| == |leaves|
  {
    seq(|leaves|, i requires 0 <= i < |leaves| => LeafDigest(leaves[i], sha))
  }

  function Node(sha: string -> string): (string, string) -> string {
    (left, right) => NodeDigest(left, right, sha)
  }

  /** The root of a batch of leaves. */
  function BatchRoot(leaves: seq<Leaf>, sha: string -> string): string
    requires |leaves| > 0
  {
    Merkle.Root(Node(sha), LeafDigests(leaves, sha))
  }

  ghost function LeafPackets(leaves: seq<Leaf>): set<string> {
    set i | 0 <= i < |leaves| :: Packet(LEAF_DOMAIN, LeafFields(leaves[i]))
  }

  ghost function NodePackets(pairs: set<(string, string)>): set<string> {
    set p | p in pairs :: Packet(NODE_DOMAIN, [Text(p.0), Text(p.1)])
  }

  /** Every text that is hashed to compute the root of a batch. */
  ghost function Hashed(leaves: seq<Leaf>, sha: string -> string): set<string> {
    LeafPackets(leaves) + NodePackets(Merkle.Pairs(Node(sha), LeafDigests(leaves, sha)))
  }

  ghost predicate CollisionFree(sha: string -> string, texts: set<string>) {
    forall x, y :: x in texts && y in texts && sha(x) == sha(y) ==> x == y
  }

  /** Node digests determine both children as long as SHA-256 does not collide on their packets. */
  lemma NodeDigestInjective(pairs: set<(string, string)>, sha: string -> string)
    requires CollisionFree(sha, NodePackets(pairs))
    ensures Merkle.InjectiveOn(Node(sha), pairs)
  {
    forall p, q | p in pairs && q in pairs && Node(sha)(p.0, p.1) == Node(sha)(q.0, q.1) ensures p == q {
      assert Packet(NODE_DOMAIN, [Text(p.0), Text(p.1)]) in NodePackets(pairs);
      assert Packet(NODE_DOMAIN, [Text(q.0), Text(q.1)]) in NodePackets(pairs);
      NodePacketInjective(p.0, p.1, q.0, q.1);
    }
  }

  lemma LeafDigestInjective(l: Leaf, m: Leaf, texts: set<string>, sha: string -> string)
    requires Packet(LEAF_DOMAIN, LeafFields(l)) in texts && Packet(LEAF_DOMAIN, LeafFields(m)) in texts
    requires CollisionFree(sha, texts) && LeafDigest(l, sha) == LeafDigest(m, sha)
    ensures l == m
  {
    LeafPacketInjective(l, m);
  }

  lemma NodePacketsOfSum(p: set<(string, string)>, q: set<(string, string)>)
    ensures NodePackets(p + q) == NodePackets(p) + NodePackets(q)
  {
  }

  lemma FewerTexts(sha: string -> string, texts: set<string>, fewer: set<string>)
    requires CollisionFree(sha, texts) && fewer <= texts
    ensures CollisionFree(sha, fewer)
  {
  }

  /** A leaf digest is no node digest as long as SHA-256 does not collide on the packets. */
  lemma LeafIsNoNode(leaves: seq<Leaf>, pairs: set<(string, string)>, sha: string -> string)
    requires CollisionFree(sha, LeafPackets(leaves) + NodePackets(pairs))
    ensures NoNode(Node(sha), pairs, LeafDigests(leaves, sha))
  {
    forall i: nat, p | i < |leaves| && p in pairs ensures LeafDigests(leaves, sha)[i] != Node(sha)(p.0, p.1) {
      assert Packet(LEAF_DOMAIN, LeafFields(leaves[i])) in LeafPackets(leaves);
      assert Packet(NODE_DOMAIN, [Text(p.0), Text(p.1)]) in NodePackets(pairs);
      LeafAndNodePacketsDiffer(leaves[i], [Text(p.0), Text(p.1)]);
    }
  }

  /** Leaf digests determine all ten fields. */
  lemma DigestsBindLeaves(a: seq<Leaf>, b: seq<Leaf>, sha: string -> string)
    requires CollisionFree(sha, LeafPackets(a) + LeafPackets(b))
    ensures forall i: nat, j: nat :: i < |a| && j < |b| && LeafDigests(a, sha)[i] == LeafDigests(b, sha)[j] ==>
              a[i] == b[j]
  {
    forall i: nat, j: nat | i < |a| && j < |b| && LeafDigests(a, sha)[i] == LeafDigests(b, sha)[j]
      ensures a[i] == b[j]
    {
      LeafDigestInjective(a[i], b[j], LeafPackets(a) + LeafPackets(b), sha);
    }
  }

  // ---------- when two batches share a root ----------

  /** Batches of any two sizes share a root exactly if their trees are of equal depth and fill up to the same complete
      tree of leaves, unless SHA-256 collides on two of the texts that were hashed for these roots. */
  lemma SameBatchRootIff(a: seq<Leaf>, b: seq<Leaf>, sha: string -> string)
    requires |a| > 0 && |b| > 0 && CollisionFree(sha, Hashed(a, sha) + Hashed(b, sha))
    ensures BatchRoot(a, sha) == BatchRoot(b, sha) <==> Depth(|a|) == Depth(|b|) && Filled(a) == Filled(b)
  {
    var d, e := LeafDigests(a, sha), LeafDigests(b, sha);
    BatchesDoNotCollide(a, b, sha);
    if BatchRoot(a, sha) == BatchRoot(b, sha) {
      SameTree(Node(sha), d, e);
      FilledDigestsBind(a, b, sha);
    }
    if Depth(|a|) == Depth(|b|) && Filled(a) == Filled(b) {
      FilledDigests(a, b, sha);
      SameRootIff(Node(sha), d, e);
    }
  }

  lemma BatchesDoNotCollide(a: seq<Leaf>, b: seq<Leaf>, sha: string -> string)
    requires CollisionFree(sha, Hashed(a, sha) + Hashed(b, sha))
    ensures var d, e := LeafDigests(a, sha), LeafDigests(b, sha);
            && Merkle.InjectiveOn(Node(sha), Merkle.Pairs(Node(sha), d) + Merkle.Pairs(Node(sha), e))
            && NoNode(Node(sha), Merkle.Pairs(Node(sha), e), d) && NoNode(Node(sha), Merkle.Pairs(Node(sha), d), e)
    ensures CollisionFree(sha, LeafPackets(a) + LeafPackets(b))
  {
    var p := Merkle.Pairs(Node(sha), LeafDigests(a, sha));
    var q := Merkle.Pairs(Node(sha), LeafDigests(b, sha));
    var texts := Hashed(a, sha) + Hashed(b, sha);
    NodePacketsOfSum(p, q);
    FewerTexts(sha, texts, NodePackets(p + q));
    NodeDigestInjective(p + q, sha);
    FewerTexts(sha, texts, LeafPackets(a) + NodePackets(q));
    LeafIsNoNode(a, q, sha);
    FewerTexts(sha, texts, LeafPackets(b) + NodePackets(p));
    LeafIsNoNode(b, p, sha);
  }

  lemma FilledDigests(a: seq<Leaf>, b: seq<Leaf>, sha: string -> string)
    requires |a| > 0 && |b| > 0 && Depth(|a|) == Depth(|b|) && Filled(a) == Filled(b)
    ensures Filled(LeafDigests(a, sha)) == Filled(LeafDigests(b, sha))
  {
    var d, e := LeafDigests(a, sha), LeafDigests(b, sha);
    forall j: nat | j < |Filled(d)| ensures Filled(d)[j] == Filled(e)[j] {
      assert Filled(a)[j] == Filled(b)[j];
    }
  }

  lemma FilledDigestsBind(a: seq<Leaf>, b: seq<Leaf>, sha: string -> string)
    requires |a| > 0 && |b| > 0 && Depth(|a|) == Depth(|b|)
    requires Filled(LeafDigests(a, sha)) == Filled(LeafDigests(b, sha))
    requires CollisionFree(sha, LeafPackets(a) + LeafPackets(b))
    ensures Filled(a) == Filled(b)
  {
    var d, e := LeafDigests(a, sha), LeafDigests(b, sha);
    DigestsBindLeaves(a, b, sha);
    forall j: nat | j < |Filled(a)| ensures Filled(a)[j] == Filled(b)[j] {
      assert Filled(d)[j] == Filled(e)[j];
    }
  }

  /** Every leaf carries its own position, as those of every recorded batch do. */
  predicate Numbered(leaves: seq<Leaf>) {
    forall i :: 0 <= i < |leaves| ==> leaves[i].index == i
  }

  /** Two numbered batches with the same root are equal in all fields of all leaves, and in their count, unless
      SHA-256 collides on two of the texts that were hashed for these roots. */
  lemma BatchRootBindsFields(a: seq<Leaf>, b: seq<Leaf>, sha: string -> string)
    requires |a| > 0 && |b| > 0 && Numbered(a) && Numbered(b)
    requires CollisionFree(sha, Hashed(a, sha) + Hashed(b, sha))
    ensures BatchRoot(a, sha) == BatchRoot(b, sha) <==> a == b
  {
    SameBatchRootIff(a, b, sha);
    if Depth(|a|) == Depth(|b|) && Filled(a) == Filled(b) {
      FilledEnds(a, b);
    }
  }

  /** Batches of one size with the same root are equal, numbered or not. */
  lemma EqualSizesBind(a: seq<Leaf>, b: seq<Leaf>, sha: string -> string)
    requires |a| == |b| > 0 && CollisionFree(sha, Hashed(a, sha) + Hashed(b, sha))
    ensures BatchRoot(a, sha) == BatchRoot(b, sha) <==> a == b
  {
    SameBatchRootIff(a, b, sha);
    if Filled(a) == Filled(b) {
      FilledEnds(a, b);
    }
  }

  /** Without the numbers a root does not bind the count: whatever SHA-256 is, an odd batch and the same batch with
      its last leaf repeated share a root. One of the two is not numbered. */
  lemma PaddedBatchSharesRoot(leaves: seq<Leaf>, sha: string -> string)
    requires |leaves| > 1 && |leaves| % 2 == 1
    ensures BatchRoot(leaves + [leaves[|leaves| - 1]], sha) == BatchRoot(leaves, sha)
    ensures !(Numbered(leaves) && Numbered(leaves + [leaves[|leaves| - 1]]))
  {
    var n, d := |leaves|, LeafDigests(leaves, sha);
    var padded := leaves + [leaves[n - 1]];
    assert LeafDigests(padded, sha) == d + [d[n - 1]];
    Merkle.PaddedTreeSharesRoot(Node(sha), d);
    assert padded[n - 1] == padded[n];
  }

  function SomeLeaf(i: nat): Leaf {
    Leaf("s", i, "n", 1, 1, "p", "r", "r", "o", "buffered")
  }

  const THREE := [SomeLeaf(0), SomeLeaf(1), SomeLeaf(2)]

  /** Two such batches. */
  lemma RepeatedLeafSharesRoot(sha: string -> string)
    ensures BatchRoot(THREE, sha) == BatchRoot(THREE + [SomeLeaf(2)], sha)
    ensures Numbered(THREE) && !Numbered(THREE + [SomeLeaf(2)])
  {
    PaddedBatchSharesRoot(THREE, sha);
  }

  // ---------- what a proof of inclusion proves ----------

  /** Every text that is hashed to verify a proof for a leaf. */
  ghost function HashedToVerify(leaf: Leaf, steps: seq<Merkle.Step<string>>, sha: string -> string): set<string> {
    LeafPackets([leaf]) + NodePackets(Merkle.ClimbPairs(Node(sha), steps, LeafDigest(leaf, sha)))
  }

  /** Whatever its steps are, a proof that verifies against the root of a batch proves that its leaf is in the batch,
      and in a numbered batch at which position, unless SHA-256 collides on two of the texts that were hashed. */
  lemma VerifiedLeafIsInBatch(leaves: seq<Leaf>, leaf: Leaf, steps: seq<Merkle.Step<string>>, sha: string -> string)
    requires |leaves| > 0 && CollisionFree(sha, Hashed(leaves, sha) + HashedToVerify(leaf, steps, sha))
    requires Merkle.Climb(Node(sha), steps, LeafDigest(leaf, sha)) == BatchRoot(leaves, sha)
    ensures leaf in leaves
    ensures Numbered(leaves) ==> leaf.index < |leaves| && leaves[leaf.index] == leaf
  {
    var d, x := LeafDigests(leaves, sha), LeafDigest(leaf, sha);
    ProofDoesNotCollide(leaves, leaf, steps, sha);
    ProvedLeafIsInTree(Node(sha), d, steps, x);
    var i: nat :| i < |d| && d[i] == x;
    FewerTexts(sha, Hashed(leaves, sha) + HashedToVerify(leaf, steps, sha), LeafPackets(leaves) + LeafPackets([leaf]));
    DigestsBindLeaves(leaves, [leaf], sha);
    assert LeafDigests([leaf], sha)[0] == x;
    assert leaves[i] == [leaf][0];
  }

  lemma ProofDoesNotCollide(leaves: seq<Leaf>, leaf: Leaf, steps: seq<Merkle.Step<string>>, sha: string -> string)
    requires CollisionFree(sha, Hashed(leaves, sha) + HashedToVerify(leaf, steps, sha))
    ensures var d, x := LeafDigests(leaves, sha), LeafDigest(leaf, sha);
            var p, q := Merkle.Pairs(Node(sha), d), Merkle.ClimbPairs(Node(sha), steps, x);
            Merkle.InjectiveOn(Node(sha), p + q) && NoNode(Node(sha), q, d) && NoNode(Node(sha), p, [x])
  {
    var d, x := LeafDigests(leaves, sha), LeafDigest(leaf, sha);
    var p, q := Merkle.Pairs(Node(sha), d), Merkle.ClimbPairs(Node(sha), steps, x);
    var texts := Hashed(leaves, sha) + HashedToVerify(leaf, steps, sha);
    NodePacketsOfSum(p, q);
    FewerTexts(sha, texts, NodePackets(p + q));
    NodeDigestInjective(p + q, sha);
    FewerTexts(sha, texts, LeafPackets(leaves) + NodePackets(q));
    LeafIsNoNode(leaves, q, sha);
    FewerTexts(sha, texts, LeafPackets([leaf]) + NodePackets(p));
    LeafIsNoNode([leaf], p, sha);
    assert LeafDigests([leaf], sha) == [x];
  }
}
