/** What the root of a recorded batch says about the batch. */
module RecordedBatches {
  import opened Basics
  import opened Journal
  import opened CompleteTree
  import Merkle

  /** What is hashed into a leaf. */
  datatype Input = Input(receipt: Receipt, index: nat, digest: Digest)

  type LeafHash = (Receipt, nat, Digest) -> Digest

  type NodeHash = (Digest, Digest) -> Digest

  function HashOf(leaf: LeafHash, x: Input): Digest {
    leaf(x.receipt, x.index, x.digest)
  }

  function Hashes(leaf: LeafHash, inputs: seq<Input>): (d: seq<Digest>)
    ensures |d| == |inputs|
  {
    seq(|inputs|, i requires 0 <= i < |inputs| => HashOf(leaf, inputs[i]))
  }

  /** Every mediation of the batch has its leaf and its receipt. */
  ghost predicate Complete(t: Tables, b: Batch) {
    b.first <= b.last && forall k: nat :: b.first <= k <= b.last ==> k in t.leaves && k in t.receipts
  }

  /** What is hashed into the leaves of a batch. */
  ghost function Inputs(t: Tables, b: Batch): (inputs: seq<Input>)
    requires Complete(t, b)
    ensures |inputs| == b.last + 1 - b.first
  {
    seq(b.last + 1 - b.first, i requires 0 <= i < b.last + 1 - b.first =>
      Input(t.receipts[b.first + i], i, t.leaves[b.first + i].inputDigest))
  }

  lemma AuditedIsComplete(hash: Hash, t: Tables, id: nat, b: Batch)
    requires Audits(hash, t, id, b, b.last)
    ensures Complete(t, b)
  {
    forall k: nat | b.first <= k <= b.last ensures k in t.leaves && k in t.receipts {
      assert AuditedLeaf(hash, t, id, b.first, b.beforeRoot, k);
    }
  }

  /** The leaf digests of an audited batch are the hashes of its inputs. */
  lemma AuditedDigests(hash: Hash, t: Tables, id: nat, b: Batch)
    requires Audits(hash, t, id, b, b.last) && Complete(t, b)
    ensures LeafDigests(t, b.first, b.last) == Hashes(hash.leaf, Inputs(t, b))
  {
    forall i | 0 <= i < b.last + 1 - b.first
      ensures LeafDigests(t, b.first, b.last)[i] == Hashes(hash.leaf, Inputs(t, b))[i]
    {
      assert AuditedLeaf(hash, t, id, b.first, b.beforeRoot, b.first + i);
    }
  }

  // ---------- collisions ----------

  ghost predicate LeavesDiffer(leaf: LeafHash, x: seq<Input>, y: seq<Input>) {
    forall i: nat, j: nat :: i < |x| && j < |y| && HashOf(leaf, x[i]) == HashOf(leaf, y[j]) ==> x[i] == y[j]
  }

  /** Of all that was hashed for the roots of two batches, no two leaves collide, no two nodes, and no leaf with a
      node. */
  ghost predicate NoCollision(leaf: LeafHash, node: NodeHash, x: seq<Input>, y: seq<Input>) {
    var p, q := Merkle.Pairs(node, Hashes(leaf, x)), Merkle.Pairs(node, Hashes(leaf, y));
    && LeavesDiffer(leaf, x, y) && Merkle.InjectiveOn(node, p + q)
    && NoNode(node, q, Hashes(leaf, x)) && NoNode(node, p, Hashes(leaf, y))
  }

  predicate Numbered(x: seq<Input>) {
    forall i :: 0 <= i < |x| ==> x[i].index == i
  }

  /** Numbered leaves with the same root are the same leaves. */
  lemma NumberedInputsBind(leaf: LeafHash, node: NodeHash, x: seq<Input>, y: seq<Input>)
    requires |x| > 0 && |y| > 0 && Numbered(x) && Numbered(y) && NoCollision(leaf, node, x, y)
    ensures Merkle.Root(node, Hashes(leaf, x)) == Merkle.Root(node, Hashes(leaf, y)) <==> x == y
  {
    if Merkle.Root(node, Hashes(leaf, x)) == Merkle.Root(node, Hashes(leaf, y)) {
      SameTree(node, Hashes(leaf, x), Hashes(leaf, y));
      FilledEnds(Hashes(leaf, x), Hashes(leaf, y));
      EndsBind(leaf, x, y);
    }
  }

  lemma EndsBind(leaf: LeafHash, x: seq<Input>, y: seq<Input>)
    requires |x| > 0 && |y| > 0 && Numbered(x) && Numbered(y) && LeavesDiffer(leaf, x, y)
    requires Hashes(leaf, x)[|x| - 1] == Hashes(leaf, y)[|y| - 1]
    requires |x| == |y| ==> Hashes(leaf, x) == Hashes(leaf, y)
    ensures x == y
  {
    assert x[|x| - 1] == y[|y| - 1];
    forall i | 0 <= i < |x| ensures x[i] == y[i] {
      assert Hashes(leaf, x)[i] == Hashes(leaf, y)[i];
    }
  }

  // ---------- recorded batches ----------

  /** Nothing that was hashed for the roots of two recorded batches collides. */
  ghost predicate RecordedApart(leaf: LeafHash, node: NodeHash, t: Tables, b: Batch, u: Tables, b': Batch) {
    Complete(t, b) && Complete(u, b') ==> NoCollision(leaf, node, Inputs(t, b), Inputs(u, b'))
  }

  /** Two recorded batches have the same root exactly if they have the same count and were made of the same receipts
      and inputs, unless two of the values that were hashed for these roots collide. Each leaf hashes its own index, so
      no recorded batch is the padding of another. */
  lemma BatchRootBindsLeaves(receipt: Receipt -> Digest, leaf: LeafHash, node: NodeHash,
                             execution: (Digest, Digest) -> Digest,
                             t: Tables, id: nat, b: Batch, u: Tables, id': nat, b': Batch)
    requires Audits(MerkleHash(receipt, leaf, node, execution), t, id, b, b.last)
    requires Audits(MerkleHash(receipt, leaf, node, execution), u, id', b', b'.last)
    requires RecordedApart(leaf, node, t, b, u, b')
    ensures Complete(t, b) && Complete(u, b')
    ensures b.batchRoot == b'.batchRoot <==> b.count == b'.count && Inputs(t, b) == Inputs(u, b')
    ensures b.batchRoot == b'.batchRoot ==> b.beforeRoot == b'.beforeRoot && b.afterRoot == b'.afterRoot
  {
    var hash := MerkleHash(receipt, leaf, node, execution);
    AuditedIsComplete(hash, t, id, b);
    AuditedIsComplete(hash, u, id', b');
    AuditedRoot(receipt, leaf, node, execution, t, id, b);
    AuditedRoot(receipt, leaf, node, execution, u, id', b');
    NumberedInputsBind(leaf, node, Inputs(t, b), Inputs(u, b'));
    SameInputsSameRoot(hash, t, id, b, u, id', b');
  }

  lemma AuditedRoot(receipt: Receipt -> Digest, leaf: LeafHash, node: NodeHash, execution: (Digest, Digest) -> Digest,
                    t: Tables, id: nat, b: Batch)
    requires Audits(MerkleHash(receipt, leaf, node, execution), t, id, b, b.last) && Complete(t, b)
    ensures |Inputs(t, b)| == b.count > 0 && Numbered(Inputs(t, b))
    ensures b.batchRoot == Merkle.Root(node, Hashes(leaf, Inputs(t, b)))
  {
    AuditedDigests(MerkleHash(receipt, leaf, node, execution), t, id, b);
  }

  /** The root a batch starts from is in each of its receipts. */
  lemma SameInputsSameRoot(hash: Hash, t: Tables, id: nat, b: Batch, u: Tables, id': nat, b': Batch)
    requires Audits(hash, t, id, b, b.last) && Audits(hash, u, id', b', b'.last)
    requires Complete(t, b) && Complete(u, b')
    ensures Inputs(t, b) == Inputs(u, b') ==> b.beforeRoot == b'.beforeRoot
  {
    assert AuditedLeaf(hash, t, id, b.first, b.beforeRoot, b.first);
    assert AuditedLeaf(hash, u, id', b'.first, b'.beforeRoot, b'.first);
    assert Inputs(t, b)[0].receipt == t.receipts[b.first] && Inputs(u, b')[0].receipt == u.receipts[b'.first];
  }
}
