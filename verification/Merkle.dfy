/** Batched Merkle evidence: tree roots, inclusion proofs and the packets that are hashed.
    The hash of two children is a parameter; it is assumed not to collide only where and on what a lemma says so. */
module Merkle {
  import opened Basics

  datatype Direction = Left | Right

  datatype Step<D> = Step(direction: Direction, sibling: D)

  datatype Proof<D> = Proof(leafIndex: nat, leafCount: nat, steps: seq<Step<D>>, root: D)

  // ---------- the tree ----------

  /** One level up: neighbours are paired and the last node of an odd level is paired with itself. */
  function NextLevel<D>(node: (D, D) -> D, level: seq<D>): seq<D> {
    seq((|level| + 1) / 2,
        i requires 0 <= i < (|level| + 1) / 2 => node(level[2 * i], level[Min(2 * i + 1, |level| - 1)]))
  }

  function Root<D>(node: (D, D) -> D, level: seq<D>): D
    requires |level| > 0
    decreases |level|
  {
    if |level| == 1 then level[0] else Root(node, NextLevel(node, level))
  }

  /** `_root`: an empty tree is an error, otherwise levels are folded until one node remains. */
  method ComputeRoot<D>(node: (D, D) -> D, leaves: seq<D>) returns (r: Option<D>)
    ensures r == if |leaves| == 0 then None else Some(Root(node, leaves))
  {
    if |leaves| == 0 {
      return None;
    }
    var level := leaves;
    while |level| > 1
      invariant |level| > 0
      invariant Root(node, level) == Root(node, leaves)
      decreases |level|
    {
      level := NextLevel(node, level);
    }
    return Some(level[0]);
  }

  // ---------- inclusion proofs ----------

  function SiblingIndex(length: nat, cursor: nat): (i: nat)
    requires cursor < length
    ensures i < length
  {
    if cursor % 2 == 0 then Min(cursor + 1, length - 1) else cursor - 1
  }

  function DirectionOf(cursor: nat): Direction {
    if cursor % 2 == 0 then Right else Left
  }

  function ProofSteps<D>(node: (D, D) -> D, level: seq<D>, cursor: nat): seq<Step<D>>
    requires cursor < |level|
    decreases |level|
  {
    if |level| == 1 then []
    else [Step(DirectionOf(cursor), level[SiblingIndex(|level|, cursor)])]
         + ProofSteps(node, NextLevel(node, level), cursor / 2)
  }

  /** The directions a proof for `cursor` takes in a tree of `length` leaves, from the leaf upwards. */
  function Path(length: nat, cursor: nat): seq<Direction>
    requires cursor < length
    decreases length
  {
    if length == 1 then [] else [DirectionOf(cursor)] + Path((length + 1) / 2, cursor / 2)
  }

  function Parent<D>(node: (D, D) -> D, step: Step<D>, current: D): D {
    if step.direction == Left then node(step.sibling, current) else node(current, step.sibling)
  }

  function Climb<D>(node: (D, D) -> D, steps: seq<Step<D>>, current: D): D {
    if |steps| == 0 then current
    else Climb(node, steps[1..], Parent(node, steps[0], current))
  }

  /** `batched_merkle_proof`: walks one leaf to the root, recording its sibling on every level. */
  method BuildProof<D>(node: (D, D) -> D, leaves: seq<D>, index: nat) returns (r: Option<Proof<D>>)
    ensures r.None? <==> index >= |leaves|
    ensures r.Some? ==> r.value == Proof(index, |leaves|, ProofSteps(node, leaves, index), Root(node, leaves))
  {
    if index >= |leaves| {
      return None;
    }
    var level, cursor: nat, steps := leaves, index, [];
    while |level| > 1
      invariant cursor < |level|
      invariant Root(node, level) == Root(node, leaves)
      invariant steps + ProofSteps(node, level, cursor) == ProofSteps(node, leaves, index)
      decreases |level|
    {
      var step := Step(DirectionOf(cursor), level[SiblingIndex(|level|, cursor)]);
      Regroup(steps, [step], ProofSteps(node, NextLevel(node, level), cursor / 2));
      steps := steps + [step];
      level := NextLevel(node, level);
      cursor := cursor / 2;
    }
    return Some(Proof(index, |leaves|, steps, level[0]));
  }

  lemma Regroup<T>(a: seq<T>, b: seq<T>, c: seq<T>)
    ensures a + (b + c) == (a + b) + c
  {
  }

  /** `batched_merkle_proof_verify`. */
  method VerifyProof<D(==)>(node: (D, D) -> D, leaf: D, proof: Proof<D>) returns (ok: bool)
    ensures ok <==> Climb(node, proof.steps, leaf) == proof.root
  {
    var current := leaf;
    for i := 0 to |proof.steps|
      invariant Climb(node, proof.steps[i..], current) == Climb(node, proof.steps, leaf)
    {
      var step := proof.steps[i];
      assert proof.steps[i..][1..] == proof.steps[i + 1..];
      current := if step.direction == Left then node(step.sibling, current) else node(current, step.sibling);
    }
    assert proof.steps[|proof.steps|..] == [];
    ok := current == proof.root;
  }

  /** Every proof that is built verifies: climbing from leaf `i` along its proof reaches the tree root. */
  lemma {:induction false} BuiltProofVerifies<D>(node: (D, D) -> D, level: seq<D>, i: nat)
    requires i < |level|
    ensures Climb(node, ProofSteps(node, level, i), level[i]) == Root(node, level)
    decreases |level|
  {
    if |level| > 1 {
      var next := NextLevel(node, level);
      var steps := ProofSteps(node, level, i);
      assert steps[1..] == ProofSteps(node, next, i / 2);
      StepReachesParent(node, level, i);
      BuiltProofVerifies(node, next, i / 2);
    }
  }

  lemma StepReachesParent<D>(node: (D, D) -> D, level: seq<D>, i: nat)
    requires i < |level| && |level| > 1
    ensures Parent(node, Step(DirectionOf(i), level[SiblingIndex(|level|, i)]), level[i])
         == NextLevel(node, level)[i / 2]
  {
    if i % 2 == 1 {
      assert 2 * (i / 2) == i - 1;
    } else {
      assert 2 * (i / 2) == i;
    }
  }

  /** A proof's directions are those of its index: its length depends on the leaf count alone. */
  lemma {:induction false} BuiltProofFollowsPath<D>(node: (D, D) -> D, level: seq<D>, i: nat)
    requires i < |level|
    ensures Directions(ProofSteps(node, level, i)) == Path(|level|, i)
    decreases |level|
  {
    if |level| > 1 {
      var steps := ProofSteps(node, level, i);
      assert steps[1..] == ProofSteps(node, NextLevel(node, level), i / 2);
      BuiltProofFollowsPath(node, NextLevel(node, level), i / 2);
    }
  }

  function Directions<D>(steps: seq<Step<D>>): seq<Direction> {
    if |steps| == 0 then [] else [steps[0].direction] + Directions(steps[1..])
  }

  // ---------- binding ----------

  /** No two of these pairs of children share a hash. */
  ghost predicate InjectiveOn<D(!new)>(node: (D, D) -> D, pairs: set<(D, D)>) {
    forall p, q :: p in pairs && q in pairs && node(p.0, p.1) == node(q.0, q.1) ==> p == q
  }

  /** The children that are hashed to get from one level to the next. */
  ghost function LevelPairs<D>(level: seq<D>): set<(D, D)> {
    set i: nat | i < (|level| + 1) / 2 :: PairAt(level, i)
  }

  function PairAt<D>(level: seq<D>, i: nat): (D, D)
    requires i < (|level| + 1) / 2
  {
    (level[2 * i], level[Min(2 * i + 1, |level| - 1)])
  }

  /** All pairs of children that are hashed to compute the root. */
  ghost function Pairs<D>(node: (D, D) -> D, level: seq<D>): set<(D, D)>
    decreases |level|
  {
    if |level| <= 1 then {} else LevelPairs(level) + Pairs(node, NextLevel(node, level))
  }

  lemma FewerPairs<D(!new)>(node: (D, D) -> D, pairs: set<(D, D)>, fewer: set<(D, D)>)
    requires InjectiveOn(node, pairs) && fewer <= pairs
    ensures InjectiveOn(node, fewer)
  {
  }

  lemma NextLevelInjective<D(!new)>(node: (D, D) -> D, a: seq<D>, b: seq<D>)
    requires InjectiveOn(node, LevelPairs(a) + LevelPairs(b)) && |a| == |b|
    requires NextLevel(node, a) == NextLevel(node, b)
    ensures a == b
  {
    forall k: nat | k < |a| ensures a[k] == b[k] {
      var i := k / 2;
      PairOf(|a|, k);
      SameParentSameChildren(node, a, b, i);
    }
  }

  /** Node `k` is one of the two nodes of its pair. */
  lemma PairOf(length: nat, k: nat)
    requires k < length
    ensures k / 2 < (length + 1) / 2 && 2 * (k / 2) < length
    ensures k == 2 * (k / 2) || k == Min(2 * (k / 2) + 1, length - 1)
  {
  }

  lemma SameParentSameChildren<D(!new)>(node: (D, D) -> D, a: seq<D>, b: seq<D>, i: nat)
    requires InjectiveOn(node, LevelPairs(a) + LevelPairs(b)) && |a| == |b|
    requires i < (|a| + 1) / 2 && NextLevel(node, a)[i] == NextLevel(node, b)[i]
    ensures a[2 * i] == b[2 * i] && a[Min(2 * i + 1, |a| - 1)] == b[Min(2 * i + 1, |a| - 1)]
  {
    assert PairAt(a, i) in LevelPairs(a) && PairAt(b, i) in LevelPairs(b);
  }

  /** Trees with equally many leaves and equal roots have equal leaves, unless two of the pairs that were hashed to
      compute these roots collide. */
  lemma {:induction false} RootBindsLeaves<D(!new)>(node: (D, D) -> D, a: seq<D>, b: seq<D>)
    requires |a| == |b| > 0 && InjectiveOn(node, Pairs(node, a) + Pairs(node, b))
    requires Root(node, a) == Root(node, b)
    ensures a == b
    decreases |a|
  {
    if |a| == 1 {
      assert a == [a[0]] && b == [b[0]];
    } else {
      var c, d := NextLevel(node, a), NextLevel(node, b);
      FewerPairs(node, Pairs(node, a) + Pairs(node, b), Pairs(node, c) + Pairs(node, d));
      RootBindsLeaves(node, c, d);
      FewerPairs(node, Pairs(node, a) + Pairs(node, b), LevelPairs(a) + LevelPairs(b));
      NextLevelInjective(node, a, b);
    }
  }

  /** An odd level and its copy padded with the last node share a root. */
  lemma PaddedTreeSharesRoot<D>(node: (D, D) -> D, level: seq<D>)
    requires |level| > 1 && |level| % 2 == 1
    ensures Root(node, level + [level[|level| - 1]]) == Root(node, level)
  {
    PaddedLevelIsCanonical(node, level);
  }

  lemma PaddedLevelIsCanonical<D>(node: (D, D) -> D, level: seq<D>)
    requires |level| > 1 && |level| % 2 == 1
    ensures NextLevel(node, level + [level[|level| - 1]]) == NextLevel(node, level)
  {
    var n := |level|;
    var a, b := NextLevel(node, level + [level[n - 1]]), NextLevel(node, level);
    assert |a| == |b|;
    forall i | 0 <= i < |b| ensures a[i] == b[i] {
      if 2 * i + 1 < n {
      } else {
        assert 2 * i == n - 1;
      }
    }
  }

  /** The pair of children that one step of a proof hashes. */
  function StepPair<D>(step: Step<D>, current: D): (D, D) {
    if step.direction == Left then (step.sibling, current) else (current, step.sibling)
  }

  /** All pairs of children that are hashed to verify a proof. */
  ghost function ClimbPairs<D>(node: (D, D) -> D, steps: seq<Step<D>>, current: D): set<(D, D)> {
    if |steps| == 0 then {}
    else {StepPair(steps[0], current)} + ClimbPairs(node, steps[1..], Parent(node, steps[0], current))
  }

  /** A proof that follows index `i`'s path to the root of `level` can only be about `level[i]`,
      and every sibling in it is the one of the tree, unless two of the pairs that were hashed collide. */
  lemma {:induction false} VerifiedProofBindsLeaf<D(!new)>(
      node: (D, D) -> D, level: seq<D>, i: nat, steps: seq<Step<D>>, leaf: D)
    requires i < |level| && InjectiveOn(node, Pairs(node, level) + ClimbPairs(node, steps, leaf))
    requires Directions(steps) == Path(|level|, i)
    requires Climb(node, steps, leaf) == Root(node, level)
    ensures leaf == level[i]
    ensures steps == ProofSteps(node, level, i)
    decreases |level|
  {
    if |level| == 1 {
      DirectionsLength(steps);
      assert steps == [];
    } else {
      ProofUnfolds(node, level, i, steps, leaf);
      HashedAbove(node, level, steps, leaf);
      VerifiedProofBindsLeaf(node, NextLevel(node, level), i / 2, steps[1..], Parent(node, steps[0], leaf));
      ParentBindsChildren(node, level, i, steps[0], leaf);
      FirstStepThenRest(steps, Step(DirectionOf(i), level[SiblingIndex(|level|, i)]));
    }
  }

  /** The rest of a proof for `level` is one for the level above. */
  lemma ProofUnfolds<D>(node: (D, D) -> D, level: seq<D>, i: nat, steps: seq<Step<D>>, leaf: D)
    requires i < |level| && |level| > 1
    requires Directions(steps) == Path(|level|, i) && Climb(node, steps, leaf) == Root(node, level)
    ensures |steps| > 0 && steps[0].direction == DirectionOf(i)
    ensures Directions(steps[1..]) == Path(|NextLevel(node, level)|, i / 2)
    ensures Climb(node, steps[1..], Parent(node, steps[0], leaf)) == Root(node, NextLevel(node, level))
  {
    DirectionsLength(steps);
    PathSplits(steps, |level|, i);
  }

  /** Of the pairs hashed for a level and a proof, those of the first step and those above it. */
  lemma HashedAbove<D(!new)>(node: (D, D) -> D, level: seq<D>, steps: seq<Step<D>>, leaf: D)
    requires |level| > 1 && |steps| > 0
    requires InjectiveOn(node, Pairs(node, level) + ClimbPairs(node, steps, leaf))
    ensures InjectiveOn(node, LevelPairs(level) + {StepPair(steps[0], leaf)})
    ensures InjectiveOn(node, Pairs(node, NextLevel(node, level))
                              + ClimbPairs(node, steps[1..], Parent(node, steps[0], leaf)))
  {
  }

  lemma FirstStepThenRest<D>(steps: seq<Step<D>>, step: Step<D>)
    requires |steps| > 0 && steps[0].direction == step.direction && steps[0].sibling == step.sibling
    ensures steps == [step] + steps[1..]
  {
  }

  lemma PathSplits<D>(steps: seq<Step<D>>, length: nat, i: nat)
    requires i < length && length > 1 && |steps| > 0
    requires Directions(steps) == Path(length, i)
    ensures steps[0].direction == DirectionOf(i)
    ensures Directions(steps[1..]) == Path((length + 1) / 2, i / 2)
  {
    assert Directions(steps)[1..] == Directions(steps[1..]);
    assert Path(length, i)[1..] == Path((length + 1) / 2, i / 2);
  }

  lemma ParentBindsChildren<D(!new)>(node: (D, D) -> D, level: seq<D>, i: nat, step: Step<D>, leaf: D)
    requires i < |level| && |level| > 1 && InjectiveOn(node, LevelPairs(level) + {StepPair(step, leaf)})
    requires step.direction == DirectionOf(i)
    requires Parent(node, step, leaf) == NextLevel(node, level)[i / 2]
    ensures leaf == level[i] && step.sibling == level[SiblingIndex(|level|, i)]
  {
    var pair := PairAt(level, i / 2);
    assert pair in LevelPairs(level);
    assert NextLevel(node, level)[i / 2] == node(pair.0, pair.1);
    assert StepPair(step, leaf) == pair;
  }

  lemma {:induction false} DirectionsLength<D>(steps: seq<Step<D>>)
    ensures |Directions(steps)| == |steps|
  {
    if |steps| > 0 {
      DirectionsLength(steps[1..]);
    }
  }
}
