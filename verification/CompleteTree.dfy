/** When two Merkle trees share a root. Pairing the last node of an odd level with itself makes every tree a complete
    binary tree in which some leaves occur more than once; the root sees that complete tree and nothing else. */
module CompleteTree {
  import opened Basics
  import opened BitArithmetic
  import opened Merkle

  /** The number of levels above the leaves. */
  function Depth(n: nat): nat
    requires n > 0
  {
    if n == 1 then 0 else 1 + Depth((n + 1) / 2)
  }

  /** Which of `n` leaves stands at position `j` of the complete tree. It is not always the last leaf that fills up:
      six leaves a, b, c, d, e, f make a, b, c, d, e, f, e, f. */
  function Source(n: nat, j: nat): (k: nat)
    requires n > 0
    ensures k < n
  {
    if n == 1 then 0 else Min(2 * Source((n + 1) / 2, j / 2) + j % 2, n - 1)
  }

  /** The leaves of the complete tree. */
  function Filled<D>(level: seq<D>): (s: seq<D>)
    requires |level| > 0
    ensures |s| == Pow(2, Depth(|level|))
  {
    seq(Pow(2, Depth(|level|)), j requires 0 <= j < Pow(2, Depth(|level|)) => level[Source(|level|, j)])
  }

  // ---------- positions ----------

  /** Every leaf stands at its own index. */
  lemma {:induction false} SourceOfIndex(n: nat, i: nat)
    requires i < n
    ensures i < Pow(2, Depth(n)) && Source(n, i) == i
    decreases n
  {
    if n > 1 {
      SourceOfIndex((n + 1) / 2, i / 2);
    }
  }

  /** The last position holds the last leaf. */
  lemma {:induction false} SourceOfLast(n: nat)
    requires n > 0
    ensures Pow(2, Depth(n)) > 0 && Source(n, Pow(2, Depth(n)) - 1) == n - 1
  {
    if n > 1 {
      SourceOfLast((n + 1) / 2);
      assert (Pow(2, Depth(n)) - 1) / 2 == Pow(2, Depth((n + 1) / 2)) - 1;
    }
  }

  /** Leaves at neighbouring positions are the children of the node above. */
  lemma ParentOfPositions<D>(node: (D, D) -> D, level: seq<D>, j: nat)
    requires |level| > 1 && j < Pow(2, Depth(|NextLevel(node, level)|))
    ensures 2 * j + 1 < |Filled(level)|
    ensures Filled(NextLevel(node, level))[j] == node(Filled(level)[2 * j], Filled(level)[2 * j + 1])
    ensures (Filled(level)[2 * j], Filled(level)[2 * j + 1]) in LevelPairs(level)
  {
    var k, r := SourceOfChildren(|level|, j);
    FilledAt(NextLevel(node, level), j, k);
    FilledAt(level, 2 * j, 2 * k);
    FilledAt(level, 2 * j + 1, r);
    NextIsParent(node, level, k);
  }

  lemma FilledAt<D>(level: seq<D>, j: nat, k: nat)
    requires |level| > 0 && j < Pow(2, Depth(|level|)) && Source(|level|, j) == k
    ensures j < |Filled(level)| && Filled(level)[j] == level[k]
  {
  }

  /** The positions below position `j` of the level above hold the two leaves, `2 * k` and `r`, of one pair. */
  lemma SourceOfChildren(n: nat, j: nat) returns (k: nat, r: nat)
    requires n > 1 && j < Pow(2, Depth((n + 1) / 2))
    ensures 2 * j + 1 < Pow(2, Depth(n)) && k < (n + 1) / 2 && r == Min(2 * k + 1, n - 1)
    ensures Source((n + 1) / 2, j) == k && Source(n, 2 * j) == 2 * k && Source(n, 2 * j + 1) == r
  {
    Halves(j);
    k := Source((n + 1) / 2, j);
    r := Source(n, 2 * j + 1);
  }

  lemma Halves(j: nat)
    ensures (2 * j) / 2 == j && (2 * j) % 2 == 0 && (2 * j + 1) / 2 == j && (2 * j + 1) % 2 == 1
  {
  }

  /** Filled sequences of two levels agree if those of the levels above do and no pairs collide. */
  lemma FilledBelow<D(!new)>(node: (D, D) -> D, a: seq<D>, b: seq<D>)
    requires |a| > 1 && |b| > 1 && Depth(|a|) == Depth(|b|)
    requires Filled(NextLevel(node, a)) == Filled(NextLevel(node, b))
    requires InjectiveOn(node, LevelPairs(a) + LevelPairs(b))
    ensures Filled(a) == Filled(b)
  {
    forall i: nat | i < |Filled(a)| ensures Filled(a)[i] == Filled(b)[i] {
      var j := i / 2;
      ParentOfPositions(node, a, j);
      ParentOfPositions(node, b, j);
      assert i == 2 * j || i == 2 * j + 1;
    }
  }

  lemma FilledAbove<D>(node: (D, D) -> D, a: seq<D>, b: seq<D>)
    requires |a| > 1 && |b| > 1 && Filled(a) == Filled(b) && Depth(|a|) == Depth(|b|)
    ensures Filled(NextLevel(node, a)) == Filled(NextLevel(node, b))
  {
    forall j: nat | j < |Filled(NextLevel(node, a))|
      ensures Filled(NextLevel(node, a))[j] == Filled(NextLevel(node, b))[j]
    {
      ParentOfPositions(node, a, j);
      ParentOfPositions(node, b, j);
    }
  }

  // ---------- equal depth ----------

  /** Trees of equal depth share a root exactly if they fill up to the same complete tree, unless two of the pairs
      that were hashed collide. */
  lemma {:induction false} SameRootIff<D(!new)>(node: (D, D) -> D, a: seq<D>, b: seq<D>)
    requires |a| > 0 && |b| > 0 && Depth(|a|) == Depth(|b|)
    requires InjectiveOn(node, Pairs(node, a) + Pairs(node, b))
    ensures Root(node, a) == Root(node, b) <==> Filled(a) == Filled(b)
    decreases |a|
  {
    if |a| == 1 {
      FilledOne(a);
      FilledOne(b);
    } else {
      PairsByLevel(node, a, b);
      Shrinks(node, a);
      Shrinks(node, b);
      SameRootIff(node, NextLevel(node, a), NextLevel(node, b));
      FilledByLevel(node, a, b);
    }
  }

  lemma Shrinks<D>(node: (D, D) -> D, a: seq<D>)
    requires |a| > 1
    ensures 0 < |NextLevel(node, a)| < |a| && Depth(|a|) == 1 + Depth(|NextLevel(node, a)|)
    ensures Root(node, a) == Root(node, NextLevel(node, a))
  {
  }

  lemma FilledOne<D>(a: seq<D>)
    requires |a| == 1
    ensures Filled(a) == [a[0]]
  {
  }

  lemma FilledByLevel<D(!new)>(node: (D, D) -> D, a: seq<D>, b: seq<D>)
    requires |a| > 1 && |b| > 1 && Depth(|a|) == Depth(|b|)
    requires InjectiveOn(node, LevelPairs(a) + LevelPairs(b))
    ensures Filled(a) == Filled(b) <==> Filled(NextLevel(node, a)) == Filled(NextLevel(node, b))
  {
    if Filled(NextLevel(node, a)) == Filled(NextLevel(node, b)) {
      FilledBelow(node, a, b);
    }
    if Filled(a) == Filled(b) {
      FilledAbove(node, a, b);
    }
  }

  lemma PairsByLevel<D(!new)>(node: (D, D) -> D, a: seq<D>, b: seq<D>)
    requires |b| > 1 && InjectiveOn(node, Pairs(node, a) + Pairs(node, b))
    ensures |a| > 1 ==> InjectiveOn(node, LevelPairs(a) + LevelPairs(b))
    ensures |a| > 1 ==> InjectiveOn(node, Pairs(node, NextLevel(node, a)) + Pairs(node, NextLevel(node, b)))
    ensures InjectiveOn(node, Pairs(node, a) + Pairs(node, NextLevel(node, b)))
  {
  }

  /** Such trees have the same first and the same last leaf. */
  lemma FilledEnds<D>(a: seq<D>, b: seq<D>)
    requires |a| > 0 && |b| > 0 && Filled(a) == Filled(b)
    ensures a[0] == b[0] && a[|a| - 1] == b[|b| - 1]
    ensures |a| == |b| ==> a == b
  {
    SourceOfIndex(|a|, 0);
    SourceOfIndex(|b|, 0);
    assert Filled(a)[0] == a[0] && Filled(b)[0] == b[0];
    SourceOfLast(|a|);
    SourceOfLast(|b|);
    assert Filled(a)[|Filled(a)| - 1] == a[|a| - 1] && Filled(b)[|Filled(b)| - 1] == b[|b| - 1];
    if |a| == |b| {
      forall i: nat | i < |a| ensures a[i] == b[i] {
        SourceOfIndex(|a|, i);
        assert Filled(a)[i] == a[i] && Filled(b)[i] == b[i];
      }
    }
  }

  // ---------- unequal depth ----------

  /** A tree that shares its root with a deeper one has a node of that one as its first leaf. */
  lemma {:induction false} FirstLeafIsNode<D(!new)>(node: (D, D) -> D, a: seq<D>, b: seq<D>) returns (p: (D, D))
    requires |a| > 0 && |b| > 0 && Depth(|a|) < Depth(|b|) && Root(node, a) == Root(node, b)
    requires InjectiveOn(node, Pairs(node, a) + Pairs(node, b))
    ensures p in Pairs(node, b) && a[0] == node(p.0, p.1)
    decreases |b|
  {
    PairsByLevel(node, a, b);
    if Depth(|a|) + 1 == Depth(|b|) {
      FirstLeafIsAbove(node, a, NextLevel(node, b));
      p := FirstPair(node, b);
    } else {
      p := FirstLeafIsNode(node, a, NextLevel(node, b));
      PairsAbove(node, b, p);
    }
  }

  lemma FirstLeafIsAbove<D(!new)>(node: (D, D) -> D, a: seq<D>, c: seq<D>)
    requires |a| > 0 && |c| > 0 && Depth(|a|) == Depth(|c|) && Root(node, a) == Root(node, c)
    requires InjectiveOn(node, Pairs(node, a) + Pairs(node, c))
    ensures a[0] == c[0]
  {
    SameRootIff(node, a, c);
    FilledEnds(a, c);
  }

  lemma PairsAbove<D(!new)>(node: (D, D) -> D, b: seq<D>, p: (D, D))
    requires |b| > 1 && (p in LevelPairs(b) || p in Pairs(node, NextLevel(node, b)))
    ensures p in Pairs(node, b)
  {
  }

  lemma FirstPair<D(!new)>(node: (D, D) -> D, b: seq<D>) returns (p: (D, D))
    requires |b| > 1
    ensures p in Pairs(node, b) && NextLevel(node, b)[0] == node(p.0, p.1)
  {
    p := PairAt(b, 0);
    NextIsParent(node, b, 0);
    PairsAbove(node, b, p);
  }

  /** Node `i` of the next level is the parent of pair `i`. */
  lemma NextIsParent<D>(node: (D, D) -> D, level: seq<D>, i: nat)
    requires i < (|level| + 1) / 2
    ensures NextLevel(node, level)[i] == node(PairAt(level, i).0, PairAt(level, i).1)
    ensures PairAt(level, i) in LevelPairs(level)
  {
  }

  // ---------- for given counts ----------

  function Repeated<D>(x: D, n: nat): (s: seq<D>)
    ensures |s| == n
  {
    seq(n, i => x)
  }

  /** The node `k` levels above a row of `x`. */
  function Above<D>(node: (D, D) -> D, x: D, k: nat): D {
    if k == 0 then x else node(Above(node, x, k - 1), Above(node, x, k - 1))
  }

  lemma {:induction false} AboveAgain<D>(node: (D, D) -> D, x: D, k: nat, m: nat)
    ensures Above(node, Above(node, x, k), m) == Above(node, x, k + m)
  {
    if m > 0 {
      AboveAgain(node, x, k, m - 1);
    }
  }

  lemma NextOfRepeated<D>(node: (D, D) -> D, x: D, n: nat)
    ensures NextLevel(node, Repeated(x, n)) == Repeated(node(x, x), (n + 1) / 2)
  {
  }

  lemma {:induction false} RootOfRepeated<D>(node: (D, D) -> D, x: D, n: nat)
    requires n > 0
    ensures Root(node, Repeated(x, n)) == Above(node, x, Depth(n))
    decreases n
  {
    if n > 1 {
      NextOfRepeated(node, x, n);
      RootOfRepeated(node, node(x, x), (n + 1) / 2);
      AboveAgain(node, x, 1, Depth(n) - 1);
      assert Above(node, x, 1) == node(x, x);
    }
  }

  ghost function Squares<D>(node: (D, D) -> D, x: D, depth: nat): set<(D, D)> {
    set k: nat | k < depth :: (Above(node, x, k), Above(node, x, k))
  }

  lemma {:induction false} PairsOfRepeated<D(!new)>(node: (D, D) -> D, x: D, k: nat, n: nat, depth: nat)
    requires n > 0 && k + Depth(n) <= depth
    ensures Pairs(node, Repeated(Above(node, x, k), n)) <= Squares(node, x, depth)
    decreases n
  {
    if n > 1 {
      var y := Above(node, x, k);
      NextOfRepeated(node, y, n);
      assert Above(node, x, k + 1) == node(y, y);
      PairsOfRepeated(node, x, k + 1, (n + 1) / 2, depth);
      LevelOfRepeated(y, n);
    }
  }

  lemma LevelOfRepeated<D>(y: D, n: nat)
    ensures LevelPairs(Repeated(y, n)) <= {(y, y)}
  {
  }

  /** Over rows of `n` and of `m` leaves, equal roots mean equal leaves unless two hashed pairs collide. */
  ghost predicate RootsBind<D(!new)>(node: (D, D) -> D, n: nat, m: nat)
    requires n > 0 && m > 0
  {
    forall a: seq<D>, b: seq<D> :: |a| == n && |b| == m && SharesRoot(node, a, b) ==> a == b
  }

  ghost predicate SharesRoot<D(!new)>(node: (D, D) -> D, a: seq<D>, b: seq<D>)
    requires |a| > 0 && |b| > 0
  {
    InjectiveOn(node, Pairs(node, a) + Pairs(node, b)) && Root(node, a) == Root(node, b)
  }

  /** Bare digests are bound by a root exactly if their count is known: for any two different counts there are rows
      with one root. (`x` only has to be a value above which nodes do not collide.) */
  lemma RootsBindIff<D(!new)>(node: (D, D) -> D, n: nat, m: nat, x: D)
    requires n > 0 && m > 0 && InjectiveOn(node, Squares(node, x, Max(Depth(n), Depth(m))))
    ensures RootsBind(node, n, m) <==> n == m
  {
    if n == m {
      forall a: seq<D>, b: seq<D> | |a| == n && |b| == m && SharesRoot(node, a, b) ensures a == b {
        RootBindsLeaves(node, a, b);
      }
    } else {
      var depth := Max(Depth(n), Depth(m));
      var a := RepeatedTo(node, x, n, depth);
      var b := RepeatedTo(node, x, m, depth);
      FewerPairs(node, Squares(node, x, depth), Pairs(node, a) + Pairs(node, b));
      assert SharesRoot(node, a, b);
    }
  }

  /** A row of `n` equal leaves whose root lies `depth` levels above `x`. */
  lemma RepeatedTo<D(!new)>(node: (D, D) -> D, x: D, n: nat, depth: nat) returns (a: seq<D>)
    requires n > 0 && Depth(n) <= depth
    ensures |a| == n && Root(node, a) == Above(node, x, depth) && Pairs(node, a) <= Squares(node, x, depth)
  {
    var k := depth - Depth(n);
    a := Repeated(Above(node, x, k), n);
    PairsOfRepeated(node, x, k, n, depth);
    RootOfRepeated(node, Above(node, x, k), n);
    AboveAgain(node, x, k, Depth(n));
  }

  // ---------- leaves that are no nodes ----------

  /** None of the values is the hash of one of the pairs. */
  ghost predicate NoNode<D(!new)>(node: (D, D) -> D, pairs: set<(D, D)>, values: seq<D>) {
    forall i: nat, p :: i < |values| && p in pairs ==> values[i] != node(p.0, p.1)
  }

  /** With leaves that are no nodes, equal roots mean equal depth, hence the same complete tree. */
  lemma SameTree<D(!new)>(node: (D, D) -> D, a: seq<D>, b: seq<D>)
    requires |a| > 0 && |b| > 0 && Root(node, a) == Root(node, b)
    requires InjectiveOn(node, Pairs(node, a) + Pairs(node, b))
    requires NoNode(node, Pairs(node, b), a) && NoNode(node, Pairs(node, a), b)
    ensures Depth(|a|) == Depth(|b|) && Filled(a) == Filled(b)
  {
    if Depth(|a|) < Depth(|b|) {
      var p := FirstLeafIsNode(node, a, b);
      assert false;
    } else if Depth(|b|) < Depth(|a|) {
      assert Pairs(node, b) + Pairs(node, a) == Pairs(node, a) + Pairs(node, b);
      var p := FirstLeafIsNode(node, b, a);
      assert false;
    }
    SameRootIff(node, a, b);
  }

  // ---------- proofs of inclusion ----------

  /** Everything in a tree: leaves, inner nodes and the root. */
  ghost function Nodes<D>(node: (D, D) -> D, level: seq<D>): set<D>
    decreases |level|
  {
    (set i: nat | i < |level| :: level[i]) + (if |level| <= 1 then {} else Nodes(node, NextLevel(node, level)))
  }

  lemma {:induction false} RootIsNode<D(!new)>(node: (D, D) -> D, level: seq<D>)
    requires |level| > 0
    ensures Root(node, level) in Nodes(node, level)
    decreases |level|
  {
    if |level| == 1 {
      assert level[0] in Nodes(node, level);
    } else {
      RootIsNode(node, NextLevel(node, level));
    }
  }

  /** What is in a tree and no leaf of it has its two children in the tree. */
  lemma {:induction false} NodeHasChildren<D(!new)>(node: (D, D) -> D, level: seq<D>, y: D) returns (p: (D, D))
    requires y in Nodes(node, level) && y !in level
    ensures p in Pairs(node, level) && y == node(p.0, p.1)
    ensures p.0 in Nodes(node, level) && p.1 in Nodes(node, level)
    decreases |level|
  {
    var next := NextLevel(node, level);
    if i: nat :| i < |next| && next[i] == y {
      p := PairAt(level, i);
      NextIsParent(node, level, i);
      PairsAbove(node, level, p);
      assert level[2 * i] in Nodes(node, level);
    } else {
      p := NodeHasChildren(node, next, y);
      PairsAbove(node, level, p);
    }
  }

  /** A climb along any steps that ends in a tree starts in it, unless hashed pairs collide or a leaf is a node. */
  lemma {:induction false} ClimbStartsInTree<D(!new)>(node: (D, D) -> D, level: seq<D>, steps: seq<Step<D>>, x: D)
    requires Climb(node, steps, x) in Nodes(node, level)
    requires InjectiveOn(node, Pairs(node, level) + ClimbPairs(node, steps, x))
    requires NoNode(node, ClimbPairs(node, steps, x), level)
    ensures x in Nodes(node, level)
  {
    if |steps| > 0 {
      var pair, parent := StepPair(steps[0], x), Parent(node, steps[0], x);
      FewerPairs(node, Pairs(node, level) + ClimbPairs(node, steps, x),
                 Pairs(node, level) + ClimbPairs(node, steps[1..], parent));
      ClimbStartsInTree(node, level, steps[1..], parent);
      assert parent == node(pair.0, pair.1) && pair in ClimbPairs(node, steps, x);
      var p := NodeHasChildren(node, level, parent);
      assert p == pair;
    }
  }

  /** Whatever the steps of a proof are: if it leads from a value that is no node to the root of a tree, that value is
      one of the leaves. */
  lemma ProvedLeafIsInTree<D(!new)>(node: (D, D) -> D, level: seq<D>, steps: seq<Step<D>>, x: D)
    requires |level| > 0 && Climb(node, steps, x) == Root(node, level)
    requires InjectiveOn(node, Pairs(node, level) + ClimbPairs(node, steps, x))
    requires NoNode(node, ClimbPairs(node, steps, x), level) && NoNode(node, Pairs(node, level), [x])
    ensures x in level
  {
    RootIsNode(node, level);
    ClimbStartsInTree(node, level, steps, x);
    if x !in level {
      var p := NodeHasChildren(node, level, x);
      assert false;
    }
  }
}
