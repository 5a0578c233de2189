/** The root of a Merkle tree by halves: whatever its size, it is the root of the complete tree it fills up to, which
    joins the roots of the left and the right half. */
module TreeHalves {
  import opened Basics
  import opened BitArithmetic
  import opened Merkle
  import opened CompleteTree

  /** The root of a complete tree joins the roots of its halves, the left one first. */
  function Balanced<D>(node: (D, D) -> D, s: seq<D>, depth: nat): D
    requires |s| == Pow(2, depth)
  {
    if depth == 0 then s[0]
    else
      var half := Pow(2, depth - 1);
      node(Balanced(node, s[..half], depth - 1), Balanced(node, s[half..], depth - 1))
  }

  /** The level above a sequence is made of the levels above its two parts, if the first has an even length. */
  lemma NextOfParts<D>(node: (D, D) -> D, s: seq<D>, quarter: nat)
    requires |s| == 4 * quarter && quarter > 0
    ensures |NextLevel(node, s)| == 2 * quarter
    ensures NextLevel(node, s)[..quarter] == NextLevel(node, s[..2 * quarter])
    ensures NextLevel(node, s)[quarter..] == NextLevel(node, s[2 * quarter..])
  {
  }

  /** It is also the root of the level above. */
  lemma {:induction false} BalancedByLevels<D>(node: (D, D) -> D, s: seq<D>, depth: nat)
    requires depth > 0 && |s| == Pow(2, depth)
    ensures |NextLevel(node, s)| == Pow(2, depth - 1)
    ensures Balanced(node, s, depth) == Balanced(node, NextLevel(node, s), depth - 1)
  {
    if depth > 1 {
      var half, quarter := Pow(2, depth - 1), Pow(2, depth - 2);
      PowPositive(depth - 2);
      BalancedByLevels(node, s[..half], depth - 1);
      BalancedByLevels(node, s[half..], depth - 1);
      NextOfParts(node, s, quarter);
    }
  }

  /** Node `j` joins the two below it. */
  ghost predicate Joins<D>(node: (D, D) -> D, above: seq<D>, s: seq<D>, j: nat) {
    j < |above| && 2 * j + 1 < |s| && above[j] == node(s[2 * j], s[2 * j + 1])
  }

  lemma PairsMakeLevel<D>(node: (D, D) -> D, above: seq<D>, s: seq<D>)
    requires |s| == 2 * |above| && forall j: nat :: j < |above| ==> Joins(node, above, s, j)
    ensures above == NextLevel(node, s)
  {
    forall j: nat | j < |above| ensures above[j] == NextLevel(node, s)[j] {
      assert Joins(node, above, s, j);
    }
  }

  lemma FilledJoins<D>(node: (D, D) -> D, level: seq<D>, j: nat)
    requires |level| > 1 && |NextLevel(node, level)| > 0 && j < |Filled(NextLevel(node, level))|
    ensures Joins(node, Filled(NextLevel(node, level)), Filled(level), j)
  {
    ParentOfPositions(node, level, j);
  }

  lemma OneLevel<D>(node: (D, D) -> D, above: seq<D>, s: seq<D>, depth: nat)
    requires |s| == 2 * |above| == Pow(2, depth + 1)
    requires forall j: nat :: j < |above| ==> Joins(node, above, s, j)
    ensures |above| == Pow(2, depth) && Balanced(node, above, depth) == Balanced(node, s, depth + 1)
  {
    PairsMakeLevel(node, above, s);
    BalancedByLevels(node, s, depth + 1);
  }

  /** The root of any tree is that of the complete tree it fills up to. */
  lemma {:induction false} RootIsBalanced<D>(node: (D, D) -> D, level: seq<D>)
    requires |level| > 0
    ensures Root(node, level) == Balanced(node, Filled(level), Depth(|level|))
    decreases |level|
  {
    if |level| > 1 {
      var next := NextLevel(node, level);
      Shrinks(node, level);
      RootIsBalanced(node, next);
      var above, s := Filled(next), Filled(level);
      forall j: nat | j < |above| ensures Joins(node, above, s, j) {
        FilledJoins(node, level, j);
      }
      OneLevel(node, above, s, Depth(|next|));
    } else {
      FilledOne(level);
    }
  }

  // ---------- proofs ----------

  /** Where the climb stands it is the left or the right child, by its direction, and the next node joins both in this
      order. */
  lemma ClimbIs<D>(node: (D, D) -> D, sibling: D, rest: seq<Step<D>>, current: D)
    ensures Climb(node, [], current) == current
    ensures Climb(node, [Step(Left, sibling)] + rest, current) == Climb(node, rest, node(sibling, current))
    ensures Climb(node, [Step(Right, sibling)] + rest, current) == Climb(node, rest, node(current, sibling))
  {
    assert ([Step(Left, sibling)] + rest)[1..] == rest && ([Step(Right, sibling)] + rest)[1..] == rest;
  }

  /** A proof begins with the node that is joined with this one: before it for an odd position, after it for an even
      one, or the node itself at the end of an odd level. It goes on one level up at half the position. */
  lemma ProofIs<D>(node: (D, D) -> D, level: seq<D>, cursor: nat)
    requires cursor < |level|
    ensures |level| == 1 ==> ProofSteps(node, level, cursor) == []
    ensures |level| > 1 ==>
              var steps := ProofSteps(node, level, cursor);
              && |steps| > 0 && cursor / 2 < |NextLevel(node, level)|
              && steps[0] == (if cursor % 2 == 1 then Step(Left, level[cursor - 1])
                              else if cursor + 1 < |level| then Step(Right, level[cursor + 1])
                              else Step(Right, level[cursor]))
              && steps[1..] == ProofSteps(node, NextLevel(node, level), cursor / 2)
  {
  }
}
