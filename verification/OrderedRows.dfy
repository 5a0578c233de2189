/** Rows of a table in the order of an `order by` clause. */
module OrderedRows {

  /** `a` comes no later than `b`: smaller rank first, ties by key. */
  predicate NotAfter(rank: nat -> int, a: nat, b: nat) {
    rank(a) < rank(b) || (rank(a) == rank(b) && a <= b)
  }

  predicate IsFirst(keys: set<nat>, rank: nat -> int, k: nat) {
    k in keys && forall j :: j in keys ==> NotAfter(rank, k, j)
  }

  lemma {:induction false} FirstExists(keys: set<nat>, rank: nat -> int) returns (k: nat)
    requires keys != {}
    ensures IsFirst(keys, rank, k)
    decreases |keys|
  {
    k :| k in keys;
    var rest := keys - {k};
    if rest == {} {
      assert keys == {k};
    } else {
      var m := FirstExists(rest, rank);
      assert keys == rest + {k};
      k := if NotAfter(rank, k, m) then k else m;
    }
  }

  function First(keys: set<nat>, rank: nat -> int): (k: nat)
    requires keys != {}
    ensures IsFirst(keys, rank, k)
  {
    assert exists k :: IsFirst(keys, rank, k) by {
      var k := FirstExists(keys, rank);
    }
    var k :| IsFirst(keys, rank, k);
    k
  }

  /** All keys, sorted by rank. */
  function Sorted(keys: set<nat>, rank: nat -> int): (s: seq<nat>)
    ensures forall i :: 0 <= i < |s| ==> s[i] in keys
    decreases |keys|
  {
    if keys == {} then []
    else
      var k := First(keys, rank);
      [k] + Sorted(keys - {k}, rank)
  }

  /** Every key is listed once, none comes after one of higher rank, and equal ranks are in key order. */
  lemma {:induction false} SortedAre(keys: set<nat>, rank: nat -> int)
    ensures forall k :: k in Sorted(keys, rank) <==> k in keys
    ensures |Sorted(keys, rank)| == |keys|
    ensures forall i, j :: 0 <= i < j < |Sorted(keys, rank)| ==>
              Sorted(keys, rank)[i] != Sorted(keys, rank)[j]
              && NotAfter(rank, Sorted(keys, rank)[i], Sorted(keys, rank)[j])
    decreases |keys|
  {
    if keys != {} {
      var k := First(keys, rank);
      SortedAre(keys - {k}, rank);
    }
  }

  function Range(lo: nat, hi: nat): (s: seq<nat>)
    requires lo <= hi + 1
    ensures |s| == hi + 1 - lo
    ensures forall i :: 0 <= i < |s| ==> s[i] == lo + i
  {
    seq(hi + 1 - lo, i requires 0 <= i => lo + i)
  }

  ghost predicate IsRange(keys: set<nat>, lo: nat, hi: nat) {
    forall k: nat :: k in keys <==> lo <= k <= hi
  }

  ghost predicate Increasing(rank: nat -> int, lo: nat, hi: nat) {
    forall a: nat, b: nat :: lo <= a < b <= hi ==> rank(a) < rank(b)
  }

  /** A contiguous key range whose ranks increase is listed in key order. */
  lemma {:induction false} SortedRange(keys: set<nat>, rank: nat -> int, lo: nat, hi: nat)
    requires lo <= hi + 1
    requires IsRange(keys, lo, hi) && Increasing(rank, lo, hi)
    ensures Sorted(keys, rank) == Range(lo, hi)
    decreases hi - lo + 1
  {
    if lo <= hi {
      FirstIsLowest(keys, rank, lo, hi);
      RestIsRange(keys, rank, lo, hi);
      SortedRange(keys - {lo}, rank, lo + 1, hi);
      RangeSplits(lo, hi);
      SortedStep(keys, rank);
    } else {
      EmptyRange(keys, lo, hi);
    }
  }

  lemma RestIsRange(keys: set<nat>, rank: nat -> int, lo: nat, hi: nat)
    requires lo <= hi && IsRange(keys, lo, hi) && Increasing(rank, lo, hi)
    ensures IsRange(keys - {lo}, lo + 1, hi) && Increasing(rank, lo + 1, hi)
  {
  }

  lemma SortedStep(keys: set<nat>, rank: nat -> int)
    requires keys != {}
    ensures Sorted(keys, rank) == [First(keys, rank)] + Sorted(keys - {First(keys, rank)}, rank)
  {
  }

  lemma EmptyRange(keys: set<nat>, lo: nat, hi: nat)
    requires lo > hi && IsRange(keys, lo, hi)
    ensures keys == {}
  {
  }

  lemma RangeSplits(lo: nat, hi: nat)
    requires lo <= hi
    ensures Range(lo, hi) == [lo] + Range(lo + 1, hi)
  {
  }

  lemma FirstIsLowest(keys: set<nat>, rank: nat -> int, lo: nat, hi: nat)
    requires lo <= hi
    requires IsRange(keys, lo, hi) && Increasing(rank, lo, hi)
    ensures lo in keys && First(keys, rank) == lo
  {
    assert lo in keys;
    var k := First(keys, rank);
    assert NotAfter(rank, k, lo);
    assert k == lo || rank(lo) < rank(k);
  }

  function Negated(): nat -> int {
    k => -k
  }

  /** `max(key)`, or 0 for an empty table. */
  function Greatest(keys: set<nat>): (m: nat)
    ensures keys == {} ==> m == 0
    ensures keys != {} ==> m in keys && forall k :: k in keys ==> NotAfter(Negated(), m, k) && k <= m
  {
    if keys == {} then 0 else First(keys, Negated())
  }
}
