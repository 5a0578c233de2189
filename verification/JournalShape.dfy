/** What every reachable evidence journal looks like, and that each transaction keeps it so. */
module JournalShape {
  import opened Basics
  import opened OrderedRows
  import opened Journal

  /** The number of reservations of the session. */
  function Total(t: Tables): nat {
    Greatest(t.reservations.Keys)
  }

  /** The last mediation whose receipt is recorded. */
  function Resolved(t: Tables): nat {
    if Total(t) > 0 && Total(t) in t.reservations && t.reservations[Total(t)].state == Reserved
    then Total(t) - 1 else Total(t)
  }

  /** Reservations are exactly 1..n: finalized up to h, staged up to e, and at most one reserved after that. */
  ghost predicate RowsShape(t: Tables, h: nat, e: nat, n: nat) {
    && h <= e <= n <= e + 1
    && (forall k: nat :: k in t.reservations <==> 1 <= k <= n)
    && (forall k: nat :: 1 <= k <= n ==> t.reservations[k].state == StateAt(k, h, e))
    && (forall k: nat :: 1 <= k <= n ==> 0 < t.reservations[k].first <= t.reservations[k].last)
    && (forall j: nat, k: nat :: 1 <= j < k <= n ==> t.reservations[j].nonce != t.reservations[k].nonce)
  }

  function StateAt(k: nat, h: nat, e: nat): RowState {
    if k <= h then Finalized else if k <= e then Staged else Reserved
  }

  /** Receipts are exactly 1..e and repeat what was reserved. */
  ghost predicate ReceiptsShape(t: Tables, e: nat) {
    && (forall k: nat :: k in t.receipts <==> 1 <= k <= e)
    && (forall k: nat :: 1 <= k <= e ==>
          k in t.reservations && t.receipts[k].sequence == k
          && Matches(ReservationOf(t.receipts[k]), t.reservations[k]))
  }

  /** The staged leaves are exactly h+1..e, numbered from 0 and bound to the current head root. */
  ghost predicate LeavesShape(hash: Hash, t: Tables, h: nat, e: nat) {
    && (forall k: nat :: k in t.leaves ==> 1 <= k <= e && (t.leaves[k].batch.None? <==> h < k))
    && (forall k: nat :: h < k <= e ==> k in t.leaves && k in t.receipts && StagedLeaf(hash, t, h, k))
  }

  ghost predicate StagedLeaf(hash: Hash, t: Tables, h: nat, k: nat)
    requires k in t.leaves && k in t.receipts
  {
    && t.leaves[k].index == k - h - 1
    && t.receipts[k].outcome == Buffered
    && t.receipts[k].beforeRoot == HeadRoot(t)
    && t.leaves[k].digest == hash.leaf(t.receipts[k], t.leaves[k].index, t.leaves[k].inputDigest)
  }

  ghost predicate HeadShape(t: Tables, h: nat) {
    && HeadSequence(t) == h
    && (t.head.None? <==> h == 0)
    && (forall id :: id in t.batches ==> t.batches[id].last <= h)
  }

  ghost predicate ShapeAt(hash: Hash, t: Tables, h: nat, e: nat, n: nat) {
    RowsShape(t, h, e, n) && ReceiptsShape(t, e) && LeavesShape(hash, t, h, e) && HeadShape(t, h)
  }

  ghost predicate WellShaped(hash: Hash, t: Tables) {
    ShapeAt(hash, t, HeadSequence(t), Resolved(t), Total(t))
  }

  /** Replaying every receipt and batch in order, from the zero root, gives the stored head root. */
  ghost predicate HeadReplays(hash: Hash, t: Tables) {
    Replay(hash, t, HeadSequence(t)) == Some(HeadRoot(t))
  }

  lemma TotalIs(t: Tables, n: nat)
    requires forall k: nat :: k in t.reservations <==> 1 <= k <= n
    ensures Total(t) == n
  {
    if n > 0 {
      assert n in t.reservations.Keys;
    } else {
      assert t.reservations.Keys == {};
    }
  }

  /** The three boundaries are determined by the tables. */
  lemma ShapeIs(hash: Hash, t: Tables, h: nat, e: nat, n: nat)
    requires ShapeAt(hash, t, h, e, n)
    ensures h == HeadSequence(t) && e == Resolved(t) && n == Total(t)
    ensures WellShaped(hash, t)
  {
    TotalIs(t, n);
  }

  lemma EmptyIsWellShaped(hash: Hash)
    ensures WellShaped(hash, EMPTY)
  {
    assert ShapeAt(hash, EMPTY, 0, 0, 0);
    ShapeIs(hash, EMPTY, 0, 0, 0);
  }

  lemma EmptyReplays(hash: Hash)
    ensures HeadReplays(hash, EMPTY)
  {
  }

  // ---------- reserve ----------

  lemma ReserveKeepsShape(hash: Hash, t: Tables, r: Reservation)
    requires WellShaped(hash, t) && Reserve(t, r).Ok?
    ensures WellShaped(hash, Reserve(t, r).value)
    ensures r.sequence !in t.reservations ==>
              Resolved(t) == Total(t)
              && Total(Reserve(t, r).value) == Total(t) + 1 == r.sequence
              && Resolved(Reserve(t, r).value) == Total(t)
  {
    if r.sequence !in t.reservations {
      var h, n := HeadSequence(t), Total(t);
      var u := Reserve(t, r).value;
      assert Resolved(t) == n;
      ReserveRows(t, r, h, n);
      ReserveLeaves(hash, t, r, h, n);
      ShapeIs(hash, u, h, n, n + 1);
    }
  }

  lemma ReserveRows(t: Tables, r: Reservation, h: nat, n: nat)
    requires RowsShape(t, h, n, n) && Reserve(t, r).Ok? && r.sequence !in t.reservations
    requires n == Total(t)
    ensures RowsShape(Reserve(t, r).value, h, n, n + 1)
  {
    assert !NonceReserved(t, r.nonce);
    var u := Reserve(t, r).value;
    forall k: nat | 1 <= k <= n ensures u.reservations[k] == t.reservations[k] && t.reservations[k].nonce != r.nonce {
    }
  }

  lemma ReserveLeaves(hash: Hash, t: Tables, r: Reservation, h: nat, n: nat)
    requires ReceiptsShape(t, n) && LeavesShape(hash, t, h, n)
    requires Reserve(t, r).Ok? && r.sequence !in t.reservations
    ensures ReceiptsShape(Reserve(t, r).value, n) && LeavesShape(hash, Reserve(t, r).value, h, n)
  {
    var u := Reserve(t, r).value;
    forall k: nat | h < k <= n ensures k in u.leaves && k in u.receipts && StagedLeaf(hash, u, h, k) {
      assert StagedLeaf(hash, t, h, k);
    }
    forall k: nat | 1 <= k <= n ensures Matches(ReservationOf(u.receipts[k]), u.reservations[k]) {
      assert k in t.reservations;
    }
  }

  // ---------- append ----------

  /** Of the receipts that match the open reservation and are themselves valid, `append` takes those that
      continue the head root, provided no leaf is staged. */
  lemma AppendSucceedsIff(hash: Hash, t: Tables, c: Receipt)
    requires WellShaped(hash, t) && ValidReceipt(c) && IsReserved(t, c)
    ensures c.sequence == Total(t) == Resolved(t) + 1
    ensures Append(t, c).Ok? <==> Resolved(t) == HeadSequence(t) && c.beforeRoot == HeadRoot(t)
  {
    OpenReservationIsLast(hash, t, c.sequence);
    NothingRecordedYet(hash, t, c);
  }

  lemma OpenReservationIsLast(hash: Hash, t: Tables, k: nat)
    requires WellShaped(hash, t) && k in t.reservations && t.reservations[k].state == Reserved
    ensures k == Total(t) == Resolved(t) + 1
  {
    assert t.reservations[k].state == StateAt(k, HeadSequence(t), Resolved(t));
  }

  lemma NothingRecordedYet(hash: Hash, t: Tables, c: Receipt)
    requires WellShaped(hash, t) && IsReserved(t, c)
    ensures Recordable(t, c) && c.sequence !in t.leaves
  {
    OpenReservationIsLast(hash, t, c.sequence);
    forall k | k in t.receipts ensures t.receipts[k].nonce != c.nonce {
      assert Matches(ReservationOf(t.receipts[k]), t.reservations[k]);
    }
  }

  lemma AppendKeepsShape(hash: Hash, t: Tables, c: Receipt)
    requires WellShaped(hash, t) && Append(t, c).Ok?
    ensures WellShaped(hash, Append(t, c).value)
    ensures var u := Append(t, c).value;
            Total(u) == Resolved(u) == HeadSequence(u) == Total(t) && HeadRoot(u) == c.afterRoot
  {
    AppendSucceedsIff(hash, t, c);
    NothingRecordedYet(hash, t, c);
    var n := Total(t);
    var u := Append(t, c).value;
    RecordRows(t, u, c, HeadSequence(t), n - 1, n, Finalized);
    RecordReceipts(t, u, c, n - 1, n, Finalized);
    assert LeavesShape(hash, u, n, n);
    ShapeIs(hash, u, n, n, n);
  }

  /** Closing the last reservation keeps the reservation rows in shape. */
  lemma RecordRows(t: Tables, u: Tables, c: Receipt, h: nat, e: nat, n: nat, state: RowState)
    requires RowsShape(t, h, e, n) && n == e + 1 == c.sequence
    requires u.reservations == WithState(t, n, state)
    requires state == Staged || (state == Finalized && h == e)
    ensures RowsShape(u, if state == Staged then h else n, n, n)
  {
    forall k: nat | 1 <= k < n ensures u.reservations[k] == t.reservations[k] {
    }
    assert u.reservations[n].nonce == t.reservations[n].nonce;
  }

  lemma RecordReceipts(t: Tables, u: Tables, c: Receipt, e: nat, n: nat, state: RowState)
    requires ReceiptsShape(t, e) && n == e + 1 == c.sequence && IsReserved(t, c)
    requires u.receipts == t.receipts[n := c] && u.reservations == WithState(t, n, state)
    ensures ReceiptsShape(u, n)
  {
    forall k: nat | 1 <= k <= n
      ensures k in u.reservations && u.receipts[k].sequence == k
      ensures Matches(ReservationOf(u.receipts[k]), u.reservations[k])
    {
    }
  }

  // ---------- stage ----------

  lemma StageKeepsShape(hash: Hash, t: Tables, c: Receipt, input: Digest)
    requires WellShaped(hash, t) && Stage(hash, t, c, input).Ok?
    ensures WellShaped(hash, Stage(hash, t, c, input).value)
    ensures var u := Stage(hash, t, c, input).value;
            Total(u) == Resolved(u) == Total(t) == Resolved(t) + 1
            && HeadSequence(u) == HeadSequence(t) && HeadRoot(u) == HeadRoot(t)
            && u.leaves[Total(t)].index == Resolved(t) - HeadSequence(t)
  {
    OpenReservationIsLast(hash, t, c.sequence);
    StagedCount(hash, t);
    var h, n := HeadSequence(t), Total(t);
    var u := Stage(hash, t, c, input).value;
    StageShape(hash, t, u, c, h, n);
    ShapeIs(hash, u, h, n, n);
  }

  lemma StageShape(hash: Hash, t: Tables, u: Tables, c: Receipt, h: nat, n: nat)
    requires n > 0 && ShapeAt(hash, t, h, n - 1, n) && c.sequence == n && IsReserved(t, c)
    requires u.head == t.head && u.batches == t.batches && u.reservations == WithState(t, n, Staged)
    requires n in u.leaves && u.leaves == t.leaves[n := u.leaves[n]]
    requires u.receipts == t.receipts[n := c] && c.outcome == Buffered && c.beforeRoot == HeadRoot(t)
    requires var l := u.leaves[n];
             l.batch.None? && l.index == n - 1 - h && l.digest == hash.leaf(c, l.index, l.inputDigest)
    ensures ShapeAt(hash, u, h, n, n)
  {
    RecordRows(t, u, c, h, n - 1, n, Staged);
    RecordReceipts(t, u, c, n - 1, n, Staged);
    StageLeaves(hash, t, u, c, h, n - 1);
  }

  lemma StageLeaves(hash: Hash, t: Tables, u: Tables, c: Receipt, h: nat, e: nat)
    requires LeavesShape(hash, t, h, e) && h <= e && u.head == t.head
    requires e + 1 in u.leaves && u.leaves == t.leaves[e + 1 := u.leaves[e + 1]]
    requires u.receipts == t.receipts[e + 1 := c] && c.outcome == Buffered && c.beforeRoot == HeadRoot(t)
    requires var l := u.leaves[e + 1];
             l.batch.None? && l.index == e - h && l.digest == hash.leaf(c, l.index, l.inputDigest)
    ensures LeavesShape(hash, u, h, e + 1)
  {
    forall k: nat | h < k <= e + 1 ensures k in u.leaves && k in u.receipts && StagedLeaf(hash, u, h, k) {
      if k <= e {
        assert k in t.leaves && StagedLeaf(hash, t, h, k);
        assert u.leaves[k] == t.leaves[k] && u.receipts[k] == t.receipts[k];
      }
    }
  }

  lemma StagedCount(hash: Hash, t: Tables)
    requires WellShaped(hash, t)
    ensures |StagedKeys(t)| == Resolved(t) - HeadSequence(t)
  {
    RangeSize(StagedKeys(t), HeadSequence(t) + 1, Resolved(t));
  }

  lemma {:induction false} RangeSize(keys: set<nat>, lo: nat, hi: nat)
    requires lo <= hi + 1 && IsRange(keys, lo, hi)
    ensures |keys| == hi + 1 - lo
    decreases hi + 1 - lo
  {
    if lo > hi {
      EmptyRange(keys, lo, hi);
    } else {
      RangeSize(keys - {lo}, lo + 1, hi);
      assert lo in keys;
    }
  }

  // ---------- flush ----------

  /** The leaves a flush collects, in leaf order, are the mediations after the head. */
  lemma StagedSequencesAre(hash: Hash, t: Tables)
    requires WellShaped(hash, t)
    ensures StagedSequences(t) == Range(HeadSequence(t) + 1, Resolved(t))
  {
    var h, e := HeadSequence(t), Resolved(t);
    assert IsRange(StagedKeys(t), h + 1, e);
    forall a: nat, b: nat | h + 1 <= a < b <= e ensures LeafIndex(t)(a) < LeafIndex(t)(b) {
      assert StagedLeaf(hash, t, h, a) && StagedLeaf(hash, t, h, b);
    }
    SortedRange(StagedKeys(t), LeafIndex(t), h + 1, e);
  }

  lemma FlushKeepsShape(hash: Hash, t: Tables, digests: seq<Digest>, u: Tables)
    requires WellShaped(hash, t)
    ensures Flush(hash, t, digests) == Ok(u) ==>
              WellShaped(hash, u) && Total(u) == Total(t) && Resolved(u) == Resolved(t) == HeadSequence(u)
  {
    if Flush(hash, t, digests) == Ok(u) {
      StagedSequencesAre(hash, t);
      LastBatch(hash, t, digests);
      var h, e, n := HeadSequence(t), Resolved(t), Total(t);
      FlushShape(hash, t, u, NextBatchId(t), u.batches[NextBatchId(t)], h, e, n);
      ShapeIs(hash, u, e, e, n);
    }
  }

  /** A flush moves the head root to the hash of the old root and the Merkle root of the flushed leaves. */
  lemma FlushAdvancesRoot(hash: Hash, t: Tables, digests: seq<Digest>)
    requires WellShaped(hash, t)
    ensures Flush(hash, t, digests).Ok? ==>
              HeadRoot(Flush(hash, t, digests).value) == hash.execution(HeadRoot(t), hash.merkle(digests))
  {
    if Flush(hash, t, digests).Ok? {
      StagedSequencesAre(hash, t);
      LastBatch(hash, t, digests);
    }
  }

  lemma FlushShape(hash: Hash, t: Tables, u: Tables, id: nat, b: Batch, h: nat, e: nat, n: nat)
    requires ShapeAt(hash, t, h, e, n) && h < e
    requires u.reservations == FinalizedRows(t) && u.receipts == t.receipts && u.leaves == FlushedLeaves(t, id)
    requires u.batches == t.batches[id := b] && b.last == e && u.head == Some(Head(e, b.afterRoot))
    ensures ShapeAt(hash, u, e, e, n)
  {
    FlushRows(t, u, h, e, n);
    FlushLeaves(hash, t, u, id, h, e);
    assert HeadShape(u, e);
  }

  lemma FlushLeaves(hash: Hash, t: Tables, u: Tables, id: nat, h: nat, e: nat)
    requires LeavesShape(hash, t, h, e) && u.leaves == FlushedLeaves(t, id)
    ensures LeavesShape(hash, u, e, e)
  {
  }

  /** What a flush writes: one batch over exactly the staged mediations, and the head it leads to. */
  lemma LastBatch(hash: Hash, t: Tables, digests: seq<Digest>)
    requires Flush(hash, t, digests).Ok? && HeadSequence(t) <= Resolved(t)
    requires StagedSequences(t) == Range(HeadSequence(t) + 1, Resolved(t))
    ensures var b, u := BatchOf(hash, t), Flush(hash, t, digests).value;
            && HeadSequence(t) < Resolved(t)
            && b == Batch(HeadSequence(t) + 1, Resolved(t), Resolved(t) - HeadSequence(t), HeadRoot(t),
                          hash.merkle(digests), hash.execution(HeadRoot(t), b.batchRoot))
            && u.head == Some(Head(Resolved(t), b.afterRoot))
            && u.batches == t.batches[NextBatchId(t) := b]
  {
  }

  lemma FlushRows(t: Tables, u: Tables, h: nat, e: nat, n: nat)
    requires RowsShape(t, h, e, n) && ReceiptsShape(t, e)
    requires u.reservations == FinalizedRows(t) && u.receipts == t.receipts
    ensures RowsShape(u, e, e, n) && ReceiptsShape(u, e)
  {
    forall k: nat | 1 <= k <= n
      ensures k in t.reservations && u.reservations[k] == t.reservations[k].(state := StateAt(k, e, e))
    {
      assert k in t.reservations;
      assert t.reservations[k].state == StateAt(k, h, e);
    }
    assert forall k: nat :: k in u.reservations <==> 1 <= k <= n;
  }

  // ---------- replay ----------

  lemma ReserveReplays(hash: Hash, t: Tables, r: Reservation)
    requires HeadReplays(hash, t) && Reserve(t, r).Ok?
    ensures HeadReplays(hash, Reserve(t, r).value)
  {
    SamePastReplays(hash, t, Reserve(t, r).value);
  }

  lemma SamePastReplays(hash: Hash, t: Tables, u: Tables)
    requires HeadReplays(hash, t) && u.head == t.head
    requires u.batches == t.batches
    requires forall k: nat :: 1 <= k <= HeadSequence(t) ==> SameEntry(t, u, k)
    ensures HeadReplays(hash, u)
  {
    ReplayUnchanged(hash, t, u, HeadSequence(t));
  }

  lemma StageReplays(hash: Hash, t: Tables, c: Receipt, input: Digest)
    requires WellShaped(hash, t) && HeadReplays(hash, t) && Stage(hash, t, c, input).Ok?
    ensures HeadReplays(hash, Stage(hash, t, c, input).value)
  {
    OpenReservationIsLast(hash, t, c.sequence);
    var u := Stage(hash, t, c, input).value;
    forall k: nat | 1 <= k <= HeadSequence(t) ensures SameEntry(t, u, k) {
    }
    SamePastReplays(hash, t, u);
  }

  lemma AppendReplays(hash: Hash, t: Tables, c: Receipt)
    requires WellShaped(hash, t) && HeadReplays(hash, t) && Append(t, c).Ok?
    ensures HeadReplays(hash, Append(t, c).value)
  {
    NothingRecordedYet(hash, t, c);
    ReceiptReplays(hash, t, Append(t, c).value, c);
  }

  lemma ReceiptReplays(hash: Hash, t: Tables, u: Tables, c: Receipt)
    requires HeadReplays(hash, t)
    requires c.sequence == HeadSequence(t) + 1 && c.beforeRoot == HeadRoot(t) && c.sequence !in t.leaves
    requires u.receipts == t.receipts[c.sequence := c] && u.leaves == t.leaves && u.batches == t.batches
    requires u.head == Some(Head(c.sequence, c.afterRoot))
    ensures HeadReplays(hash, u)
  {
    var h := HeadSequence(t);
    forall k: nat | 1 <= k <= h ensures SameEntry(t, u, k) {
    }
    ReplayUnchanged(hash, t, u, h);
  }

  /** The tables before and after a flush of mediations h+1..e as batch `id`. */
  ghost predicate FlushedInto(hash: Hash, t: Tables, u: Tables, id: nat, b: Batch, digests: seq<Digest>, h: nat,
                              e: nat)
  {
    && h < e
    && (forall k: nat :: h < k <= e ==> k in t.leaves && t.leaves[k].batch.None?)
    && (forall k: nat :: h < k <= e ==> k in t.receipts && StagedLeaf(hash, t, h, k))
    && (forall k: nat :: k in t.leaves && k <= h ==> t.leaves[k].batch.Some?)
    && StagedSequences(t) == Range(h + 1, e) && StagedDigests(t) == digests
    && u.leaves == FlushedLeaves(t, id) && u.receipts == t.receipts
    && id !in t.batches && u.batches == t.batches[id := b]
    && b == Batch(h + 1, e, e - h, HeadRoot(t), hash.merkle(digests), hash.execution(HeadRoot(t), b.batchRoot))
    && u.head == Some(Head(e, b.afterRoot))
  }

  lemma FlushFacts(hash: Hash, t: Tables, digests: seq<Digest>, u: Tables)
    requires WellShaped(hash, t)
    ensures Flush(hash, t, digests) == Ok(u) ==>
              |StagedSequences(t)| > 0
              && FlushedInto(hash, t, u, NextBatchId(t), BatchOf(hash, t), digests, HeadSequence(t), Resolved(t))
  {
    if Flush(hash, t, digests) == Ok(u) {
      StagedSequencesAre(hash, t);
      LastBatch(hash, t, digests);
    }
  }

  lemma FlushReplays(hash: Hash, t: Tables, digests: seq<Digest>, u: Tables)
    requires WellShaped(hash, t) && HeadReplays(hash, t)
    ensures Flush(hash, t, digests) == Ok(u) ==> HeadReplays(hash, u)
  {
    if Flush(hash, t, digests) == Ok(u) {
      FlushFacts(hash, t, digests, u);
      FlushReplaysFrom(hash, t, u, NextBatchId(t), BatchOf(hash, t), digests, HeadSequence(t), Resolved(t));
    }
  }

  lemma FlushReplaysFrom(hash: Hash, t: Tables, u: Tables, id: nat, b: Batch, digests: seq<Digest>, h: nat, e: nat)
    requires FlushedInto(hash, t, u, id, b, digests, h, e)
    requires Replay(hash, t, h) == Some(HeadRoot(t))
    ensures HeadReplays(hash, u)
  {
    PastSurvivesFlush(hash, t, u, id, h);
    FlushedLeafDigests(hash, t, u, id, h, e, digests);
    FlushedBatchReplays(hash, u, id, b, digests, HeadRoot(t), h, e);
  }

  lemma FlushedBatchReplays(hash: Hash, u: Tables, id: nat, b: Batch, digests: seq<Digest>, root: Digest, h: nat,
                            e: nat)
    requires h < e && forall k :: h + 1 <= k <= e ==> k in u.leaves && u.leaves[k].batch == Some(id)
    requires AuditedLeaves(hash, u, id, h + 1, root, e)
    requires LeafDigests(u, h + 1, e) == digests && id in u.batches && u.batches[id] == b
    requires b == Batch(h + 1, e, e - h, root, hash.merkle(digests), hash.execution(root, b.batchRoot))
    requires u.head == Some(Head(e, b.afterRoot))
    requires Replay(hash, u, h) == Some(root)
    ensures HeadReplays(hash, u)
  {
    ReplayBatch(hash, u, id, b, h + 1, e, digests);
    HeadReplaysAt(hash, u, e, b.afterRoot);
  }

  lemma HeadReplaysAt(hash: Hash, u: Tables, e: nat, root: Digest)
    requires u.head == Some(Head(e, root)) && Replay(hash, u, e) == Some(root)
    ensures HeadReplays(hash, u)
  {
  }

  lemma PastSurvivesFlush(hash: Hash, t: Tables, u: Tables, id: nat, h: nat)
    requires Replay(hash, t, h) == Some(HeadRoot(t))
    requires u.leaves == FlushedLeaves(t, id) && u.receipts == t.receipts
    requires id !in t.batches && forall i :: i in t.batches ==> i in u.batches && u.batches[i] == t.batches[i]
    requires forall k: nat :: k in t.leaves && k <= h ==> t.leaves[k].batch.Some?
    ensures Replay(hash, u, h) == Some(HeadRoot(t))
  {
    FlushPast(t, u, id, h);
    ReplayUnchanged(hash, t, u, h);
  }

  lemma FlushPast(t: Tables, u: Tables, id: nat, h: nat)
    requires u.leaves == FlushedLeaves(t, id) && u.receipts == t.receipts
    requires id !in t.batches && forall i :: i in t.batches ==> i in u.batches && u.batches[i] == t.batches[i]
    requires forall k: nat :: k in t.leaves && k <= h ==> t.leaves[k].batch.Some?
    ensures SamePast(t, u, h)
  {
    forall k: nat | 1 <= k <= h ensures SameEntry(t, u, k) {
    }
  }

  lemma FlushedLeafDigests(hash: Hash, t: Tables, u: Tables, id: nat, h: nat, e: nat, digests: seq<Digest>)
    requires h < e && forall k: nat :: h < k <= e ==> k in t.leaves && t.leaves[k].batch.None?
    requires forall k: nat :: h < k <= e ==> k in t.receipts && StagedLeaf(hash, t, h, k)
    requires StagedSequences(t) == Range(h + 1, e) && StagedDigests(t) == digests
    requires u.leaves == FlushedLeaves(t, id) && u.receipts == t.receipts
    ensures forall k :: h + 1 <= k <= e ==> k in u.leaves && u.leaves[k].batch == Some(id)
    ensures AuditedLeaves(hash, u, id, h + 1, HeadRoot(t), e)
    ensures LeafDigests(u, h + 1, e) == digests
  {
    forall k: nat | h + 1 <= k <= e
      ensures AuditedLeaf(hash, u, id, h + 1, HeadRoot(t), k) && u.leaves[k].digest == t.leaves[k].digest
    {
      assert k in t.leaves && StagedLeaf(hash, t, h, k);
    }
  }

  lemma ReplayBatch(hash: Hash, u: Tables, id: nat, b: Batch, first: nat, e: nat, digests: seq<Digest>)
    requires e in u.leaves && u.leaves[e].batch == Some(id) && id in u.batches && u.batches[id] == b
    requires 1 <= first <= e && b.first == first && b.last == e && b.count == e + 1 - first
    requires forall k :: first <= k <= e ==> k in u.leaves && u.leaves[k].batch == Some(id)
    requires AuditedLeaves(hash, u, id, first, b.beforeRoot, e)
    requires LeafDigests(u, first, e) == digests && b.batchRoot == hash.merkle(digests)
    requires b.afterRoot == hash.execution(b.beforeRoot, b.batchRoot)
    requires Replay(hash, u, first - 1) == Some(b.beforeRoot)
    ensures Replay(hash, u, e) == Some(b.afterRoot)
  {
    assert Audits(hash, u, id, b, e);
  }
}
