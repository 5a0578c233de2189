/** How the journal answers each transaction: when it succeeds, what it then writes, and which complaint it makes first
    when it does not. */
module JournalAnswers {
  import opened Basics
  import opened OrderedRows
  import opened Journal

  ghost predicate Open(t: Tables) {
    exists k :: k in t.reservations && t.reservations[k].state == Reserved
  }

  ghost predicate Spent(t: Tables, nonce: Nonce) {
    exists k :: k in t.reservations && t.reservations[k].nonce == nonce
  }

  ghost predicate IsNext(t: Tables, n: nat) {
    n >= 1 && (forall k :: k in t.reservations ==> k < n) && (n == 1 || n - 1 in t.reservations)
  }

  /** The root the journal stands at, and after which mediation. */
  ghost predicate StandsAt(t: Tables, n: nat, root: Digest) {
    match t.head
    case None => n == 0 && root == ZERO_ROOT
    case Some(head) => n == head.sequence && root == head.root
  }

  lemma NextIs(t: Tables, n: nat)
    requires 0 !in t.reservations
    ensures n == NextSequence(t) <==> IsNext(t, n)
  {
  }

  // ---------- reserve ----------

  /** The row says what was reserved, as not yet resolved. */
  ghost predicate RowSays(row: Row, r: Reservation) {
    && row.first == r.first && row.last == r.last && row.nonce == r.nonce && row.semanticRoot == r.semanticRoot
    && row.beforeRoot == r.beforeRoot
  }

  ghost predicate Valid(r: Reservation) {
    r.sequence >= 1 && r.first >= 1 && r.first <= r.last
  }

  /** A valid reservation is accepted again if its row says the same, whatever became of it, and changes nothing then.
      A new one needs the next number, the current root, a new nonce and nothing open. */
  lemma ReserveIs(t: Tables, r: Reservation)
    requires 0 !in t.reservations
    ensures var result, n := Reserve(t, r), r.sequence;
            && (result == Err(Invalid) <==> !Valid(r))
            && (result == Err(BindingMismatch) <==> Valid(r) && n in t.reservations && !RowSays(t.reservations[n], r))
            && (Valid(r) && n in t.reservations && RowSays(t.reservations[n], r) ==> result == Ok(t))
            && (result == Err(Unresolved) <==> Valid(r) && n !in t.reservations && Open(t))
            && (result == Err(NotNext) <==> Valid(r) && n !in t.reservations && !Open(t) && !IsNext(t, n))
            && (result == Err(Fork)
                <==> Valid(r) && n !in t.reservations && !Open(t) && IsNext(t, n) && r.beforeRoot != HeadRoot(t))
            && (result == Err(Constraint)
                <==> Valid(r) && IsNext(t, n) && !Open(t) && r.beforeRoot == HeadRoot(t) && Spent(t, r.nonce))
            && (Valid(r) && IsNext(t, n) && !Open(t) && r.beforeRoot == HeadRoot(t) && !Spent(t, r.nonce) ==>
                  result.Ok? && Reserves(t, result.value, r))
  {
    NextIs(t, r.sequence);
  }

  /** One open row was added. */
  ghost predicate Reserves(t: Tables, u: Tables, r: Reservation) {
    && u.reservations.Keys == t.reservations.Keys + {r.sequence}
    && RowSays(u.reservations[r.sequence], r) && u.reservations[r.sequence].state == Reserved
    && (forall k :: k in t.reservations && k != r.sequence ==> u.reservations[k] == t.reservations[k])
    && u.receipts == t.receipts && u.leaves == t.leaves && u.batches == t.batches && u.head == t.head
  }

  // ---------- append and stage ----------

  /** A receipt is of a valid reservation, and only a committed effect moves the root. */
  ghost predicate Sound(c: Receipt) {
    c.sequence >= 1 && c.first >= 1 && c.first <= c.last && (c.afterRoot == c.beforeRoot || c.outcome.Committed?)
  }

  /** The row of the receipt is open and says the same as it. */
  ghost predicate Awaited(t: Tables, c: Receipt) {
    && c.sequence in t.reservations && t.reservations[c.sequence].state == Reserved
    && t.reservations[c.sequence].(state := Reserved)
       == Row(c.first, c.last, c.nonce, c.semanticRoot, c.beforeRoot, Reserved)
  }

  ghost predicate Unrecorded(t: Tables, c: Receipt) {
    forall k :: k in t.receipts ==> k != c.sequence && t.receipts[k].nonce != c.nonce
  }

  /** One receipt was added, and its row resolved; the other rows and receipts stay. */
  ghost predicate Resolves(t: Tables, u: Tables, c: Receipt, state: RowState)
    requires c.sequence in t.reservations
  {
    && u.receipts.Keys == t.receipts.Keys + {c.sequence} && u.receipts[c.sequence] == c
    && (forall k :: k in t.receipts && k != c.sequence ==> u.receipts[k] == t.receipts[k])
    && u.reservations.Keys == t.reservations.Keys
    && u.reservations[c.sequence] == t.reservations[c.sequence].(state := state)
    && (forall k :: k in t.reservations && k != c.sequence ==> u.reservations[k] == t.reservations[k])
    && u.batches == t.batches
  }

  /** A receipt is appended that continues the head: the next number and the current root. The head moves to it. */
  lemma AppendIs(t: Tables, c: Receipt, h: nat, root: Digest)
    requires StandsAt(t, h, root)
    ensures var result := Append(t, c);
            && (result == Err(Invalid) <==> !Sound(c))
            && (result == Err(NotReserved) <==> Sound(c) && !Awaited(t, c))
            && (result == Err(NotNext) <==> Sound(c) && Awaited(t, c) && c.sequence != h + 1)
            && (result == Err(Fork) <==> Sound(c) && Awaited(t, c) && c.sequence == h + 1 && c.beforeRoot != root)
            && (result == Err(Constraint)
                <==> Sound(c) && Awaited(t, c) && c.sequence == h + 1 && c.beforeRoot == root && !Unrecorded(t, c))
            && (result.Ok?
                <==> Sound(c) && Awaited(t, c) && c.sequence == h + 1 && c.beforeRoot == root && Unrecorded(t, c))
            && (result.Ok? ==>
                  Resolves(t, result.value, c, Finalized) && result.value.leaves == t.leaves
                  && StandsAt(result.value, c.sequence, c.afterRoot))
  {
  }

  /** The leaves that are in no batch yet. */
  ghost function Pending(t: Tables): set<nat> {
    set k | k in t.leaves && t.leaves[k].batch == None
  }

  /** A leaf is staged for a buffered effect at the current root. It is numbered behind the leaves that wait already,
      and the head stays. */
  lemma StageIs(hash: Hash, t: Tables, c: Receipt, input: Digest, h: nat, root: Digest)
    requires StandsAt(t, h, root)
    ensures var result := Stage(hash, t, c, input);
            && (result == Err(Invalid) <==> !(Sound(c) && c.outcome.Buffered?))
            && (result == Err(NotReserved) <==> Sound(c) && c.outcome.Buffered? && !Awaited(t, c))
            && (result == Err(Fork) <==> Sound(c) && c.outcome.Buffered? && Awaited(t, c) && c.beforeRoot != root)
            && (result == Err(Constraint)
                <==> Sound(c) && c.outcome.Buffered? && Awaited(t, c) && c.beforeRoot == root
                     && !(Unrecorded(t, c) && c.sequence !in t.leaves))
            && (result.Ok?
                <==> Sound(c) && c.outcome.Buffered? && Awaited(t, c) && c.beforeRoot == root && Unrecorded(t, c)
                     && c.sequence !in t.leaves)
            && (result.Ok? ==>
                  Resolves(t, result.value, c, Staged) && result.value.head == t.head
                  && AddsLeaf(hash, t, result.value, c, input))
  {
    assert Pending(t) == StagedKeys(t);
  }

  ghost predicate AddsLeaf(hash: Hash, t: Tables, u: Tables, c: Receipt, input: Digest) {
    && u.leaves.Keys == t.leaves.Keys + {c.sequence}
    && u.leaves[c.sequence].index == |Pending(t)| && u.leaves[c.sequence].inputDigest == input
    && u.leaves[c.sequence].digest == hash.leaf(c, |Pending(t)|, input) && u.leaves[c.sequence].batch == None
    && forall k :: k in t.leaves && k != c.sequence ==> u.leaves[k] == t.leaves[k]
  }

  // ---------- flush ----------

  /** `order` lists the waiting leaves once each, by index and then by mediation. */
  ghost predicate ListsPending(t: Tables, order: seq<nat>) {
    && (forall k :: k in order <==> k in Pending(t))
    && (forall i, j :: 0 <= i < j < |order| ==> order[i] != order[j] && Precedes(t, order[i], order[j]))
  }

  ghost predicate Precedes(t: Tables, a: nat, b: nat) {
    && a in t.leaves && b in t.leaves
    && (t.leaves[a].index < t.leaves[b].index || (t.leaves[a].index == t.leaves[b].index && a < b))
  }

  ghost predicate DigestsAre(t: Tables, order: seq<nat>, digests: seq<Digest>) {
    && |digests| == |order|
    && forall i :: 0 <= i < |order| ==> order[i] in t.leaves && digests[i] == t.leaves[order[i]].digest
  }

  lemma StagedAre(t: Tables)
    ensures ListsPending(t, StagedSequences(t)) && DigestsAre(t, StagedSequences(t), StagedDigests(t))
  {
    SortedAre(StagedKeys(t), LeafIndex(t));
    assert Pending(t) == StagedKeys(t);
  }

  /** A flush writes one batch over the listed leaves, from the first to the last mediation in it, between the root
      before and the root that follows from the tree over the digests. */
  ghost predicate Batches(hash: Hash, t: Tables, u: Tables, id: nat, order: seq<nat>, digests: seq<Digest>)
    requires |order| > 0
  {
    && id !in t.batches && id in u.batches && u.batches == t.batches[id := u.batches[id]]
    && u.batches[id] == Batch(order[0], order[|order| - 1], |order|, HeadRoot(t), hash.merkle(digests),
                              hash.execution(HeadRoot(t), hash.merkle(digests)))
    && StandsAt(u, order[|order| - 1], hash.execution(HeadRoot(t), hash.merkle(digests)))
    && u.receipts == t.receipts
    && u.leaves.Keys == t.leaves.Keys
    && (forall k :: k in t.leaves ==>
          u.leaves[k] == if k in Pending(t) then t.leaves[k].(batch := Some(id)) else t.leaves[k])
    && u.reservations.Keys == t.reservations.Keys
    && (forall k :: k in t.reservations ==>
          u.reservations[k] == if t.reservations[k].state == Staged then t.reservations[k].(state := Finalized)
                               else t.reservations[k])
  }

  /** It is accepted exactly for the digests of all leaves that wait, in order, and only if there are any. */
  lemma FlushIs(hash: Hash, t: Tables, digests: seq<Digest>) returns (order: seq<nat>)
    ensures ListsPending(t, order)
    ensures Flush(hash, t, digests).Ok? <==> order != [] && DigestsAre(t, order, digests)
    ensures Flush(hash, t, digests).Err? ==> Flush(hash, t, digests) == Err(LeafMismatch)
    ensures Flush(hash, t, digests).Ok? ==>
              Batches(hash, t, Flush(hash, t, digests).value, NextBatchId(t), order, digests)
  {
    order := StagedSequences(t);
    StagedAre(t);
    if DigestsAre(t, order, digests) {
      assert digests == StagedDigests(t);
    }
  }

  // ---------- reconciliation ----------

  /** `order` lists the mediations in increasing order. */
  ghost predicate ListsRows(t: Tables, order: seq<nat>) {
    && (forall k :: k in order <==> k in t.reservations)
    && (forall i, j :: 0 <= i < j < |order| ==> order[i] < order[j])
  }

  /** What is reported of a history with reservations: one semantic root for all, the current root, the last mediation
      and its last event, every nonce in mediation order, and the waiting leaves. */
  ghost predicate Reports(t: Tables, r: Reconciliation, order: seq<nat>, waiting: seq<nat>) {
    && order != [] && (forall k :: k in t.reservations ==> t.reservations[k].semanticRoot == r.semanticRoot)
    && r.executionRoot == HeadRoot(t) && r.mediationSequence == order[|order| - 1]
    && r.mediationSequence in t.reservations && r.runtimeSequence == t.reservations[r.mediationSequence].last
    && |r.nonces| == |order|
    && (forall i :: 0 <= i < |order| ==> order[i] in t.reservations && r.nonces[i] == t.reservations[order[i]].nonce)
    && r.stagedSequences == waiting && DigestsAre(t, waiting, r.stagedDigests)
  }

  lemma ReconcileIs(t: Tables) returns (order: seq<nat>, waiting: seq<nat>)
    ensures ListsRows(t, order) && ListsPending(t, waiting)
    ensures match Reconcile(t)
            case Ok(None) => order == []
            case Ok(Some(r)) => Reports(t, r, order, waiting)
            case Err(e) =>
              e == SemanticChange
              && exists j, k :: j in t.reservations && k in t.reservations
                                && t.reservations[j].semanticRoot != t.reservations[k].semanticRoot
  {
    order, waiting := ReservedSequences(t), StagedSequences(t);
    StagedAre(t);
    SortedAre(t.reservations.Keys, k => k);
    if Reconcile(t).Ok? && Reconcile(t).value.Some? {
      assert order[0] in t.reservations;
    }
  }
}
