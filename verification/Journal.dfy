/** The durable evidence journal of one session: its tables and the transactions that change them.
    Rows are kept per session because every statement of the store names one session.
    A transaction is a function from tables to the new tables or to an error that leaves them as they were. */
module Journal {
  import opened Basics
  import opened OrderedRows
  import Merkle

  datatype Outcome = Committed | Buffered | Indeterminate

  datatype Reservation = Reservation(
    sequence: nat, first: nat, last: nat, nonce: Nonce, semanticRoot: Digest, beforeRoot: Digest)

  datatype Receipt = Receipt(
    sequence: nat, first: nat, last: nat, nonce: Nonce, semanticRoot: Digest, beforeRoot: Digest,
    afterRoot: Digest, outcome: Outcome, observation: Digest)

  datatype RowState = Reserved | Staged | Finalized

  datatype Row = Row(
    first: nat, last: nat, nonce: Nonce, semanticRoot: Digest, beforeRoot: Digest, state: RowState)

  /** A leaf is staged until a batch is recorded for it. */
  datatype LeafRow = LeafRow(index: nat, inputDigest: Digest, digest: Digest, batch: Option<nat>)

  datatype Batch = Batch(first: nat, last: nat, count: nat, beforeRoot: Digest, batchRoot: Digest, afterRoot: Digest)

  datatype Head = Head(sequence: nat, root: Digest)

  datatype Tables = Tables(
    reservations: map<nat, Row>, receipts: map<nat, Receipt>, leaves: map<nat, LeafRow>,
    batches: map<nat, Batch>, head: Option<Head>)

  const EMPTY := Tables(map[], map[], map[], map[], None)

  /** The digests the journal computes; nothing is assumed about them. */
  datatype Hash = Hash(
    receipt: Receipt -> Digest,
    leaf: (Receipt, nat, Digest) -> Digest,
    merkle: seq<Digest> -> Digest,
    execution: (Digest, Digest) -> Digest)

  /** The hashes in use when tree nodes are hashed by `node`. */
  function MerkleHash(receipt: Receipt -> Digest, leaf: (Receipt, nat, Digest) -> Digest,
                      node: (Digest, Digest) -> Digest, execution: (Digest, Digest) -> Digest): Hash
  {
    Hash(receipt, leaf, d => if |d| == 0 then ZERO_ROOT else Merkle.Root(node, d), execution)
  }

  datatype Error =
    | Invalid | BindingMismatch | Unresolved | NotNext | Fork | NotReserved | LeafMismatch
    | Constraint | SemanticChange | Driver

  // ---------- queries ----------

  function HeadRoot(t: Tables): Digest {
    if t.head.None? then ZERO_ROOT else t.head.value.root
  }

  function HeadSequence(t: Tables): nat {
    if t.head.None? then 0 else t.head.value.sequence
  }

  function NextSequence(t: Tables): nat {
    Greatest(t.reservations.Keys) + 1
  }

  predicate HasUnresolved(t: Tables) {
    exists k :: k in t.reservations && t.reservations[k].state == Reserved
  }

  predicate NonceReserved(t: Tables, nonce: Nonce) {
    exists k :: k in t.reservations && t.reservations[k].nonce == nonce
  }

  predicate NonceRecorded(t: Tables, nonce: Nonce) {
    exists k :: k in t.receipts && t.receipts[k].nonce == nonce
  }

  predicate Matches(r: Reservation, row: Row) {
    r.first == row.first && r.last == row.last && r.nonce == row.nonce
    && r.semanticRoot == row.semanticRoot && r.beforeRoot == row.beforeRoot
  }

  function ReservationOf(c: Receipt): Reservation {
    Reservation(c.sequence, c.first, c.last, c.nonce, c.semanticRoot, c.beforeRoot)
  }

  function StagedKeys(t: Tables): set<nat> {
    set k | k in t.leaves && t.leaves[k].batch.None?
  }

  function LeafIndex(t: Tables): nat -> int {
    (k: nat) => if k in t.leaves then t.leaves[k].index else 0
  }

  /** Mediation sequences of the staged leaves, by leaf index. */
  function StagedSequences(t: Tables): (s: seq<nat>)
    ensures forall i :: 0 <= i < |s| ==> s[i] in t.leaves
  {
    Sorted(StagedKeys(t), LeafIndex(t))
  }

  function DigestsOf(t: Tables, s: seq<nat>): (d: seq<Digest>)
    requires forall i :: 0 <= i < |s| ==> s[i] in t.leaves
    ensures |d| == |s|
  {
    seq(|s|, i requires 0 <= i < |s| => t.leaves[s[i]].digest)
  }

  function StagedDigests(t: Tables): (d: seq<Digest>)
    ensures |d| == |StagedSequences(t)|
  {
    DigestsOf(t, StagedSequences(t))
  }

  // ---------- transactions ----------

  predicate ValidReservation(r: Reservation) {
    r.sequence > 0 && 0 < r.first <= r.last
  }

  predicate ValidReceipt(c: Receipt) {
    c.sequence > 0 && 0 < c.first <= c.last
    && (c.outcome != Committed ==> c.afterRoot == c.beforeRoot)
  }

  function RowOf(r: Reservation): Row {
    Row(r.first, r.last, r.nonce, r.semanticRoot, r.beforeRoot, Reserved)
  }

  function Reserve(t: Tables, r: Reservation): Result<Tables, Error> {
    if !ValidReservation(r) then Err(Invalid)
    else if r.sequence in t.reservations then
      if Matches(r, t.reservations[r.sequence]) then Ok(t) else Err(BindingMismatch)
    else if HasUnresolved(t) then Err(Unresolved)
    else if r.sequence != NextSequence(t) then Err(NotNext)
    else if r.beforeRoot != HeadRoot(t) then Err(Fork)
    else if NonceReserved(t, r.nonce) then Err(Constraint)
    else Ok(t.(reservations := t.reservations[r.sequence := RowOf(r)]))
  }

  predicate IsReserved(t: Tables, c: Receipt) {
    c.sequence in t.reservations && t.reservations[c.sequence].state == Reserved
    && Matches(ReservationOf(c), t.reservations[c.sequence])
  }

  function WithState(t: Tables, sequence: nat, state: RowState): map<nat, Row>
    requires sequence in t.reservations
  {
    t.reservations[sequence := t.reservations[sequence].(state := state)]
  }

  predicate Recordable(t: Tables, c: Receipt) {
    c.sequence !in t.receipts && !NonceRecorded(t, c.nonce)
  }

  function Append(t: Tables, c: Receipt): Result<Tables, Error> {
    if !ValidReceipt(c) then Err(Invalid)
    else if !IsReserved(t, c) then Err(NotReserved)
    else if c.sequence != HeadSequence(t) + 1 then Err(NotNext)
    else if c.beforeRoot != HeadRoot(t) then Err(Fork)
    else if !Recordable(t, c) then Err(Constraint)
    else Ok(t.(receipts := t.receipts[c.sequence := c],
               reservations := WithState(t, c.sequence, Finalized),
               head := Some(Head(c.sequence, c.afterRoot))))
  }

  function Stage(hash: Hash, t: Tables, c: Receipt, inputDigest: Digest): Result<Tables, Error> {
    if !ValidReceipt(c) || c.outcome != Buffered then Err(Invalid)
    else if !IsReserved(t, c) then Err(NotReserved)
    else if c.beforeRoot != HeadRoot(t) then Err(Fork)
    else if !Recordable(t, c) || c.sequence in t.leaves then Err(Constraint)
    else
      var index := |StagedKeys(t)|;
      Ok(t.(receipts := t.receipts[c.sequence := c],
            leaves := t.leaves[c.sequence := LeafRow(index, inputDigest, hash.leaf(c, index, inputDigest), None)],
            reservations := WithState(t, c.sequence, Staged)))
  }

  function BatchOf(hash: Hash, t: Tables): Batch
    requires |StagedSequences(t)| > 0
  {
    var s, d := StagedSequences(t), StagedDigests(t);
    var root := hash.merkle(d);
    Batch(s[0], s[|s| - 1], |s|, HeadRoot(t), root, hash.execution(HeadRoot(t), root))
  }

  function NextBatchId(t: Tables): nat {
    Greatest(t.batches.Keys) + 1
  }

  function FlushedLeaves(t: Tables, id: nat): map<nat, LeafRow> {
    map k | k in t.leaves :: if t.leaves[k].batch.None? then t.leaves[k].(batch := Some(id)) else t.leaves[k]
  }

  function FinalizedRows(t: Tables): map<nat, Row> {
    map k | k in t.reservations ::
      if t.reservations[k].state == Staged then t.reservations[k].(state := Finalized) else t.reservations[k]
  }

  function Flush(hash: Hash, t: Tables, digests: seq<Digest>): Result<Tables, Error> {
    if |StagedSequences(t)| == 0 || StagedDigests(t) != digests then Err(LeafMismatch)
    else
      var b := BatchOf(hash, t);
      Ok(Tables(FinalizedRows(t), t.receipts, FlushedLeaves(t, NextBatchId(t)),
                t.batches[NextBatchId(t) := b], Some(Head(b.last, b.afterRoot))))
  }

  // ---------- reconciliation ----------

  datatype Reconciliation = Reconciliation(
    semanticRoot: Digest, executionRoot: Digest, mediationSequence: nat, runtimeSequence: nat,
    nonces: seq<Nonce>, stagedSequences: seq<nat>, stagedDigests: seq<Digest>)

  function ReservedSequences(t: Tables): (s: seq<nat>)
    ensures forall i :: 0 <= i < |s| ==> s[i] in t.reservations
  {
    Sorted(t.reservations.Keys, k => k)
  }

  predicate SemanticRootChanges(t: Tables, root: Digest) {
    exists k :: k in t.reservations && t.reservations[k].semanticRoot != root
  }

  function NoncesOf(t: Tables, s: seq<nat>): (n: seq<Nonce>)
    requires forall i :: 0 <= i < |s| ==> s[i] in t.reservations
    ensures |n| == |s|
  {
    seq(|s|, i requires 0 <= i < |s| => t.reservations[s[i]].nonce)
  }

  function ReservedNonces(t: Tables): (n: seq<Nonce>)
    ensures |n| == |ReservedSequences(t)|
  {
    NoncesOf(t, ReservedSequences(t))
  }

  function Reconcile(t: Tables): Result<Option<Reconciliation>, Error> {
    var s := ReservedSequences(t);
    if |s| == 0 then Ok(None)
    else if SemanticRootChanges(t, t.reservations[s[0]].semanticRoot) then Err(SemanticChange)
    else
      Ok(Some(Reconciliation(
        t.reservations[s[0]].semanticRoot, HeadRoot(t), s[|s| - 1], t.reservations[s[|s| - 1]].last,
        ReservedNonces(t), StagedSequences(t), StagedDigests(t))))
  }

  // ---------- replay ----------

  /** Digests of the leaves of a run of mediation sequences, where each has a leaf. */
  ghost function LeafDigests(t: Tables, first: nat, last: nat): seq<Digest>
    requires first <= last
    requires forall k :: first <= k <= last ==> k in t.leaves
  {
    seq(last + 1 - first, i requires 0 <= i < last + 1 - first => t.leaves[first + i].digest)
  }

  /** Is this leaf in place in its batch, and made from the receipt of a buffered effect that started at the batch's
      root? */
  ghost predicate AuditedLeaf(hash: Hash, t: Tables, id: nat, first: nat, root: Digest, k: nat) {
    && first <= k && k in t.leaves && k in t.receipts
    && t.leaves[k].batch == Some(id) && t.leaves[k].index == k - first
    && t.receipts[k].outcome == Buffered && t.receipts[k].beforeRoot == root
    && t.leaves[k].digest == hash.leaf(t.receipts[k], k - first, t.leaves[k].inputDigest)
  }

  ghost predicate AuditedLeaves(hash: Hash, t: Tables, id: nat, first: nat, root: Digest, last: nat) {
    forall k: nat :: first <= k <= last ==> AuditedLeaf(hash, t, id, first, root, k)
  }

  /** Does the batch record what its own leaves hash to, and the leaves what their receipts hash to? */
  ghost predicate Audits(hash: Hash, t: Tables, id: nat, b: Batch, n: nat) {
    && 1 <= b.first <= b.last == n
    && b.count == n + 1 - b.first
    && (forall k :: b.first <= k <= n ==> k in t.leaves && t.leaves[k].batch == Some(id))
    && AuditedLeaves(hash, t, id, b.first, b.beforeRoot, n)
    && b.batchRoot == hash.merkle(LeafDigests(t, b.first, n))
    && b.afterRoot == hash.execution(b.beforeRoot, b.batchRoot)
  }

  /** The execution root reached by replaying receipts and batches in order up to mediation `n`, starting from
      the zero root. None if something is missing or does not continue from the root reached before it. */
  ghost function Replay(hash: Hash, t: Tables, n: nat): Option<Digest>
    decreases n
  {
    if n == 0 then Some(ZERO_ROOT)
    else if n in t.leaves then
      match t.leaves[n].batch {
        case None => None
        case Some(id) =>
          if id !in t.batches then None
          else if !Audits(hash, t, id, t.batches[id], n) then None
          else if Replay(hash, t, t.batches[id].first - 1) != Some(t.batches[id].beforeRoot) then None
          else Some(t.batches[id].afterRoot)
      }
    else if n in t.receipts && Replay(hash, t, n - 1) == Some(t.receipts[n].beforeRoot)
    then Some(t.receipts[n].afterRoot)
    else None
  }

  /** The two journals agree on everything recorded up to mediation `n`. */
  ghost predicate SamePast(t: Tables, u: Tables, n: nat) {
    && (forall k: nat :: 1 <= k <= n ==> SameEntry(t, u, k))
    && (forall id :: id in t.batches && t.batches[id].last <= n ==> id in u.batches && u.batches[id] == t.batches[id])
  }

  ghost predicate SameEntry(t: Tables, u: Tables, k: nat) {
    && (k in t.leaves <==> k in u.leaves)
    && (k in t.receipts <==> k in u.receipts)
    && (k in t.leaves ==> t.leaves[k] == u.leaves[k])
    && (k in t.receipts ==> t.receipts[k] == u.receipts[k])
  }

  lemma AuditsUnchanged(hash: Hash, t: Tables, u: Tables, id: nat, b: Batch, n: nat)
    requires SamePast(t, u, n)
    requires Audits(hash, t, id, b, n)
    ensures Audits(hash, u, id, b, n)
  {
    forall k: nat | b.first <= k <= n
      ensures k in u.leaves && u.leaves[k] == t.leaves[k] && AuditedLeaf(hash, u, id, b.first, b.beforeRoot, k)
    {
      assert SameEntry(t, u, k) && AuditedLeaf(hash, t, id, b.first, b.beforeRoot, k);
    }
    assert LeafDigests(t, b.first, n) == LeafDigests(u, b.first, n);
  }

  lemma SamePastShorter(t: Tables, u: Tables, n: nat, m: nat)
    requires SamePast(t, u, n) && m <= n
    ensures SamePast(t, u, m)
  {
  }

  /** A replay that succeeds up to `n` does not look at anything recorded later. */
  lemma {:induction false} ReplayUnchanged(hash: Hash, t: Tables, u: Tables, n: nat)
    requires SamePast(t, u, n) && Replay(hash, t, n).Some?
    ensures Replay(hash, u, n) == Replay(hash, t, n)
    decreases n
  {
    if n > 0 {
      assert SameEntry(t, u, n);
      if n in t.leaves {
        var id := t.leaves[n].batch.value;
        var b := t.batches[id];
        AuditsUnchanged(hash, t, u, id, b, n);
        SamePastShorter(t, u, n, b.first - 1);
        ReplayUnchanged(hash, t, u, b.first - 1);
      } else {
        SamePastShorter(t, u, n, n - 1);
        ReplayUnchanged(hash, t, u, n - 1);
      }
    }
  }
}
