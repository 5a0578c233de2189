/** The evidence half of a kernel session, as values: what a mediated effect, a flush and a reconciliation
    do to the execution root, the consumed nonces, the mediation sequence and the staged leaves. */
module Mediation {
  import opened Basics
  import opened RuntimeStatus
  import J = Journal

  const MAX_CONSUMED_NONCES: nat := 1024
  const MAX_STAGED_LEAVES: nat := 1024

  /** Outcomes as an adapter reports them on the wire. */
  const WIRE_COMMITTED: nat := 1
  const WIRE_INDETERMINATE: nat := 4

  datatype StagedLeaf = StagedLeaf(sequence: nat, digest: Digest)

  datatype Evidence = Evidence(
    executionRoot: Digest, semanticRoot: Option<Digest>, sequence: nat, nonces: set<Nonce>, staged: seq<StagedLeaf>)

  const FRESH := Evidence(ZERO_ROOT, None, 0, {}, [])

  datatype Durability = Strict | Batched | Diagnostic | Unknown

  /** The part of a mediation request that the token binds. */
  datatype Request = Request(
    durability: Durability, first: nat, last: nat, nonce: Nonce, semanticRoot: Digest, beforeRoot: Digest)

  /** What the effect adapter returns; `wellFormed` says that size and reserved fields are right. */
  datatype AdapterAnswer = AdapterAnswer(
    status: Status, wellFormed: bool, resultStatus: Status, outcome: nat, input: Digest, observation: Digest)

  /** What the evidence sink returns from finalize. */
  datatype EvidenceAnswer = EvidenceAnswer(status: Status, wellFormed: bool, afterRoot: Digest, digest: Digest)

  /** What the evidence sink returns from flush. */
  datatype FlushAnswer = FlushAnswer(status: Status, wellFormed: bool, afterRoot: Digest, batchRoot: Digest)

  // ---------- admission ----------

  function AdmitDurability(ev: Evidence, durability: Durability, batchedCapable: bool, flushable: bool): Status {
    match durability
    case Diagnostic => DIAGNOSTIC_CANNOT_EXECUTE
    case Unknown => TOKEN_BINDING_MISMATCH
    case Strict => OK
    case Batched =>
      if !batchedCapable then UNSUPPORTED_CAPABILITY
      else if !flushable then MALFORMED_DESCRIPTOR
      else if |ev.staged| >= MAX_STAGED_LEAVES then OUTSTANDING_WORK
      else OK
  }

  /** Strict effects are always admitted; batched ones in a session that may batch, over a sink that can flush, while
      fewer than 1024 leaves are staged. */
  ghost predicate Durable(ev: Evidence, durability: Durability, batchedCapable: bool, flushable: bool) {
    durability.Strict? || (durability.Batched? && batchedCapable && flushable && |ev.staged| < 1024)
  }

  lemma DurabilityIs(ev: Evidence, durability: Durability, batchedCapable: bool, flushable: bool)
    ensures AdmitDurability(ev, durability, batchedCapable, flushable) == OK
       <==> Durable(ev, durability, batchedCapable, flushable)
    ensures AdmitDurability(ev, durability, batchedCapable, flushable) == DIAGNOSTIC_CANNOT_EXECUTE
       <==> durability.Diagnostic?
    ensures AdmitDurability(ev, durability, batchedCapable, flushable) == TOKEN_BINDING_MISMATCH
       <==> durability.Unknown?
    ensures AdmitDurability(ev, durability, batchedCapable, flushable) == UNSUPPORTED_CAPABILITY
       <==> durability.Batched? && !batchedCapable
    ensures AdmitDurability(ev, durability, batchedCapable, flushable) == MALFORMED_DESCRIPTOR
       <==> durability.Batched? && batchedCapable && !flushable
    ensures AdmitDurability(ev, durability, batchedCapable, flushable) == OUTSTANDING_WORK
       <==> durability.Batched? && batchedCapable && flushable && |ev.staged| >= 1024
  {
  }

  function AdmitToken(ev: Evidence, r: Request): Status {
    if ev.executionRoot != r.beforeRoot then EXECUTION_ROOT_FORK
    else if ev.semanticRoot.Some? && ev.semanticRoot.value != r.semanticRoot then TOKEN_BINDING_MISMATCH
    else if r.nonce in ev.nonces then TOKEN_REPLAY
    else if |ev.nonces| >= MAX_CONSUMED_NONCES then OUTSTANDING_WORK
    else OK
  }

  /** Of an admitted token the root is the session's, the semantic root the one it is bound to, if it is bound, and the
      nonce a new one with room for it; the first of these that fails decides the status. */
  lemma TokenIs(ev: Evidence, r: Request)
    ensures AdmitToken(ev, r) == EXECUTION_ROOT_FORK <==> r.beforeRoot != ev.executionRoot
    ensures AdmitToken(ev, r) == TOKEN_BINDING_MISMATCH
       <==> r.beforeRoot == ev.executionRoot && ev.semanticRoot !in {None, Some(r.semanticRoot)}
    ensures AdmitToken(ev, r) == TOKEN_REPLAY
       <==> r.beforeRoot == ev.executionRoot && ev.semanticRoot in {None, Some(r.semanticRoot)} && r.nonce in ev.nonces
    ensures AdmitToken(ev, r) == OK
       <==> r.beforeRoot == ev.executionRoot && ev.semanticRoot in {None, Some(r.semanticRoot)}
            && r.nonce !in ev.nonces && |ev.nonces| < 1024
    ensures AdmitToken(ev, r) in {EXECUTION_ROOT_FORK, TOKEN_BINDING_MISMATCH, TOKEN_REPLAY, OK, OUTSTANDING_WORK}
  {
  }

  function ReservationFor(ev: Evidence, r: Request): J.Reservation {
    J.Reservation(ev.sequence + 1, r.first, r.last, r.nonce, r.semanticRoot, r.beforeRoot)
  }

  /** The nonce is spent, and the semantic root bound, before the adapter runs. */
  function Consume(ev: Evidence, r: Request): Evidence {
    ev.(semanticRoot := if ev.semanticRoot.None? then Some(r.semanticRoot) else ev.semanticRoot,
        nonces := ev.nonces + {r.nonce})
  }

  // ---------- outcome ----------

  function AdapterStatus(a: AdapterAnswer): Status {
    if a.status != OK then a.status
    else if !a.wellFormed || a.resultStatus != OK
            || (a.outcome != WIRE_COMMITTED && a.outcome != WIRE_INDETERMINATE) then MALFORMED_DESCRIPTOR
    else OK
  }

  /** An effect is committed only if the adapter says so without any irregularity. */
  function OutcomeOf(a: AdapterAnswer, durability: Durability): J.Outcome {
    if a.status == OK && a.wellFormed && a.resultStatus == OK && a.outcome == WIRE_COMMITTED then
      if durability == Batched then J.Buffered else J.Committed
    else J.Indeterminate
  }

  /** The adapter answers, in a well-formed result, that the effect is committed. */
  ghost predicate Confirmed(a: AdapterAnswer) {
    a.status == 0 && a.wellFormed && a.resultStatus == 0 && a.outcome == 1
  }

  /** Anything but a confirmed effect is indeterminate; a confirmed one is buffered exactly if it is batched. */
  ghost predicate CallsFor(a: AdapterAnswer, durability: Durability, outcome: J.Outcome) {
    match outcome
    case Buffered => Confirmed(a) && durability.Batched?
    case Committed => Confirmed(a) && !durability.Batched?
    case Indeterminate => !Confirmed(a)
  }

  lemma OutcomeIs(a: AdapterAnswer, durability: Durability, outcome: J.Outcome)
    ensures OutcomeOf(a, durability) == outcome <==> CallsFor(a, durability, outcome)
  {
  }

  /** The adapter's own failure is passed on; otherwise a result that is neither a confirmation nor a well-formed
      indeterminate one is malformed. */
  lemma AdapterStatusIs(a: AdapterAnswer)
    ensures a.status != 0 ==> AdapterStatus(a) == a.status
    ensures a.status == 0 ==> AdapterStatus(a) in {OK, MALFORMED_DESCRIPTOR}
    ensures AdapterStatus(a) == OK <==> a.status == 0 && a.wellFormed && a.resultStatus == 0 && a.outcome in {1, 4}
  {
  }

  predicate Accepts(r: Request, outcome: J.Outcome, e: EvidenceAnswer) {
    e.status == OK && e.wellFormed && (outcome != J.Committed ==> e.afterRoot == r.beforeRoot)
  }

  function EvidenceStatus(r: Request, outcome: J.Outcome, e: EvidenceAnswer): Status {
    if Accepts(r, outcome, e) then OK
    else if e.status != OK then e.status
    else if !e.wellFormed then MALFORMED_DESCRIPTOR
    else TOKEN_BINDING_MISMATCH
  }

  /** Evidence is accepted exactly if the sink succeeded and moved the root for a committed effect only; the sink's own
      failure is passed on, and a root moved without a commitment is a mismatch. */
  lemma EvidenceStatusIs(r: Request, outcome: J.Outcome, e: EvidenceAnswer)
    ensures EvidenceStatus(r, outcome, e) == OK
       <==> e.status == 0 && e.wellFormed && (e.afterRoot == r.beforeRoot || outcome.Committed?)
    ensures e.status != 0 ==> EvidenceStatus(r, outcome, e) == e.status
    ensures e.status == 0 && !e.wellFormed ==> EvidenceStatus(r, outcome, e) == MALFORMED_DESCRIPTOR
    ensures e.status == 0 && e.wellFormed && e.afterRoot != r.beforeRoot && !outcome.Committed? ==>
              EvidenceStatus(r, outcome, e) == TOKEN_BINDING_MISMATCH
    ensures ReportedOutcome(r, outcome, e)
         == if EvidenceStatus(r, outcome, e) == OK then outcome else J.Indeterminate
  {
  }

  function ReportedOutcome(r: Request, outcome: J.Outcome, e: EvidenceAnswer): J.Outcome {
    if Accepts(r, outcome, e) then outcome else J.Indeterminate
  }

  function Conclude(ev: Evidence, r: Request, outcome: J.Outcome, e: EvidenceAnswer): Evidence {
    var after := ev.(sequence := ev.sequence + 1);
    if !Accepts(r, outcome, e) then after
    else if outcome == J.Committed then after.(executionRoot := e.afterRoot)
    else if outcome == J.Buffered then after.(staged := ev.staged + [StagedLeaf(ev.sequence + 1, e.digest)])
    else after
  }

  // ---------- flush ----------

  function AdmitFlush(ev: Evidence, expectedRoot: Digest, batchedCapable: bool, open: bool): Status {
    if !batchedCapable then UNSUPPORTED_CAPABILITY
    else if !open then INVALID_STATE
    else if |ev.staged| == 0 then INVALID_STATE
    else if ev.executionRoot != expectedRoot then EXECUTION_ROOT_FORK
    else OK
  }

  /** A flush goes to the sink exactly if the session may batch, is open, has staged leaves and is at the root that the
      caller expects. */
  lemma FlushAdmissionIs(ev: Evidence, expectedRoot: Digest, batchedCapable: bool, open: bool)
    ensures AdmitFlush(ev, expectedRoot, batchedCapable, open) == OK
       <==> batchedCapable && open && ev.staged != [] && expectedRoot == ev.executionRoot
    ensures AdmitFlush(ev, expectedRoot, batchedCapable, open) == UNSUPPORTED_CAPABILITY <==> !batchedCapable
    ensures AdmitFlush(ev, expectedRoot, batchedCapable, open) == INVALID_STATE
       <==> batchedCapable && (!open || ev.staged == [])
    ensures AdmitFlush(ev, expectedRoot, batchedCapable, open) == EXECUTION_ROOT_FORK
       <==> batchedCapable && open && ev.staged != [] && expectedRoot != ev.executionRoot
  {
  }

  function LeafDigests(ev: Evidence): (d: seq<Digest>)
    ensures |d| == |ev.staged|
  {
    seq(|ev.staged|, i requires 0 <= i < |ev.staged| => ev.staged[i].digest)
  }

  function ConcludeFlush(ev: Evidence, a: FlushAnswer): (Status, Evidence) {
    if a.status != OK then (a.status, ev)
    else if !a.wellFormed then (MALFORMED_DESCRIPTOR, ev)
    else (OK, ev.(executionRoot := a.afterRoot, staged := []))
  }

  // ---------- reconciliation ----------

  predicate IsFresh(ev: Evidence) {
    ev.sequence == 0 && ev.nonces == {} && ev.semanticRoot.None? && ev.executionRoot == ZERO_ROOT
  }

  predicate StagedInOrder(s: seq<nat>, last: nat) {
    forall i :: 0 <= i < |s| ==> 0 < s[i] <= last && (i > 0 ==> s[i - 1] < s[i])
  }

  predicate WellFormedReconciliation(r: J.Reconciliation) {
    && |r.nonces| <= MAX_CONSUMED_NONCES
    && |r.stagedSequences| <= MAX_STAGED_LEAVES
    && |r.stagedSequences| <= |r.nonces| == r.mediationSequence
    && |r.stagedDigests| == |r.stagedSequences|
    && StagedInOrder(r.stagedSequences, r.mediationSequence)
  }

  predicate Distinct(n: seq<Nonce>) {
    forall i, j :: 0 <= i < j < |n| ==> n[i] != n[j]
  }

  function NonceSet(n: seq<Nonce>): set<Nonce> {
    set i | 0 <= i < |n| :: n[i]
  }

  function RestoredLeaves(r: J.Reconciliation): (s: seq<StagedLeaf>)
    requires |r.stagedDigests| == |r.stagedSequences|
    ensures |s| == |r.stagedSequences|
  {
    seq(|r.stagedSequences|, i requires 0 <= i < |r.stagedSequences| =>
      StagedLeaf(r.stagedSequences[i], r.stagedDigests[i]))
  }

  /** A session takes over a durable history only before it has any history of its own. */
  function ReconcileKernel(ev: Evidence, idle: bool, r: J.Reconciliation): (Status, Evidence) {
    if !WellFormedReconciliation(r) then (MALFORMED_DESCRIPTOR, ev)
    else if !idle || !IsFresh(ev) then (INVALID_STATE, ev)
    else if !Distinct(r.nonces) then (TOKEN_REPLAY, ev)
    else (OK, Evidence(r.executionRoot, Some(r.semanticRoot), r.mediationSequence, NonceSet(r.nonces),
                       RestoredLeaves(r)))
  }

  /** A history that a session can have had: as many different nonces as mediations, no more than it has room for, and
      leaves for some of these mediations in increasing order. */
  ghost predicate Coherent(r: J.Reconciliation) {
    && r.mediationSequence == |r.nonces| <= 1024
    && |r.stagedDigests| == |r.stagedSequences| <= |r.nonces|
    && (forall i :: 0 <= i < |r.stagedSequences| ==> 1 <= r.stagedSequences[i] <= r.mediationSequence)
    && (forall i, j :: 0 <= i < j < |r.stagedSequences| ==> r.stagedSequences[i] < r.stagedSequences[j])
  }

  lemma {:induction false} NeighboursInOrder(s: seq<nat>, last: nat)
    requires StagedInOrder(s, last)
    ensures forall i, j :: 0 <= i < j < |s| ==> s[i] < s[j]
  {
    if |s| > 1 {
      var n := |s| - 1;
      NeighboursInOrder(s[..n], last);
      assert s[n - 1] < s[n];
      forall i | 0 <= i < n ensures s[i] < s[n] {
        assert s[..n][i] <= s[..n][n - 1];
      }
      forall i, j | 0 <= i < j < n ensures s[i] < s[j] {
        assert s[..n][i] < s[..n][j];
      }
    }
  }

  lemma WellFormedIsCoherent(r: J.Reconciliation)
    ensures WellFormedReconciliation(r) <==> Coherent(r)
  {
    if WellFormedReconciliation(r) {
      NeighboursInOrder(r.stagedSequences, r.mediationSequence);
    }
  }

  /** A history is taken over exactly if it is coherent, has no nonce twice, and the session is idle and without history
      of its own. The session then stands where the history ends. */
  lemma TakeOverIs(ev: Evidence, idle: bool, r: J.Reconciliation)
    ensures var (status, after) := ReconcileKernel(ev, idle, r);
            && (status == OK <==> Coherent(r) && idle && ev.(staged := []) == FRESH && Distinct(r.nonces))
            && (status == MALFORMED_DESCRIPTOR <==> !Coherent(r))
            && (status == INVALID_STATE <==> Coherent(r) && !(idle && ev.(staged := []) == FRESH))
            && (status == TOKEN_REPLAY
                <==> Coherent(r) && idle && ev.(staged := []) == FRESH
                     && exists i, j :: 0 <= i < j < |r.nonces| && r.nonces[i] == r.nonces[j])
            && (status != OK ==> after == ev)
            && (status == OK ==> TakesOver(after, r))
  {
    WellFormedIsCoherent(r);
  }

  ghost predicate TakesOver(ev: Evidence, r: J.Reconciliation) {
    && ev.executionRoot == r.executionRoot && ev.semanticRoot == Some(r.semanticRoot)
    && ev.sequence == r.mediationSequence && (forall n :: n in ev.nonces <==> n in r.nonces)
    && |ev.staged| == |r.stagedSequences| == |r.stagedDigests|
    && forall i :: 0 <= i < |ev.staged| ==>
         ev.staged[i].sequence == r.stagedSequences[i] && ev.staged[i].digest == r.stagedDigests[i]
  }

  // ---------- the evidence sink over the journal ----------

  function SinkReceipt(sequence: nat, r: Request, outcome: J.Outcome, a: AdapterAnswer, committedRoot: Digest):
    J.Receipt
  {
    J.Receipt(sequence, r.first, r.last, r.nonce, r.semanticRoot, r.beforeRoot,
              if outcome == J.Committed then committedRoot else r.beforeRoot, outcome, a.observation)
  }

  /** The receipt says of mediation `n` what the token was for, what the adapter observed, how it came out, and which
      root the session is at afterwards. */
  ghost predicate Describes(c: J.Receipt, n: nat, r: Request, outcome: J.Outcome, a: AdapterAnswer,
                            committedRoot: Digest)
  {
    && c.sequence == n && c.outcome == outcome
    && c.first == r.first && c.last == r.last && c.nonce == r.nonce
    && c.semanticRoot == r.semanticRoot && c.beforeRoot == r.beforeRoot
    && c.observation == a.observation
    && (outcome.Committed? ==> c.afterRoot == committedRoot)
    && (!outcome.Committed? ==> c.afterRoot == c.beforeRoot)
  }

  /** Between the two journals the receipt of mediation `n` was added, with a leaf that keeps the adapter's input digest
      if the effect is buffered. All other receipts and leaves are as they were. */
  ghost predicate Records(t: J.Tables, u: J.Tables, n: nat, r: Request, outcome: J.Outcome, a: AdapterAnswer,
                          committedRoot: Digest)
  {
    && n !in t.receipts && n in u.receipts && u.receipts == t.receipts[n := u.receipts[n]]
    && Describes(u.receipts[n], n, r, outcome, a, committedRoot)
    && if outcome.Buffered?
       then n !in t.leaves && n in u.leaves && u.leaves == t.leaves[n := u.leaves[n]]
            && u.leaves[n].inputDigest == a.input && u.leaves[n].batch.None?
       else u.leaves == t.leaves
  }

  lemma FinalizeRecords(hash: J.Hash, t: J.Tables, n: nat, r: Request, outcome: J.Outcome, a: AdapterAnswer,
                        committedRoot: Digest)
    ensures var f := SinkFinalize(hash, t, SinkReceipt(n, r, outcome, a, committedRoot), a.input);
            f.Ok? ==> Records(t, f.value, n, r, outcome, a, committedRoot)
  {
  }

  /** The journal transaction that finalizes an effect: buffered receipts are staged, others appended. */
  function SinkFinalize(hash: J.Hash, t: J.Tables, c: J.Receipt, input: Digest): Result<J.Tables, J.Error> {
    if c.outcome == J.Buffered then J.Stage(hash, t, c, input) else J.Append(t, c)
  }

  /** What the sink answers when the transaction went through, and when it raised. */
  function SinkAnswer(hash: J.Hash, c: J.Receipt, u: J.Tables): EvidenceAnswer {
    EvidenceAnswer(OK, true, c.afterRoot,
                   if c.outcome == J.Buffered && c.sequence in u.leaves then u.leaves[c.sequence].digest
                   else hash.receipt(c))
  }

  const SINK_RAISED := EvidenceAnswer(INTERNAL_INVARIANT, true, ZERO_ROOT, ZERO_ROOT)
  const SINK_FLUSH_RAISED := FlushAnswer(INTERNAL_INVARIANT, true, ZERO_ROOT, ZERO_ROOT)
}
