/** Kernel session and durable journal of one session id, run together through the evidence sink, with crashes
    between any two steps and reconciliation into a fresh session after each crash. */
module Coupling {
  import opened Basics
  import opened RuntimeStatus
  import opened OrderedRows
  import opened Mediation
  import opened JournalShape
  import J = Journal

  /** Where the one running call is. `Finalized` and `Flushed` are the moments after the journal has answered
      and before the kernel has taken the answer over. */
  datatype Phase =
    | Idle
    | Reserved(r: Request)
    | Executed(r: Request, answer: AdapterAnswer)
    | Finalized(r: Request, outcome: J.Outcome, evidence: EvidenceAnswer)
    | Flushed(flush: FlushAnswer)

  datatype System = System(kernel: Evidence, journal: J.Tables, phase: Phase, executed: seq<Nonce>)

  const INITIAL := System(FRESH, J.EMPTY, Idle, [])

  /** `driverFails` is a journal transaction that is rolled back by its database driver. */
  datatype Action =
    | BeginMediate(r: Request, batchedCapable: bool, driverFails: bool)
    | Execute(answer: AdapterAnswer)
    | Finalize(committedRoot: Digest, driverFails: bool)
    | TakeReceipt
    | BeginFlush(expectedRoot: Digest, batchedCapable: bool, driverFails: bool)
    | TakeFlush
    | CrashAndReconcile

  function Reserving(t: J.Tables, r: J.Reservation, driverFails: bool): Option<J.Tables> {
    match J.Reserve(t, r)
    case Ok(u) => if driverFails then None else Some(u)
    case Err(_) => None
  }

  function Finalizing(hash: J.Hash, t: J.Tables, c: J.Receipt, input: Digest, driverFails: bool):
    (J.Tables, EvidenceAnswer)
  {
    match SinkFinalize(hash, t, c, input)
    case Ok(u) => if driverFails then (t, SINK_RAISED) else (u, SinkAnswer(hash, c, u))
    case Err(_) => (t, SINK_RAISED)
  }

  /** The sink compares roots only after the batch is committed. */
  function FlushingWith(hash: J.Hash, t: J.Tables, digests: seq<Digest>, beforeRoot: Digest, driverFails: bool):
    (J.Tables, FlushAnswer)
  {
    match J.Flush(hash, t, digests)
    case Err(_) => (t, SINK_FLUSH_RAISED)
    case Ok(u) =>
      if driverFails then (t, SINK_FLUSH_RAISED)
      else if J.HeadRoot(t) != beforeRoot then (u, SINK_FLUSH_RAISED)
      else (u, FlushAnswer(OK, true, J.HeadRoot(u), hash.merkle(digests)))
  }

  function Flushing(hash: J.Hash, t: J.Tables, k: Evidence, driverFails: bool): (J.Tables, FlushAnswer) {
    FlushingWith(hash, t, Mediation.LeafDigests(k), k.executionRoot, driverFails)
  }

  /** A new session takes over what the journal reports, if it reports anything. */
  function Recover(t: J.Tables): (Status, Evidence) {
    match J.Reconcile(t)
    case Err(_) => (INTERNAL_INVARIANT, FRESH)
    case Ok(None) => (OK, FRESH)
    case Ok(Some(r)) => ReconcileKernel(FRESH, true, r)
  }

  function ExecutedOutcome(s: System): J.Outcome
    requires s.phase.Executed?
  {
    OutcomeOf(s.phase.answer, s.phase.r.durability)
  }

  function ReceiptOf(s: System, committedRoot: Digest): J.Receipt
    requires s.phase.Executed?
  {
    SinkReceipt(s.kernel.sequence + 1, s.phase.r, ExecutedOutcome(s), s.phase.answer, committedRoot)
  }

  function FinalizeMove(s: System, f: (J.Tables, EvidenceAnswer)): System
    requires s.phase.Executed?
  {
    s.(journal := f.0, phase := Finalized(s.phase.r, ExecutedOutcome(s), f.1))
  }

  function FlushMove(s: System, f: (J.Tables, FlushAnswer)): System {
    s.(journal := f.0, phase := Flushed(f.1))
  }

  function Next(hash: J.Hash, s: System, a: Action): System {
    match a
    case BeginMediate(r, capable, fails) =>
      if s.phase.Idle? && AdmitDurability(s.kernel, r.durability, capable, true) == OK
         && AdmitToken(s.kernel, r) == OK then
        match Reserving(s.journal, ReservationFor(s.kernel, r), fails) {
          case Some(t) => System(Consume(s.kernel, r), t, Reserved(r), s.executed)
          case None => s
        }
      else s
    case Execute(answer) =>
      if s.phase.Reserved? then
        s.(phase := Executed(s.phase.r, answer), executed := s.executed + [s.phase.r.nonce])
      else s
    case Finalize(root, fails) =>
      if s.phase.Executed? then
        FinalizeMove(s, Finalizing(hash, s.journal, ReceiptOf(s, root), s.phase.answer.input, fails))
      else s
    case TakeReceipt =>
      if s.phase.Finalized? then
        s.(kernel := Conclude(s.kernel, s.phase.r, s.phase.outcome, s.phase.evidence), phase := Idle)
      else s
    case BeginFlush(root, capable, fails) =>
      if s.phase.Idle? && AdmitFlush(s.kernel, root, capable, true) == OK then
        FlushMove(s, Flushing(hash, s.journal, s.kernel, fails))
      else s
    case TakeFlush =>
      if s.phase.Flushed? then s.(kernel := ConcludeFlush(s.kernel, s.phase.flush).1, phase := Idle) else s
    case CrashAndReconcile => s.(kernel := Recover(s.journal).1, phase := Idle)
  }

  /** A mediation up to the moment at which the kernel has the sink's answer. */
  function UpToReceipt(hash: J.Hash, s: System, r: Request, capable: bool, answer: AdapterAnswer, root: Digest,
                       fails: bool): System
  {
    Next(hash, Next(hash, Next(hash, s, BeginMediate(r, capable, false)), Execute(answer)), Finalize(root, fails))
  }

  /** A whole mediation that nothing interrupts. */
  function Mediated(hash: J.Hash, s: System, r: Request, capable: bool, answer: AdapterAnswer, root: Digest,
                    fails: bool): System
  {
    Next(hash, UpToReceipt(hash, s, r, capable, answer, root, fails), TakeReceipt)
  }

  /** A whole flush that nothing interrupts. */
  function FlushedBy(hash: J.Hash, s: System, root: Digest, capable: bool, fails: bool): System {
    Next(hash, Next(hash, s, BeginFlush(root, capable, fails)), TakeFlush)
  }

  function Run(hash: J.Hash, actions: seq<Action>): System {
    if |actions| == 0 then INITIAL
    else Next(hash, Run(hash, actions[..|actions| - 1]), actions[|actions| - 1])
  }

  // ---------- the coupling invariant ----------

  ghost predicate SameNonces(k: Evidence, t: J.Tables) {
    && (forall n :: n in k.nonces <==> J.NonceReserved(t, n))
    && |k.nonces| == Total(t) <= MAX_CONSUMED_NONCES
  }

  ghost predicate SameSemanticRoot(k: Evidence, t: J.Tables) {
    && (Total(t) == 0 <==> k.semanticRoot.None?)
    && (forall i :: i in t.reservations ==> k.semanticRoot == Some(t.reservations[i].semanticRoot))
  }

  ghost predicate SameLeaves(k: Evidence, t: J.Tables) {
    LeavesFrom(k.staged, t, J.HeadSequence(t), Resolved(t))
  }

  /** `staged` lists the journal's leaves of mediations h+1..e. */
  ghost predicate LeavesFrom(staged: seq<StagedLeaf>, t: J.Tables, h: nat, e: nat) {
    && h + |staged| == e
    && (forall n: nat :: h < n <= e ==> n in t.leaves && staged[n - h - 1] == StagedLeaf(n, t.leaves[n].digest))
  }

  /** The kernel's evidence is exactly what the journal says it should be. */
  ghost predicate Coupled(k: Evidence, t: J.Tables) {
    && k.executionRoot == J.HeadRoot(t)
    && k.sequence == Total(t)
    && SameNonces(k, t)
    && SameSemanticRoot(k, t)
    && SameLeaves(k, t)
  }

  /** A mediation is in flight: its reservation is the one open row, and the kernel has not counted it yet. */
  ghost predicate InFlight(k: Evidence, t: J.Tables, r: Request) {
    && Coupled(k.(sequence := k.sequence + 1), t)
    && k.executionRoot == r.beforeRoot
    && Total(t) in t.reservations
    && t.reservations[Total(t)] == J.RowOf(ReservationFor(k, r))
  }

  ghost predicate PhaseInvariant(s: System) {
    match s.phase
    case Idle => Coupled(s.kernel, s.journal)
    case Reserved(r) => InFlight(s.kernel, s.journal, r) && r.nonce !in s.executed
    case Executed(r, _) => InFlight(s.kernel, s.journal, r)
    case Finalized(r, outcome, e) => Coupled(Conclude(s.kernel, r, outcome, e), s.journal)
    case Flushed(f) => Coupled(ConcludeFlush(s.kernel, f).1, s.journal)
  }

  ghost predicate AtMostOnce(s: System) {
    && (forall i, j :: 0 <= i < j < |s.executed| ==> s.executed[i] != s.executed[j])
    && (forall i :: 0 <= i < |s.executed| ==> J.NonceReserved(s.journal, s.executed[i]))
  }

  ghost predicate Invariant(hash: J.Hash, s: System) {
    WellShaped(hash, s.journal) && PhaseInvariant(s) && AtMostOnce(s)
  }
}
