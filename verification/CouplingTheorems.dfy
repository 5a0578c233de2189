/** The main results about runs of the coupled system. */
module CouplingTheorems {
  import opened Basics
  import opened RuntimeStatus
  import opened OrderedRows
  import opened Mediation
  import opened JournalShape
  import opened Coupling
  import opened CouplingProofs
  import J = Journal

  // ---------- recovery ----------

  /** Reconciliation is accepted by a fresh session, and rebuilds exactly the kernel evidence that the journal is
      coupled to: nothing is lost and nothing is invented. */
  lemma RecoveryRestoresKernel(hash: J.Hash, k: Evidence, t: J.Tables)
    requires WellShaped(hash, t) && Coupled(k, t)
    ensures Recover(t) == (OK, k)
  {
    if Total(t) == 0 {
      assert t.reservations.Keys == {};
      NothingToRecover(k, t);
    } else {
      ReservedAre(hash, t);
      ReconciliationIs(hash, k, t);
      var r := J.Reconcile(t).value.value;
      RecoveredNonces(k, t, r.nonces, Total(t));
      RecoveredLeaves(hash, k, t, r);
      ReconciledKernelIs(k, r);
    }
  }

  lemma ReconciliationIs(hash: J.Hash, k: Evidence, t: J.Tables)
    requires WellShaped(hash, t) && Coupled(k, t) && Total(t) > 0
    requires J.ReservedSequences(t) == Range(1, Total(t))
    ensures J.Reconcile(t).Ok? && J.Reconcile(t).value.Some?
    ensures var r := J.Reconcile(t).value.value;
            && k.semanticRoot == Some(r.semanticRoot) && r.executionRoot == k.executionRoot
            && r.mediationSequence == k.sequence == Total(t) && r.nonces == J.ReservedNonces(t)
            && r.stagedSequences == J.StagedSequences(t) && r.stagedDigests == J.StagedDigests(t)
            && r.runtimeSequence == t.reservations[Total(t)].last
  {
    assert 1 in t.reservations && k.semanticRoot == Some(t.reservations[1].semanticRoot);
    assert !J.SemanticRootChanges(t, t.reservations[1].semanticRoot);
  }

  lemma ReconciledKernelIs(k: Evidence, r: J.Reconciliation)
    requires |r.nonces| == r.mediationSequence == k.sequence <= MAX_CONSUMED_NONCES
    requires Distinct(r.nonces) && NonceSet(r.nonces) == k.nonces
    requires |r.stagedDigests| == |r.stagedSequences| <= |r.nonces|
    requires StagedInOrder(r.stagedSequences, r.mediationSequence) && RestoredLeaves(r) == k.staged
    requires k.semanticRoot == Some(r.semanticRoot) && r.executionRoot == k.executionRoot
    ensures ReconcileKernel(FRESH, true, r) == (OK, k)
  {
  }

  lemma NothingToRecover(k: Evidence, t: J.Tables)
    requires Coupled(k, t) && t.reservations.Keys == {} && t.head.None? && Resolved(t) == 0
    ensures J.ReservedSequences(t) == [] && k == FRESH
  {
    assert k.nonces == {};
    assert k.staged == [];
  }

  lemma ReservedAre(hash: J.Hash, t: J.Tables)
    requires WellShaped(hash, t) && Total(t) > 0
    ensures J.ReservedSequences(t) == Range(1, Total(t))
  {
    SortedRange(t.reservations.Keys, k => k, 1, Total(t));
  }

  lemma RecoveredNonces(k: Evidence, t: J.Tables, nonces: seq<Nonce>, n: nat)
    requires forall i: nat :: i in t.reservations <==> 1 <= i <= n
    requires forall i: nat, j: nat :: 1 <= i < j <= n ==> t.reservations[i].nonce != t.reservations[j].nonce
    requires SameNonces(k, t) && J.ReservedSequences(t) == Range(1, n) && nonces == J.ReservedNonces(t)
    ensures |nonces| == n && Distinct(nonces) && NonceSet(nonces) == k.nonces
  {
    NoncesAre(t, nonces, n);
    forall i, j | 0 <= i < j < n ensures nonces[i] != nonces[j] {
      assert RowHasNonce(t, i + 1, nonces[i]) && RowHasNonce(t, j + 1, nonces[j]);
    }
    forall x ensures x in NonceSet(nonces) <==> x in k.nonces {
      if x in k.nonces {
        var i :| i in t.reservations && t.reservations[i].nonce == x;
        assert RowHasNonce(t, i, nonces[i - 1]);
      }
      if x in NonceSet(nonces) {
        var i :| 0 <= i < n && nonces[i] == x;
        assert RowHasNonce(t, i + 1, nonces[i]);
      }
    }
  }

  predicate RowHasNonce(t: J.Tables, i: nat, n: Nonce) {
    i in t.reservations && t.reservations[i].nonce == n
  }

  lemma NoncesAre(t: J.Tables, nonces: seq<Nonce>, n: nat)
    requires J.ReservedSequences(t) == Range(1, n) && nonces == J.ReservedNonces(t)
    ensures |nonces| == n
    ensures forall i: nat :: i < n ==> RowHasNonce(t, i + 1, nonces[i])
  {
    var s := J.ReservedSequences(t);
    forall i: nat | i < n ensures RowHasNonce(t, i + 1, nonces[i]) {
      assert s[i] == Range(1, n)[i] == i + 1;
    }
  }

  lemma RecoveredLeaves(hash: J.Hash, k: Evidence, t: J.Tables, r: J.Reconciliation)
    requires WellShaped(hash, t) && Coupled(k, t)
    requires r.stagedSequences == J.StagedSequences(t) && r.stagedDigests == J.StagedDigests(t)
    ensures |r.stagedDigests| == |r.stagedSequences| <= Total(t)
    ensures StagedInOrder(r.stagedSequences, Total(t)) && RestoredLeaves(r) == k.staged
  {
    CoupledLeaves(hash, k, t);
    StagedSequencesAre(hash, t);
    RestoredIs(k, r);
  }

  lemma RestoredIs(k: Evidence, r: J.Reconciliation)
    requires |r.stagedDigests| == |r.stagedSequences| == |k.staged|
    requires Mediation.LeafDigests(k) == r.stagedDigests
    requires forall i :: 0 <= i < |k.staged| ==> k.staged[i].sequence == r.stagedSequences[i]
    ensures RestoredLeaves(r) == k.staged
  {
    forall i | 0 <= i < |k.staged| ensures RestoredLeaves(r)[i] == k.staged[i] {
      assert Mediation.LeafDigests(k)[i] == k.staged[i].digest;
    }
  }

  /** Coupled kernels over one journal are equal. */
  lemma CoupledKernelUnique(hash: J.Hash, k: Evidence, k': Evidence, t: J.Tables)
    requires WellShaped(hash, t) && Coupled(k, t) && Coupled(k', t)
    ensures k == k'
  {
    RecoveryRestoresKernel(hash, k, t);
    RecoveryRestoresKernel(hash, k', t);
  }

  // ---------- the invariant over runs ----------

  /** The kernel evidence that the running call will leave behind, whatever happens to the process now. */
  function Settled(s: System): Evidence {
    match s.phase
    case Idle => s.kernel
    case Reserved(_) => s.kernel.(sequence := s.kernel.sequence + 1)
    case Executed(_, _) => s.kernel.(sequence := s.kernel.sequence + 1)
    case Finalized(r, outcome, e) => Conclude(s.kernel, r, outcome, e)
    case Flushed(f) => ConcludeFlush(s.kernel, f).1
  }

  /** A crash at any moment, followed by reconciliation, yields the evidence the interrupted call settles to:
      an unfinished mediation counts as started and unresolved, a finished one or a flush as done. */
  lemma CrashLosesNothing(hash: J.Hash, s: System)
    requires Invariant(hash, s)
    ensures Recover(s.journal) == (OK, Settled(s))
    ensures Coupled(Settled(s), s.journal)
  {
    RecoveryRestoresKernel(hash, Settled(s), s.journal);
  }

  lemma InitialInvariant(hash: J.Hash)
    ensures Invariant(hash, INITIAL)
  {
    EmptyIsWellShaped(hash);
    assert J.EMPTY.reservations.Keys == {};
  }

  lemma NextKeepsInvariant(hash: J.Hash, s: System, a: Action)
    requires Invariant(hash, s)
    ensures Invariant(hash, Next(hash, s, a))
  {
    match a
    case BeginMediate(r, capable, fails) => BeginMediateKeeps(hash, s, r, capable, fails);
    case Execute(answer) => ExecuteKeeps(hash, s, answer);
    case Finalize(root, fails) => FinalizeKeeps(hash, s, root, fails);
    case TakeReceipt =>
    case BeginFlush(root, capable, fails) => BeginFlushKeeps(hash, s, root, capable, fails);
    case TakeFlush =>
    case CrashAndReconcile => CrashLosesNothing(hash, s);
  }

  lemma BeginMediateKeeps(hash: J.Hash, s: System, r: Request, capable: bool, fails: bool)
    requires Invariant(hash, s)
    ensures Invariant(hash, Next(hash, s, BeginMediate(r, capable, fails)))
  {
    if s.phase.Idle? && AdmitToken(s.kernel, r) == OK {
      match Reserving(s.journal, ReservationFor(s.kernel, r), fails)
      case Some(u) =>
        ReserveCouples(hash, s.kernel, s.journal, r, u);
        ReservationIsNew(hash, s.kernel, s.journal, r);
        NewRowKeepsReserved(s.journal, u, ReservationFor(s.kernel, r));
        ReservedInvariant(hash, s, r, u);
      case None =>
    }
  }

  lemma NewRowKeepsReserved(t: J.Tables, u: J.Tables, r: J.Reservation)
    requires r.sequence !in t.reservations && J.Reserve(t, r) == Ok(u)
    ensures forall n :: J.NonceReserved(t, n) ==> J.NonceReserved(u, n)
  {
    forall n | J.NonceReserved(t, n) ensures J.NonceReserved(u, n) {
      var i :| i in t.reservations && t.reservations[i].nonce == n;
      assert i in u.reservations && u.reservations[i].nonce == n;
    }
  }

  lemma ReservedInvariant(hash: J.Hash, s: System, r: Request, u: J.Tables)
    requires AtMostOnce(s) && !J.NonceReserved(s.journal, r.nonce)
    requires WellShaped(hash, u) && InFlight(Consume(s.kernel, r), u, r)
    requires forall n :: J.NonceReserved(s.journal, n) ==> J.NonceReserved(u, n)
    ensures Invariant(hash, System(Consume(s.kernel, r), u, Reserved(r), s.executed))
  {
  }

  lemma ExecuteKeeps(hash: J.Hash, s: System, answer: AdapterAnswer)
    requires Invariant(hash, s)
    ensures Invariant(hash, Next(hash, s, Execute(answer)))
  {
    if s.phase.Reserved? {
      var row := Total(s.journal);
      assert s.journal.reservations[row].nonce == s.phase.r.nonce;
      assert J.NonceReserved(s.journal, s.phase.r.nonce);
    }
  }

  lemma FinalizeKeeps(hash: J.Hash, s: System, root: Digest, fails: bool)
    requires Invariant(hash, s)
    ensures Invariant(hash, Next(hash, s, Finalize(root, fails)))
  {
    if s.phase.Executed? {
      FinalizingKeeps(hash, s, root, s.phase.answer.input, fails,
                      Finalizing(hash, s.journal, ReceiptOf(s, root), s.phase.answer.input, fails));
    }
  }

  lemma FinalizingKeeps(hash: J.Hash, s: System, root: Digest, input: Digest, fails: bool,
                        f: (J.Tables, EvidenceAnswer))
    requires Invariant(hash, s) && s.phase.Executed? && input == s.phase.answer.input
    requires f == Finalizing(hash, s.journal, ReceiptOf(s, root), input, fails)
    ensures Invariant(hash, FinalizeMove(s, f))
  {
    FinalizeCouples(hash, s.kernel, s.journal, s.phase.r, ExecutedOutcome(s), s.phase.answer, root, fails);
    FinalizeKeepsReserved(hash, s.journal, ReceiptOf(s, root), input, fails);
    FinalizeInvariant(hash, s, f);
  }

  lemma FinalizeInvariant(hash: J.Hash, s: System, f: (J.Tables, EvidenceAnswer))
    requires AtMostOnce(s) && s.phase.Executed? && WellShaped(hash, f.0)
    requires forall n :: J.NonceReserved(s.journal, n) ==> J.NonceReserved(f.0, n)
    requires Coupled(Conclude(s.kernel, s.phase.r, ExecutedOutcome(s), f.1), f.0)
    ensures Invariant(hash, FinalizeMove(s, f))
  {
    assert PhaseInvariant(FinalizeMove(s, f));
  }

  lemma FinalizeKeepsReserved(hash: J.Hash, t: J.Tables, c: J.Receipt, input: Digest, fails: bool)
    ensures forall n :: J.NonceReserved(t, n) ==> J.NonceReserved(Finalizing(hash, t, c, input, fails).0, n)
  {
    var u := Finalizing(hash, t, c, input, fails).0;
    forall n | J.NonceReserved(t, n) ensures J.NonceReserved(u, n) {
      var i :| i in t.reservations && t.reservations[i].nonce == n;
      assert i in u.reservations && u.reservations[i].nonce == n;
    }
  }

  lemma BeginFlushKeeps(hash: J.Hash, s: System, root: Digest, capable: bool, fails: bool)
    requires Invariant(hash, s)
    ensures Invariant(hash, Next(hash, s, BeginFlush(root, capable, fails)))
  {
    if s.phase.Idle? && AdmitFlush(s.kernel, root, capable, true) == OK {
      FlushCouples(hash, s.kernel, s.journal, fails);
      FlushKeepsReserved(hash, s.journal, s.kernel, fails);
      FlushInvariant(hash, s, Flushing(hash, s.journal, s.kernel, fails));
    }
  }

  lemma FlushInvariant(hash: J.Hash, s: System, f: (J.Tables, FlushAnswer))
    requires AtMostOnce(s) && WellShaped(hash, f.0)
    requires forall n :: J.NonceReserved(s.journal, n) ==> J.NonceReserved(f.0, n)
    requires Coupled(ConcludeFlush(s.kernel, f.1).1, f.0)
    ensures Invariant(hash, FlushMove(s, f))
  {
    assert PhaseInvariant(FlushMove(s, f));
  }

  lemma FlushKeepsReserved(hash: J.Hash, t: J.Tables, k: Evidence, fails: bool)
    ensures forall n :: J.NonceReserved(t, n) ==> J.NonceReserved(Flushing(hash, t, k, fails).0, n)
  {
    var u := Flushing(hash, t, k, fails).0;
    forall n | J.NonceReserved(t, n) ensures J.NonceReserved(u, n) {
      var i :| i in t.reservations && t.reservations[i].nonce == n;
      assert i in u.reservations && u.reservations[i].nonce == n;
    }
  }

  /** In every reachable system the journal is well shaped, the kernel is coupled to it, and no effect was run twice. */
  lemma {:induction false} RunKeepsInvariant(hash: J.Hash, actions: seq<Action>)
    ensures Invariant(hash, Run(hash, actions))
  {
    if |actions| == 0 {
      InitialInvariant(hash);
    } else {
      RunKeepsInvariant(hash, actions[..|actions| - 1]);
      NextKeepsInvariant(hash, Run(hash, actions[..|actions| - 1]), actions[|actions| - 1]);
    }
  }

  lemma FinalizeReplays(hash: J.Hash, t: J.Tables, c: J.Receipt, input: Digest, fails: bool)
    requires WellShaped(hash, t) && HeadReplays(hash, t)
    ensures HeadReplays(hash, Finalizing(hash, t, c, input, fails).0)
  {
    if SinkFinalize(hash, t, c, input).Ok? {
      if c.outcome == J.Buffered {
        StageReplays(hash, t, c, input);
      } else {
        AppendReplays(hash, t, c);
      }
    }
  }

  lemma NextReplays(hash: J.Hash, s: System, a: Action)
    requires WellShaped(hash, s.journal) && HeadReplays(hash, s.journal)
    ensures HeadReplays(hash, Next(hash, s, a).journal)
  {
    match a
    case BeginMediate(r, _, _) =>
      if J.Reserve(s.journal, ReservationFor(s.kernel, r)).Ok? {
        ReserveReplays(hash, s.journal, ReservationFor(s.kernel, r));
      }
    case Finalize(root, fails) =>
      if s.phase.Executed? {
        FinalizeReplays(hash, s.journal, ReceiptOf(s, root), s.phase.answer.input, fails);
        assert Next(hash, s, a).journal
            == Finalizing(hash, s.journal, ReceiptOf(s, root), s.phase.answer.input, fails).0;
      }
    case BeginFlush(_, _, fails) =>
      FlushingReplays(hash, s.journal, s.kernel, fails);
      assert Next(hash, s, a).journal == s.journal
          || Next(hash, s, a).journal == Flushing(hash, s.journal, s.kernel, fails).0;
    case _ => assert Next(hash, s, a).journal == s.journal;
  }

  lemma FlushingReplays(hash: J.Hash, t: J.Tables, k: Evidence, fails: bool)
    requires WellShaped(hash, t) && HeadReplays(hash, t)
    ensures HeadReplays(hash, Flushing(hash, t, k, fails).0)
  {
    match J.Flush(hash, t, Mediation.LeafDigests(k))
    case Ok(u) =>
      FlushReplays(hash, t, Mediation.LeafDigests(k), u);
    case Err(_) =>
  }

  /** In every reachable journal, replaying receipts and batches in order from the zero root, and recomputing each
      batch from its leaves, gives the stored head root. */
  lemma {:induction false} RunReplays(hash: J.Hash, actions: seq<Action>)
    ensures HeadReplays(hash, Run(hash, actions).journal)
  {
    if |actions| == 0 {
      EmptyReplays(hash);
    } else {
      RunReplays(hash, actions[..|actions| - 1]);
      RunKeepsInvariant(hash, actions[..|actions| - 1]);
      NextReplays(hash, Run(hash, actions[..|actions| - 1]), actions[|actions| - 1]);
    }
  }

  /** Safety of whole runs: each nonce reaches the adapter at most once, over any number of crashes. */
  lemma EachEffectRunsAtMostOnce(hash: J.Hash, actions: seq<Action>)
    ensures forall i, j :: 0 <= i < j < |Run(hash, actions).executed| ==>
              Run(hash, actions).executed[i] != Run(hash, actions).executed[j]
  {
    RunKeepsInvariant(hash, actions);
  }

  /** Between calls, kernel and journal agree on the root, the nonces, the mediation count and the leaves. */
  lemma RunsStayCoupled(hash: J.Hash, actions: seq<Action>)
    requires Run(hash, actions).phase.Idle?
    ensures Coupled(Run(hash, actions).kernel, Run(hash, actions).journal)
    ensures Recover(Run(hash, actions).journal) == (OK, Run(hash, actions).kernel)
  {
    RunKeepsInvariant(hash, actions);
    CrashLosesNothing(hash, Run(hash, actions));
  }

  // ---------- liveness of the journal ----------

  function RunFrom(hash: J.Hash, s: System, actions: seq<Action>): System {
    if |actions| == 0 then s
    else Next(hash, RunFrom(hash, s, actions[..|actions| - 1]), actions[|actions| - 1])
  }

  /** Between calls (or in a flush), with a reservation whose effect was never finalized. */
  ghost predicate Blocked(s: System) {
    (s.phase.Idle? || s.phase.Flushed?) && J.HasUnresolved(s.journal)
  }

  lemma BlockedStays(hash: J.Hash, s: System, a: Action)
    requires Invariant(hash, s) && Blocked(s)
    ensures Blocked(Next(hash, s, a)) && Next(hash, s, a).executed == s.executed
  {
    if a.BeginMediate? && s.phase.Idle? {
      ReservationIsNew(hash, s.kernel, s.journal, a.r);
      assert Next(hash, s, a) == s;
    } else if a.BeginFlush? {
      FlushKeepsUnresolved(hash, s.journal, s.kernel, a.driverFails);
    }
  }

  lemma FlushKeepsUnresolved(hash: J.Hash, t: J.Tables, k: Evidence, fails: bool)
    requires J.HasUnresolved(t)
    ensures J.HasUnresolved(Flushing(hash, t, k, fails).0)
  {
    var i :| i in t.reservations && t.reservations[i].state == J.Reserved;
    match J.Flush(hash, t, Mediation.LeafDigests(k))
    case Ok(u) => assert i in u.reservations && u.reservations[i].state == J.Reserved;
    case Err(_) =>
  }

  /** An effect that was reserved and never finalized stops the session for good: whatever is tried afterwards,
      including crashes and reconciliations, no effect reaches an adapter again. */
  lemma {:induction false} UnfinalizedEffectBlocksSession(hash: J.Hash, s: System, actions: seq<Action>)
    requires Invariant(hash, s) && Blocked(s)
    ensures RunFrom(hash, s, actions).executed == s.executed
    ensures Blocked(RunFrom(hash, s, actions)) && Invariant(hash, RunFrom(hash, s, actions))
  {
    if |actions| > 0 {
      UnfinalizedEffectBlocksSession(hash, s, actions[..|actions| - 1]);
      var m := RunFrom(hash, s, actions[..|actions| - 1]);
      BlockedStays(hash, m, actions[|actions| - 1]);
      NextKeepsInvariant(hash, m, actions[|actions| - 1]);
    }
  }

  /** With a working database, an effect in flight is finalized exactly if it is to be buffered or no leaf is
      staged: a strict or indeterminate receipt cannot be appended behind staged leaves. */
  lemma FinalizeSucceedsIff(hash: J.Hash, s: System, root: Digest)
    requires Invariant(hash, s) && s.phase.Executed?
    ensures Next(hash, s, Finalize(root, false)).phase.evidence.status == OK
       <==> ExecutedOutcome(s) == J.Buffered || |s.kernel.staged| == 0
  {
    var t, c := s.journal, ReceiptOf(s, root);
    var row := t.reservations[Total(t)];
    assert row.state == StateAt(Total(t), J.HeadSequence(t), Resolved(t)) == J.Reserved;
    assert 0 < row.first <= row.last;
    assert J.IsReserved(t, c) && J.ValidReceipt(c);
    if ExecutedOutcome(s) == J.Buffered {
      NothingRecordedYet(hash, t, c);
    } else {
      AppendSucceedsIff(hash, t, c);
    }
  }

  /** The same in terms of runs: a committed or failed effect that runs while leaves are staged blocks the session. */
  lemma UnbufferedEffectBehindLeavesBlocks(hash: J.Hash, s: System, root: Digest, fails: bool)
    requires Invariant(hash, s) && s.phase.Executed? && |s.kernel.staged| > 0
    requires ExecutedOutcome(s) != J.Buffered
    ensures Blocked(Next(hash, Next(hash, s, Finalize(root, fails)), TakeReceipt))
  {
    FinalizeSucceedsIff(hash, s, root);
    var row := Total(s.journal);
    assert s.journal.reservations[row].state == J.Reserved;
  }

  /** From any reachable state between calls, a flush of staged leaves with a working database is accepted, and
      afterwards kernel and journal hold the same new root and no leaf is staged. */
  lemma FlushCompletes(hash: J.Hash, s: System)
    requires Invariant(hash, s) && s.phase.Idle? && |s.kernel.staged| > 0
    ensures var m := Next(hash, Next(hash, s, BeginFlush(s.kernel.executionRoot, true, false)), TakeFlush);
            && m.kernel == s.kernel.(
                 executionRoot := hash.execution(s.kernel.executionRoot,
                                                 hash.merkle(Mediation.LeafDigests(s.kernel))),
                 staged := [])
            && Coupled(m.kernel, m.journal)
  {
    FlushNeverForks(hash, s.kernel, s.journal);
    FlushCouples(hash, s.kernel, s.journal, false);
    FlushIsTaken(hash, s, Flushing(hash, s.journal, s.kernel, false));
  }

  lemma FlushIsTaken(hash: J.Hash, s: System, f: (J.Tables, FlushAnswer))
    requires s.phase.Idle? && |s.kernel.staged| > 0 && f == Flushing(hash, s.journal, s.kernel, false)
    requires f.1.status == OK
    ensures var m := Next(hash, Next(hash, s, BeginFlush(s.kernel.executionRoot, true, false)), TakeFlush);
            m == System(s.kernel.(executionRoot := f.1.afterRoot, staged := []), f.0, Idle, s.executed)
  {
    assert Next(hash, s, BeginFlush(s.kernel.executionRoot, true, false)) == FlushMove(s, f);
  }

  /** Calls that run to their end keep kernel, journal and adapter record consistent. */
  lemma WholeCallsKeepInvariant(hash: J.Hash, s: System, r: Request, answer: AdapterAnswer, committedRoot: Digest,
                                expectedRoot: Digest, capable: bool, fails: bool)
    requires Invariant(hash, s)
    ensures Invariant(hash, Mediated(hash, s, r, capable, answer, committedRoot, fails))
    ensures Invariant(hash, FlushedBy(hash, s, expectedRoot, capable, fails))
  {
    var s1 := Next(hash, s, BeginMediate(r, capable, false));
    var s2 := Next(hash, s1, Execute(answer));
    var s3 := Next(hash, s2, Finalize(committedRoot, fails));
    NextKeepsInvariant(hash, s, BeginMediate(r, capable, false));
    NextKeepsInvariant(hash, s1, Execute(answer));
    NextKeepsInvariant(hash, s2, Finalize(committedRoot, fails));
    NextKeepsInvariant(hash, s3, TakeReceipt);
    NextKeepsInvariant(hash, s, BeginFlush(expectedRoot, capable, fails));
    NextKeepsInvariant(hash, Next(hash, s, BeginFlush(expectedRoot, capable, fails)), TakeFlush);
  }
}
