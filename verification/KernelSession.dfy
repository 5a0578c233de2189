/** What a session adds to a resource of the kernel: its event queue, its consumed nonces and its evidence state,
    updated in place. */
module KernelSession {
  import opened Basics
  import opened RuntimeStatus
  import opened EventQueue
  import opened PendingQueue
  import opened Mediation
  import opened Coupling
  import opened EvidenceSink
  import opened EvidenceStore
  import N = NonceTable
  import J = Journal

  /** `Unset` is the state of a resource that is no session. */
  datatype State = Unset | Open | Cancelled | Closed

  /** What the adapter is shown: a view into the queue's own storage. */
  datatype Invocation = Invocation(first: nat, last: nat, itemCount: nat, view: seq<Event>)

  /** An effect adapter with a record of its calls. Its answer is chosen by the environment. */
  class Adapter {
    var invocations: seq<Invocation>
    ghost var executed: seq<Nonce>

    constructor ()
      ensures invocations == [] && executed == []
    {
      invocations := [];
      executed := [];
    }

    method Execute(invocation: Invocation, answer: AdapterAnswer, ghost nonce: Nonce) returns (a: AdapterAnswer)
      modifies this
      ensures a == answer && invocations == old(invocations) + [invocation] && executed == old(executed) + [nonce]
    {
      invocations := invocations + [invocation];
      executed := executed + [nonce];
      a := answer;
    }
  }

  datatype MediationResult = MediationResult(
    outcome: J.Outcome, adapterStatus: Status, evidenceStatus: Status, sequence: nat, executionRoot: Digest)

  /** The queue holds first, first + 1, ..., last from position `at` on, without a gap. */
  predicate Enclosed(ev: seq<Event>, at: nat, first: nat, last: nat) {
    && first <= last && at + (last - first) < |ev|
    && forall i :: at <= i <= at + (last - first) ==> ev[i].header.sequence == first + (i - at)
  }

  ghost predicate HasView(ev: seq<Event>, first: nat, last: nat) {
    exists at: nat :: Enclosed(ev, at, first, last)
  }

  class Session {
    const queue: Queue
    const nonces: N.Table
    const batchedCapable: bool
    const leaves: array<StagedLeaf>
    var state: State
    var semanticRoot: Option<Digest>
    var executionRoot: Digest
    var mediationSequence: nat
    var leafCount: nat

    ghost function Repr(): set<object> {
      {this, queue, queue.pending, nonces, nonces.keys, nonces.used, leaves}
    }

    /** The parts of a session are separate objects. */
    ghost predicate Apart() {
      && queue.pending as object != nonces.keys && queue.pending as object != nonces.used
      && queue.pending as object != leaves && nonces.keys as object != nonces.used
      && nonces.keys as object != leaves && nonces.used as object != leaves
    }

    ghost predicate Valid()
      reads this, queue, queue.pending, nonces, nonces.keys, nonces.used, leaves
    {
      && Apart()
      && queue.Valid()
      && nonces.Valid() && nonces.count <= MAX_CONSUMED_NONCES
      && leaves.Length == MAX_STAGED_LEAVES && leafCount <= leaves.Length
      && leafCount <= mediationSequence
      && (queue.pending.Length == 0 <==> state == Unset)
    }

    ghost function Evidence(): Mediation.Evidence
      requires nonces.keys.Length == nonces.used.Length == N.CAPACITY && leafCount <= leaves.Length
      reads this, nonces, nonces.keys, nonces.used, leaves
    {
      Mediation.Evidence(executionRoot, semanticRoot, mediationSequence, nonces.Contents(), leaves[..leafCount])
    }

    /** The session part of a resource, for a session or for anything else. */
    constructor (isSession: bool, batchedCapable: bool)
      ensures Valid() && fresh(Repr())
      ensures Evidence() == FRESH && queue.Events() == []
      ensures state == (if isSession then Open else Unset) && this.batchedCapable == batchedCapable
    {
      queue := new Queue(if isSession then MAX_PENDING_EVENTS else 0);
      nonces := new N.Table(N.HomeSlot);
      this.batchedCapable := batchedCapable;
      leaves := new StagedLeaf[MAX_STAGED_LEAVES](i => StagedLeaf(0, ZERO_ROOT));
      state := if isSession then Open else Unset;
      semanticRoot := None;
      executionRoot := ZERO_ROOT;
      mediationSequence := 0;
      leafCount := 0;
    }

    /** Locates the leased events. The two binary searches compare end positions only, yet the check passes exactly
        if the queue holds every sequence from first to last. */
    method FindView(first: U64, last: U64) returns (found: bool, at: nat)
      requires Valid() && first <= last
      ensures found ==> Enclosed(queue.Events(), at, first, last)
      ensures found <==> HasView(queue.Events(), first, last)
    {
      at := queue.LowerBound(first);
      var end := queue.LowerBound(last);
      ghost var ev := queue.Events();
      assert forall i :: 0 <= i < queue.count ==> queue.pending[i] == ev[i];
      if at >= queue.count || end >= queue.count || queue.pending[at].header.sequence != first
         || queue.pending[end].header.sequence != last || end - at != last - first {
        forall k: nat ensures !Enclosed(ev, k, first, last) {
          if Enclosed(ev, k, first, last) {
            EnclosedIsFound(ev, k, at, end, first, last);
          }
        }
        return false, 0;
      }
      assert at <= end;
      forall i: nat | at <= i <= at + (last - first) ensures ev[i].header.sequence == first + (i - at) {
        ViewHasNoGaps(ev, at, end, i);
      }
      assert Enclosed(ev, at, first, last);
      found := true;
    }

    /** Spends the nonce in the table; everything else stays. */
    method SpendNonce(index: nat, r: Request)
      requires Valid() && index < N.CAPACITY && !nonces.used[index] && r.nonce !in nonces.Contents()
      requires N.PathTaken(nonces.used[..], N.Home(nonces.hash, r.nonce), index)
      requires nonces.count < MAX_CONSUMED_NONCES
      modifies this`semanticRoot, nonces, nonces.keys, nonces.used
      ensures Valid() && Evidence() == Consume(old(Evidence()), r)
    {
      if semanticRoot.None? {
        semanticRoot := Some(r.semanticRoot);
      }
      nonces.Insert(index, r.nonce);
    }

    // ---------- mediation ----------

    /** The checks between durability and effect, in the kernel's order; `binding` is what the handles of the
        request resolve to, checked by the caller. */
    ghost function Admission(r: Request, binding: Status, flushable: bool): Status
      requires Valid()
      reads this, queue, queue.pending, nonces, nonces.keys, nonces.used, leaves
    {
      if AdmitDurability(Evidence(), r.durability, batchedCapable, flushable) != OK
      then AdmitDurability(Evidence(), r.durability, batchedCapable, flushable)
      else if binding != OK then binding
      else if !HasView(queue.Events(), r.first, r.last) then INTERNAL_INVARIANT
      else AdmitToken(Evidence(), r)
    }

    ghost function Snapshot(sink: Sink, adapter: Adapter): System
      requires Valid()
      reads this, queue, queue.pending, nonces, nonces.keys, nonces.used, leaves, sink.store, adapter
    {
      System(Evidence(), sink.Journal(), Idle, adapter.executed)
    }

    /** `strict_mediate`. A refused request changes nothing and never reaches the adapter. An admitted one is the
        protocol's mediation from end to end, and the adapter sees exactly the events first..last. */
    method Mediate(sink: Sink, adapter: Adapter, r: Request, binding: Status, flushable: bool, answer: AdapterAnswer,
                   reserveFault: nat, finalizeFault: nat)
      returns (status: Status, result: MediationResult, ghost fails: bool)
      requires Valid()
      requires binding == OK ==> r.first <= r.last < 0x1_0000_0000_0000_0000
      modifies this, nonces, nonces.keys, nonces.used, leaves, sink.store, adapter
      ensures Valid() && queue.Events() == old(queue.Events())
      ensures status == old(Admission(r, binding, flushable))
           || (old(Admission(r, binding, flushable)) == OK && status == INTERNAL_INVARIANT)
      ensures sink.session != "" && reserveFault >= NO_FAULT && old(Admission(r, binding, flushable)) == OK ==>
                (status == OK <==> Reserving(old(sink.Journal()), old(ReservationFor(Evidence(), r)), false).Some?)
      ensures Mediates(sink.store.hashes(sink.session), old(Snapshot(sink, adapter)), Snapshot(sink, adapter), r,
                       batchedCapable, answer, sink.committedRoot, fails, status)
      ensures sink.session != "" && finalizeFault >= NO_FAULT ==> !fails
      ensures if status == OK
              then Shown(old(adapter.invocations), adapter.invocations, queue.Events(), r.first, r.last)
              else adapter.invocations == old(adapter.invocations)
      ensures status == OK ==>
                Reports(sink.store.hashes(sink.session), old(Snapshot(sink, adapter)), r, batchedCapable, answer,
                        sink.committedRoot, fails, result, Evidence())
      ensures sink.OthersUntouched()
    {
      result := MediationResult(J.Indeterminate, OK, OK, 0, ZERO_ROOT);
      fails := false;
      var at, index;
      status, at, index := Admit(r, binding, flushable);
      if status != OK {
        return;
      }
      status, result, fails := Perform(sink, adapter, r, at, index, answer, reserveFault, finalizeFault);
    }

    /** From the reservation on. */
    method Perform(sink: Sink, adapter: Adapter, r: Request, at: nat, index: nat, answer: AdapterAnswer,
                   reserveFault: nat, finalizeFault: nat)
      returns (status: Status, result: MediationResult, ghost fails: bool)
      requires Valid() && Ready(r, at, index)
      requires AdmitDurability(Evidence(), r.durability, batchedCapable, true) == OK && AdmitToken(Evidence(), r) == OK
      modifies this, nonces, nonces.keys, nonces.used, leaves, sink.store, adapter
      ensures Valid() && queue.Events() == old(queue.Events())
      ensures status == OK || status == INTERNAL_INVARIANT
      ensures sink.session != "" && reserveFault >= NO_FAULT ==>
                (status == OK <==> Reserving(old(sink.Journal()), old(ReservationFor(Evidence(), r)), false).Some?)
      ensures Mediates(sink.store.hashes(sink.session), old(Snapshot(sink, adapter)), Snapshot(sink, adapter), r,
                       batchedCapable, answer, sink.committedRoot, fails, status)
      ensures sink.session != "" && finalizeFault >= NO_FAULT ==> !fails
      ensures if status == OK
              then Shown(old(adapter.invocations), adapter.invocations, queue.Events(), r.first, r.last)
              else adapter.invocations == old(adapter.invocations)
      ensures status == OK ==>
                Reports(sink.store.hashes(sink.session), old(Snapshot(sink, adapter)), r, batchedCapable, answer,
                        sink.committedRoot, fails, result, Evidence())
      ensures sink.OthersUntouched()
    {
      result := MediationResult(J.Indeterminate, OK, OK, 0, ZERO_ROOT);
      fails := false;
      ghost var before := Snapshot(sink, adapter);
      var reservation := J.Reservation(mediationSequence + 1, r.first, r.last, r.nonce, r.semanticRoot, r.beforeRoot);
      status := sink.Reserve(reservation, reserveFault);
      if status != OK {
        return;
      }
      ghost var reserved := sink.Journal();
      assert Admitted(before, r, batchedCapable, reserved);
      ghost var c, e;
      result, c, e, fails := Carry(sink, adapter, r, at, index, answer, finalizeFault);
      MediatedIs(sink.store.hashes(sink.session), before, r, batchedCapable, answer,
                 sink.committedRoot, fails, reserved, c, sink.Journal(), e);
    }

    /** The token is fresh, and `at` and `index` are where its events and its nonce belong. */
    ghost predicate Ready(r: Request, at: nat, index: nat)
      requires Valid()
      reads this, queue, queue.pending, nonces, nonces.keys, nonces.used, leaves
    {
      && Enclosed(queue.Events(), at, r.first, r.last)
      && r.nonce !in nonces.Contents() && nonces.count < MAX_CONSUMED_NONCES
      && (r.durability == Batched ==> leafCount < MAX_STAGED_LEAVES)
      && index < N.CAPACITY && !nonces.used[index]
      && N.PathTaken(nonces.used[..], N.Home(nonces.hash, r.nonce), index)
    }

    method Admit(r: Request, binding: Status, flushable: bool) returns (status: Status, at: nat, index: nat)
      requires Valid() && (binding == OK ==> r.first <= r.last < 0x1_0000_0000_0000_0000)
      ensures status == Admission(r, binding, flushable)
      ensures status == OK ==> Ready(r, at, index)
    {
      at, index := 0, 0;
      status := CheckDurability(r.durability, flushable);
      if status != OK {
        return;
      }
      if binding != OK {
        return binding, 0, 0;
      }
      var found;
      found, at := FindView(r.first, r.last);
      if !found {
        return INTERNAL_INVARIANT, 0, 0;
      }
      status, index := CheckToken(r);
    }

    /** From the reservation on. */
    method Carry(sink: Sink, adapter: Adapter, r: Request, at: nat, index: nat, answer: AdapterAnswer, fault: nat)
      returns (result: MediationResult, ghost c: J.Receipt, ghost e: EvidenceAnswer, ghost fails: bool)
      requires Valid() && Ready(r, at, index)
      modifies this, nonces, nonces.keys, nonces.used, leaves, sink.store, adapter
      ensures Valid() && queue.Events() == old(queue.Events())
      ensures adapter.executed == old(adapter.executed) + [r.nonce]
      ensures Evidence() == Conclude(Consume(old(Evidence()), r), r, OutcomeOf(answer, r.durability), e)
      ensures c == SinkReceipt(old(mediationSequence) + 1, r, OutcomeOf(answer, r.durability), answer,
                               sink.committedRoot)
      ensures Answers(sink.store.hashes(sink.session), old(sink.Journal()), c, answer.input, fails, sink.Journal(), e)
      ensures sink.session != "" && fault >= NO_FAULT ==> !fails
      ensures Shown(old(adapter.invocations), adapter.invocations, queue.Events(), r.first, r.last)
      ensures Tells(result, r, answer, e, Evidence())
      ensures sink.OthersUntouched()
    {
      var a := Invoke(adapter, r, at, index, answer);
      assert mediationSequence == old(mediationSequence) && unchanged(sink.store);
      ghost var consumed, ev, shown := Evidence(), queue.Events(), adapter.invocations;
      assert Shown(old(adapter.invocations), shown, ev, r.first, r.last);
      result, c, e, fails := Finish(sink, r, a, fault);
      assert queue.Events() == ev && adapter.invocations == shown;
    }

    /** Spends the nonce, then runs the adapter on the leased events. */
    method Invoke(adapter: Adapter, r: Request, at: nat, index: nat, answer: AdapterAnswer) returns (a: AdapterAnswer)
      requires Valid() && Enclosed(queue.Events(), at, r.first, r.last)
      requires r.nonce !in nonces.Contents() && nonces.count < MAX_CONSUMED_NONCES
      requires index < N.CAPACITY && !nonces.used[index]
      requires N.PathTaken(nonces.used[..], N.Home(nonces.hash, r.nonce), index)
      modifies this`semanticRoot, nonces, nonces.keys, nonces.used, adapter
      ensures Valid() && Evidence() == Consume(old(Evidence()), r)
      ensures a == answer && adapter.executed == old(adapter.executed) + [r.nonce]
      ensures Shown(old(adapter.invocations), adapter.invocations, queue.Events(), r.first, r.last)
    {
      SpendNonce(index, r);
      var view := queue.pending[at..at + (r.last - r.first) + 1];
      SliceOfPrefix(queue.pending[..], queue.count, at, at + (r.last - r.first) + 1);
      a := adapter.Execute(Invocation(r.first, r.last, r.last - r.first + 1, view), answer, r.nonce);
    }

    /** Finalizes the effect in the journal and takes the journal's answer over. */
    method Finish(sink: Sink, r: Request, a: AdapterAnswer, fault: nat)
      returns (result: MediationResult, ghost c: J.Receipt, ghost e: EvidenceAnswer, ghost fails: bool)
      requires Valid() && (r.durability == Batched ==> leafCount < MAX_STAGED_LEAVES)
      modifies this, leaves, sink.store
      ensures Valid() && Evidence() == Conclude(old(Evidence()), r, OutcomeOf(a, r.durability), e)
      ensures c == SinkReceipt(old(mediationSequence) + 1, r, OutcomeOf(a, r.durability), a, sink.committedRoot)
      ensures Answers(sink.store.hashes(sink.session), old(sink.Journal()), c, a.input, fails, sink.Journal(), e)
      ensures sink.session != "" && fault >= NO_FAULT ==> !fails
      ensures Tells(result, r, a, e, Evidence())
      ensures sink.OthersUntouched()
    {
      var outcome, adapterStatus := ReadAnswer(a, r.durability);
      var answer;
      answer, c, fails := sink.Finalize(mediationSequence + 1, r, outcome, a, fault);
      e := answer;
      var reported, evidenceStatus := TakeAnswer(r, outcome, answer);
      result := MediationResult(reported, adapterStatus, evidenceStatus, mediationSequence, executionRoot);
    }

    method CheckDurability(durability: Durability, flushable: bool) returns (status: Status)
      requires Valid()
      ensures status == AdmitDurability(Evidence(), durability, batchedCapable, flushable)
    {
      if durability == Diagnostic {
        return DIAGNOSTIC_CANNOT_EXECUTE;
      }
      if durability != Strict && durability != Batched {
        return TOKEN_BINDING_MISMATCH;
      }
      if durability == Batched && !batchedCapable {
        return UNSUPPORTED_CAPABILITY;
      }
      if durability == Batched && !flushable {
        return MALFORMED_DESCRIPTOR;
      }
      if durability == Batched && leafCount >= MAX_STAGED_LEAVES {
        return OUTSTANDING_WORK;
      }
      return OK;
    }

    /** Root, semantic root and nonce; a token that passes comes with the free slot its nonce belongs in. */
    method CheckToken(r: Request) returns (status: Status, index: nat)
      requires Valid()
      ensures status == AdmitToken(Evidence(), r)
      ensures status == OK ==>
                && index < N.CAPACITY && !nonces.used[index] && r.nonce !in nonces.Contents()
                && N.PathTaken(nonces.used[..], N.Home(nonces.hash, r.nonce), index)
                && nonces.count < MAX_CONSUMED_NONCES
    {
      index := 0;
      if executionRoot != r.beforeRoot {
        return EXECUTION_ROOT_FORK, index;
      }
      if semanticRoot.Some? && semanticRoot.value != r.semanticRoot {
        return TOKEN_BINDING_MISMATCH, index;
      }
      var found;
      index, found := nonces.Slot(r.nonce);
      if found {
        return TOKEN_REPLAY, index;
      }
      if nonces.count >= MAX_CONSUMED_NONCES || index == N.CAPACITY {
        return OUTSTANDING_WORK, index;
      }
      return OK, index;
    }

    static method ReadAnswer(a: AdapterAnswer, durability: Durability) returns (outcome: J.Outcome, status: Status)
      ensures outcome == OutcomeOf(a, durability) && status == AdapterStatus(a)
    {
      outcome, status := J.Indeterminate, a.status;
      if status == OK && a.wellFormed && a.resultStatus == OK && a.outcome == WIRE_COMMITTED {
        outcome := J.Committed;
        status := a.resultStatus;
      } else if status == OK && (!a.wellFormed || a.resultStatus != OK || a.outcome != WIRE_INDETERMINATE) {
        status := MALFORMED_DESCRIPTOR;
      } else if status == OK {
        status := a.resultStatus;
      }
      if outcome == J.Committed && durability == Batched {
        outcome := J.Buffered;
      }
    }

    /** Takes the sink's answer over. */
    method TakeAnswer(r: Request, outcome: J.Outcome, e: EvidenceAnswer) returns (reported: J.Outcome, status: Status)
      requires Valid() && (outcome == J.Buffered ==> leafCount < MAX_STAGED_LEAVES)
      modifies this, leaves
      ensures Valid() && Evidence() == Conclude(old(Evidence()), r, outcome, e)
      ensures reported == ReportedOutcome(r, outcome, e) && status == EvidenceStatus(r, outcome, e)
      ensures state == old(state)
    {
      var valid := e.status == OK && e.wellFormed;
      reported, status := outcome, e.status;
      if valid && (outcome == J.Indeterminate || outcome == J.Buffered) && e.afterRoot != r.beforeRoot {
        valid := false;
        status := TOKEN_BINDING_MISMATCH;
      }
      if !valid {
        reported := J.Indeterminate;
        if status == OK {
          status := MALFORMED_DESCRIPTOR;
        }
      } else if outcome == J.Committed {
        executionRoot := e.afterRoot;
      } else if outcome == J.Buffered {
        ghost var before := leaves[..leafCount];
        leaves[leafCount] := StagedLeaf(mediationSequence + 1, e.digest);
        leafCount := leafCount + 1;
        assert leaves[..leafCount] == before + [StagedLeaf(mediationSequence + 1, e.digest)];
      }
      mediationSequence := mediationSequence + 1;
    }

    // ---------- flush ----------

    method CheckFlush(expectedRoot: Digest) returns (status: Status)
      requires Valid()
      ensures status == AdmitFlush(Evidence(), expectedRoot, batchedCapable, state == Open)
    {
      if !batchedCapable {
        return UNSUPPORTED_CAPABILITY;
      }
      if state != Open {
        return INVALID_STATE;
      }
      if leafCount == 0 {
        return INVALID_STATE;
      }
      if executionRoot != expectedRoot {
        return EXECUTION_ROOT_FORK;
      }
      return OK;
    }

    /** `batched_flush`: all staged leaves become one batch, or nothing changes in the kernel. */
    method Flush(sink: Sink, adapter: Adapter, expectedRoot: Digest, fault: nat)
      returns (status: Status, count: nat, batchRoot: Digest, ghost fails: bool)
      requires Valid()
      modifies this, leaves, sink.store
      ensures Valid() && queue.Events() == old(queue.Events())
      ensures old(AdmitFlush(Evidence(), expectedRoot, batchedCapable, state == Open)) != OK ==>
                status == old(AdmitFlush(Evidence(), expectedRoot, batchedCapable, state == Open))
                && Snapshot(sink, adapter) == old(Snapshot(sink, adapter))
      ensures old(AdmitFlush(Evidence(), expectedRoot, batchedCapable, state == Open)) == OK ==>
                Snapshot(sink, adapter)
                == FlushedBy(sink.store.hashes(sink.session), old(Snapshot(sink, adapter)), expectedRoot,
                             batchedCapable, fails)
      ensures fault >= NO_FAULT ==> !fails
      ensures old(AdmitFlush(Evidence(), expectedRoot, batchedCapable, state == Open)) == OK ==>
                FlushReports(sink.store.hashes(sink.session), old(Snapshot(sink, adapter)), fails, status, count,
                             batchRoot)
      ensures status == OK ==> count == old(leafCount) && leafCount == 0
      ensures status != OK ==> Evidence() == old(Evidence())
      ensures sink.OthersUntouched()
    {
      count, batchRoot, fails := 0, ZERO_ROOT, false;
      status := CheckFlush(expectedRoot);
      if status != OK {
        return;
      }
      status, count, batchRoot, fails := SendFlush(sink, adapter, expectedRoot, fault);
    }

    /** The same, from the point where the flush is admitted. */
    method SendFlush(sink: Sink, adapter: Adapter, ghost expectedRoot: Digest, fault: nat)
      returns (status: Status, count: nat, batchRoot: Digest, ghost fails: bool)
      requires Valid() && AdmitFlush(Evidence(), expectedRoot, batchedCapable, true) == OK
      modifies this, leaves, sink.store
      ensures Valid() && queue.Events() == old(queue.Events())
      ensures Snapshot(sink, adapter)
           == FlushedBy(sink.store.hashes(sink.session), old(Snapshot(sink, adapter)), expectedRoot, batchedCapable,
                        fails)
      ensures fault >= NO_FAULT ==> !fails
      ensures FlushReports(sink.store.hashes(sink.session), old(Snapshot(sink, adapter)), fails, status, count,
                           batchRoot)
      ensures status == OK ==> count == old(leafCount) && leafCount == 0
      ensures status != OK ==> Evidence() == old(Evidence())
      ensures sink.OthersUntouched()
    {
      count, batchRoot := 0, ZERO_ROOT;
      ghost var before := Snapshot(sink, adapter);
      ghost var hash := sink.store.hashes(sink.session);
      var staged := leaves[..leafCount];
      var digests := seq(|staged|, i requires 0 <= i < |staged| => staged[i].digest);
      assert digests == Mediation.LeafDigests(Evidence());
      var answer := sink.Flush(digests, executionRoot, fault);
      fails := (sink.Journal(), answer) != Flushing(hash, before.journal, before.kernel, false);
      FlushedIs(hash, before, expectedRoot, batchedCapable, fails, sink.Journal(), answer);
      if answer.status != OK {
        return answer.status, count, batchRoot, fails;
      }
      if !answer.wellFormed {
        return MALFORMED_DESCRIPTOR, count, batchRoot, fails;
      }
      count, batchRoot := leafCount, answer.batchRoot;
      executionRoot := answer.afterRoot;
      leafCount := 0;
      status := OK;
    }

    // ---------- reconciliation ----------

    /** `session_reconcile_evidence`: a session without history takes the durable history over, or stays as it is.
        `outstanding` is the work that the session was opened with. */
    method Reconcile(rec: J.Reconciliation, outstanding: nat) returns (status: Status)
      requires Valid()
      modifies this, nonces, nonces.keys, nonces.used, leaves
      ensures Valid() && queue.Events() == old(queue.Events())
      ensures (status, Evidence())
           == ReconcileKernel(old(Evidence()), old(state == Open && queue.Events() == []) && outstanding == 0, rec)
      ensures status == OK ==> state == Open
    {
      var wellFormed := CheckReconciliation(rec);
      if !wellFormed {
        return MALFORMED_DESCRIPTOR;
      }
      if state != Open || queue.count != 0 || outstanding != 0 || mediationSequence != 0
         || nonces.count != 0 || semanticRoot.Some? || executionRoot != ZERO_ROOT {
        return INVALID_STATE;
      }
      var distinct := LoadNonces(nonces, rec.nonces);
      if !distinct {
        return TOKEN_REPLAY;
      }
      semanticRoot := Some(rec.semanticRoot);
      executionRoot := rec.executionRoot;
      mediationSequence := rec.mediationSequence;
      LoadLeaves(rec);
      status := OK;
    }

    static method CheckReconciliation(rec: J.Reconciliation) returns (ok: bool)
      ensures ok <==> WellFormedReconciliation(rec)
    {
      if |rec.nonces| > MAX_CONSUMED_NONCES || |rec.stagedSequences| > MAX_STAGED_LEAVES
         || |rec.stagedSequences| > |rec.nonces| || |rec.nonces| != rec.mediationSequence
         || |rec.stagedDigests| != |rec.stagedSequences| {
        return false;
      }
      for i := 0 to |rec.stagedSequences|
        invariant StagedInOrder(rec.stagedSequences[..i], rec.mediationSequence)
      {
        if rec.stagedSequences[i] == 0 || rec.stagedSequences[i] > rec.mediationSequence
           || (i != 0 && rec.stagedSequences[i] <= rec.stagedSequences[i - 1]) {
          return false;
        }
        assert rec.stagedSequences[..i + 1] == rec.stagedSequences[..i] + [rec.stagedSequences[i]];
      }
      assert rec.stagedSequences[..|rec.stagedSequences|] == rec.stagedSequences;
      return true;
    }

    /** Fills an empty table, or leaves it empty if a nonce occurs twice. */
    static method LoadNonces(table: N.Table, list: seq<Nonce>) returns (distinct: bool)
      requires table.Valid() && table.count == 0 && |list| <= MAX_CONSUMED_NONCES
      modifies table, table.keys, table.used
      ensures table.Valid() && distinct == Distinct(list)
      ensures table.Contents() == if distinct then NonceSet(list) else {}
      ensures table.count <= MAX_CONSUMED_NONCES
    {
      for i := 0 to |list|
        invariant table.Valid() && table.count == i
        invariant Distinct(list[..i]) && table.Contents() == NonceSet(list[..i])
      {
        var loaded := LoadNonce(table, list, i);
        if !loaded {
          return false;
        }
      }
      assert list[..|list|] == list;
      return true;
    }

    /** Adds nonce `i`, or clears the table if it is there already. */
    static method LoadNonce(table: N.Table, list: seq<Nonce>, i: nat) returns (loaded: bool)
      requires table.Valid() && table.count == i < |list| <= MAX_CONSUMED_NONCES
      requires Distinct(list[..i]) && table.Contents() == NonceSet(list[..i])
      modifies table, table.keys, table.used
      ensures table.Valid() && table.count == if loaded then i + 1 else 0
      ensures loaded ==> Distinct(list[..i + 1]) && table.Contents() == NonceSet(list[..i + 1])
      ensures !loaded ==> !Distinct(list) && table.Contents() == {}
    {
      NonceSetGrows(list, i);
      var index, found := table.Slot(list[i]);
      if found || index == N.CAPACITY {
        table.Clear();
        return false;
      }
      table.Insert(index, list[i]);
      return true;
    }

    method LoadLeaves(rec: J.Reconciliation)
      requires Valid() && leafCount == 0 && |rec.stagedDigests| == |rec.stagedSequences| <= MAX_STAGED_LEAVES
      requires |rec.stagedSequences| <= mediationSequence
      modifies this`leafCount, leaves
      ensures Valid() && leaves[..leafCount] == RestoredLeaves(rec)
    {
      for i := 0 to |rec.stagedSequences|
        invariant leafCount == i
        invariant leaves[..i] == RestoredLeaves(rec)[..i]
      {
        leaves[i] := StagedLeaf(rec.stagedSequences[i], rec.stagedDigests[i]);
        leafCount := leafCount + 1;
      }
    }
  }

  /** The two share no storage. */
  ghost predicate Disjoint(s: Session, t: Session) {
    s.Repr() !! t.Repr()
  }

  /** An admitted request goes through the whole protocol; any other changes nothing. */
  ghost predicate Mediates(hash: J.Hash, before: System, after: System, r: Request, capable: bool,
                           answer: AdapterAnswer, root: Digest, fails: bool, status: Status)
  {
    after == if status == OK then Mediated(hash, before, r, capable, answer, root, fails) else before
  }

  /** The result reports what happened and where the session now stands. */
  ghost predicate Tells(result: MediationResult, r: Request, a: AdapterAnswer, e: EvidenceAnswer, after: Evidence) {
    var outcome := OutcomeOf(a, r.durability);
    result == MediationResult(ReportedOutcome(r, outcome, e), AdapterStatus(a), EvidenceStatus(r, outcome, e),
                              after.sequence, after.executionRoot)
  }

  /** The same, with the answer that the sink gave in this mediation. */
  ghost predicate Reports(hash: J.Hash, before: System, r: Request, capable: bool, answer: AdapterAnswer, root: Digest,
                          fails: bool, result: MediationResult, after: Evidence)
  {
    var phase := UpToReceipt(hash, before, r, capable, answer, root, fails).phase;
    phase.Finalized? && Tells(result, r, answer, phase.evidence, after)
  }

  /** One call was added, and its view is the whole run first..last of the queue. */
  ghost predicate Shown(before: seq<Invocation>, after: seq<Invocation>, ev: seq<Event>, first: nat, last: nat) {
    && |after| == |before| + 1 && after[..|before|] == before
    && after[|before|].itemCount == |after[|before|].view| == last - first + 1
    && exists at: nat :: Enclosed(ev, at, first, last) && after[|before|].view == ev[at..at + (last - first) + 1]
  }

  /** A flush succeeds exactly if the journal could commit the batch from the session's root; it reports how many leaves
      went into it and their Merkle root. */
  ghost predicate FlushReports(hash: J.Hash, before: System, fails: bool, status: Status, count: nat, batchRoot: Digest)
  {
    && (status == OK <==> Flushing(hash, before.journal, before.kernel, fails).1.status == OK)
    && (status == OK ==> count == |before.kernel.staged|
                         && batchRoot == hash.merkle(Mediation.LeafDigests(before.kernel)))
    && (status == OK || status == INTERNAL_INVARIANT)
  }

  /** A request goes on to the adapter exactly if its durability is admitted, its handles and token are bound, the queue
      holds its events and the token is fresh; otherwise the first of these that fails decides. */
  lemma AdmissionIs(s: Session, r: Request, binding: Status, flushable: bool)
    requires s.Valid()
    ensures var admission := s.Admission(r, binding, flushable);
            && (admission == OK
                <==> Durable(s.Evidence(), r.durability, s.batchedCapable, flushable) && binding == OK
                     && HasView(s.queue.Events(), r.first, r.last) && AdmitToken(s.Evidence(), r) == OK)
            && (!Durable(s.Evidence(), r.durability, s.batchedCapable, flushable) ==>
                  admission == AdmitDurability(s.Evidence(), r.durability, s.batchedCapable, flushable))
            && (Durable(s.Evidence(), r.durability, s.batchedCapable, flushable) && binding != OK ==>
                  admission == binding)
            && (Durable(s.Evidence(), r.durability, s.batchedCapable, flushable) && binding == OK ==>
                  if HasView(s.queue.Events(), r.first, r.last) then admission == AdmitToken(s.Evidence(), r)
                  else admission == INTERNAL_INVARIANT)
  {
    DurabilityIs(s.Evidence(), r.durability, s.batchedCapable, flushable);
    TokenIs(s.Evidence(), r);
  }

  lemma SliceOfPrefix<T>(s: seq<T>, n: nat, a: nat, b: nat)
    requires a <= b <= n <= |s|
    ensures s[..n][a..b] == s[a..b]
  {
  }

  lemma NonceSetGrows(list: seq<Nonce>, i: nat)
    requires i < |list|
    ensures NonceSet(list[..i + 1]) == NonceSet(list[..i]) + {list[i]}
    ensures Distinct(list[..i + 1]) <==> Distinct(list[..i]) && list[i] !in NonceSet(list[..i])
    ensures Distinct(list) ==> Distinct(list[..i + 1])
  {
    forall n | n in NonceSet(list[..i]) + {list[i]} ensures n in NonceSet(list[..i + 1]) {
      if n == list[i] {
        assert list[..i + 1][i] == n;
      } else {
        var k :| 0 <= k < i && list[..i][k] == n;
        assert list[..i + 1][k] == n;
      }
    }
  }

  ghost predicate Admitted(s: System, r: Request, capable: bool, reserved: J.Tables) {
    && s.phase.Idle?
    && AdmitDurability(s.kernel, r.durability, capable, true) == OK && AdmitToken(s.kernel, r) == OK
    && Reserving(s.journal, ReservationFor(s.kernel, r), false) == Some(reserved)
  }

  /** The protocol's four mediation steps in a row. */
  lemma MediatedIs(hash: J.Hash, s: System, r: Request, capable: bool, answer: AdapterAnswer, root: Digest, fails: bool,
                   reserved: J.Tables, c: J.Receipt, finalized: J.Tables, e: EvidenceAnswer)
    requires Admitted(s, r, capable, reserved)
    requires c == SinkReceipt(s.kernel.sequence + 1, r, OutcomeOf(answer, r.durability), answer, root)
    requires Answers(hash, reserved, c, answer.input, fails, finalized, e)
    ensures Mediated(hash, s, r, capable, answer, root, fails)
         == System(Conclude(Consume(s.kernel, r), r, OutcomeOf(answer, r.durability), e), finalized, Idle,
                   s.executed + [r.nonce])
    ensures UpToReceipt(hash, s, r, capable, answer, root, fails).phase
         == Finalized(r, OutcomeOf(answer, r.durability), e)
  {
    var s2 := System(Consume(s.kernel, r), reserved, Executed(r, answer), s.executed + [r.nonce]);
    StartsAs(hash, s, r, capable, answer, reserved);
    EndsAs(hash, s2, r, answer, root, fails, c, finalized, e);
  }

  lemma StartsAs(hash: J.Hash, s: System, r: Request, capable: bool, answer: AdapterAnswer, reserved: J.Tables)
    requires Admitted(s, r, capable, reserved)
    ensures Next(hash, Next(hash, s, BeginMediate(r, capable, false)), Execute(answer))
         == System(Consume(s.kernel, r), reserved, Executed(r, answer), s.executed + [r.nonce])
  {
    var s1 := Next(hash, s, BeginMediate(r, capable, false));
    assert s1 == System(Consume(s.kernel, r), reserved, Reserved(r), s.executed);
  }

  lemma EndsAs(hash: J.Hash, s: System, r: Request, answer: AdapterAnswer, root: Digest, fails: bool,
               c: J.Receipt, finalized: J.Tables, e: EvidenceAnswer)
    requires s.phase == Executed(r, answer) && c == ReceiptOf(s, root)
    requires Answers(hash, s.journal, c, answer.input, fails, finalized, e)
    ensures Next(hash, Next(hash, s, Finalize(root, fails)), TakeReceipt)
         == System(Conclude(s.kernel, r, OutcomeOf(answer, r.durability), e), finalized, Idle, s.executed)
    ensures Next(hash, s, Finalize(root, fails)).phase == Finalized(r, OutcomeOf(answer, r.durability), e)
  {
    var s3 := Next(hash, s, Finalize(root, fails));
    assert s3 == FinalizeMove(s, (finalized, e));
  }

  lemma FlushedIs(hash: J.Hash, s: System, root: Digest, capable: bool, fails: bool, flushed: J.Tables, a: FlushAnswer)
    requires s.phase.Idle? && AdmitFlush(s.kernel, root, capable, true) == OK
    requires Flushing(hash, s.journal, s.kernel, fails) == (flushed, a)
    ensures FlushedBy(hash, s, root, capable, fails)
         == System(ConcludeFlush(s.kernel, a).1, flushed, Idle, s.executed)
  {
    var s1 := Next(hash, s, BeginFlush(root, capable, fails));
    assert s1 == System(s.kernel, flushed, Flushed(a), s.executed);
  }

  lemma EnclosedIsFound(ev: seq<Event>, k: nat, at: nat, end: nat, first: nat, last: nat)
    requires Sorted(ev) && at <= |ev| && end <= |ev| && Enclosed(ev, k, first, last)
    requires forall i :: 0 <= i < at ==> ev[i].header.sequence < first
    requires forall i :: at <= i < |ev| ==> ev[i].header.sequence >= first
    requires forall i :: 0 <= i < end ==> ev[i].header.sequence < last
    requires forall i :: end <= i < |ev| ==> ev[i].header.sequence >= last
    ensures at == k && end == k + (last - first)
  {
    BoundIsPosition(ev, at, k, first);
    BoundIsPosition(ev, end, k + (last - first), last);
  }

  lemma BoundIsPosition(ev: seq<Event>, bound: nat, k: nat, sequence: nat)
    requires Sorted(ev) && bound <= |ev| && k < |ev| && ev[k].header.sequence == sequence
    requires forall i :: 0 <= i < bound ==> ev[i].header.sequence < sequence
    requires forall i :: bound <= i < |ev| ==> ev[i].header.sequence >= sequence
    ensures bound == k
  {
    if bound < |ev| {
      assert ev[bound].header.sequence >= sequence;
    }
  }
}
