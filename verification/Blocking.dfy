/** What a mediation can lead to, as far as it is decided before the call: whether it is reserved, and whether it can
    leave the session blocked. */
module Blocking {
  import opened Basics
  import opened RuntimeStatus
  import opened Mediation
  import opened JournalShape
  import opened Coupling
  import opened CouplingProofs
  import opened CouplingTheorems
  import J = Journal

  // ---------- which calls start ----------

  lemma UnresolvedIff(hash: J.Hash, t: J.Tables)
    requires WellShaped(hash, t)
    ensures J.HasUnresolved(t) <==> Resolved(t) != Total(t)
  {
    if J.HasUnresolved(t) {
      var i :| i in t.reservations && t.reservations[i].state == J.Reserved;
      OpenReservationIsLast(hash, t, i);
    }
  }

  /** Between calls an admitted token is reserved exactly if its range is valid and no earlier effect is open. */
  lemma ReserveSucceedsIff(hash: J.Hash, k: Evidence, t: J.Tables, r: Request)
    requires WellShaped(hash, t) && Coupled(k, t) && AdmitToken(k, r) == OK
    ensures J.Reserve(t, ReservationFor(k, r)).Ok? <==> 0 < r.first <= r.last && !J.HasUnresolved(t)
  {
    ReservationIsNew(hash, k, t, r);
  }

  /** The call passes every check before the effect. */
  ghost predicate Starts(s: System, r: Request, capable: bool) {
    && s.phase.Idle? && AdmitDurability(s.kernel, r.durability, capable, true) == OK
    && AdmitToken(s.kernel, r) == OK && 0 < r.first <= r.last && !J.HasUnresolved(s.journal)
  }

  /** The state right after the effect has run. */
  function Performed(hash: J.Hash, s: System, r: Request, capable: bool, answer: AdapterAnswer): System {
    Next(hash, Next(hash, s, BeginMediate(r, capable, false)), Execute(answer))
  }

  lemma PerformedIs(hash: J.Hash, s: System, r: Request, capable: bool, answer: AdapterAnswer)
    requires Invariant(hash, s) && Starts(s, r, capable)
    ensures var m := Performed(hash, s, r, capable, answer);
            && Invariant(hash, m) && m.phase == Executed(r, answer)
            && m.kernel == Consume(s.kernel, r) && m.executed == s.executed + [r.nonce]
            && J.Reserve(s.journal, ReservationFor(s.kernel, r)) == Ok(m.journal)
  {
    ReserveSucceedsIff(hash, s.kernel, s.journal, r);
    NextKeepsInvariant(hash, s, BeginMediate(r, capable, false));
    NextKeepsInvariant(hash, Next(hash, s, BeginMediate(r, capable, false)), Execute(answer));
  }

  // ---------- which calls can block ----------

  /** With a working database the sink accepts what the effect turned out to be. */
  ghost predicate Finalizes(hash: J.Hash, s: System, r: Request, capable: bool, answer: AdapterAnswer, root: Digest) {
    var phase := UpToReceipt(hash, s, r, capable, answer, root, false).phase;
    phase.Finalized? && phase.evidence.status == OK
  }

  lemma FinalizesIff(hash: J.Hash, s: System, r: Request, capable: bool, answer: AdapterAnswer, root: Digest)
    requires Invariant(hash, s) && Starts(s, r, capable)
    ensures Finalizes(hash, s, r, capable, answer, root)
       <==> OutcomeOf(answer, r.durability) == J.Buffered || |s.kernel.staged| == 0
  {
    PerformedIs(hash, s, r, capable, answer);
    FinalizeSucceedsIff(hash, Performed(hash, s, r, capable, answer), root);
  }

  /** Before the effect runs: whatever the adapter will answer can be recorded, exactly if no leaf is staged. */
  lemma EveryAnswerFinalizesIff(hash: J.Hash, s: System, r: Request, capable: bool)
    requires Invariant(hash, s) && Starts(s, r, capable)
    ensures (forall answer, root :: Finalizes(hash, s, r, capable, answer, root)) <==> |s.kernel.staged| == 0
  {
    forall answer, root
      ensures Finalizes(hash, s, r, capable, answer, root)
         <==> OutcomeOf(answer, r.durability) == J.Buffered || |s.kernel.staged| == 0
    {
      FinalizesIff(hash, s, r, capable, answer, root);
    }
    if |s.kernel.staged| > 0 {
      var failed := AdapterAnswer(INTERNAL_INVARIANT, true, OK, WIRE_COMMITTED, ZERO_ROOT, ZERO_ROOT);
      assert !Finalizes(hash, s, r, capable, failed, ZERO_ROOT);
    }
  }

  /** With a working database a call that starts blocks the session exactly if it comes out unbuffered behind staged
      leaves. */
  lemma CallBlocksIff(hash: J.Hash, s: System, r: Request, capable: bool, answer: AdapterAnswer, root: Digest)
    requires Invariant(hash, s) && Starts(s, r, capable)
    ensures Blocked(Mediated(hash, s, r, capable, answer, root, false))
       <==> OutcomeOf(answer, r.durability) != J.Buffered && |s.kernel.staged| > 0
  {
    PerformedIs(hash, s, r, capable, answer);
    MediatedIsFinished(hash, s, r, capable, answer, root, false);
    FinishBlocksIff(hash, Performed(hash, s, r, capable, answer), root);
  }

  lemma FinishBlocksIff(hash: J.Hash, p: System, root: Digest)
    requires Invariant(hash, p) && p.phase.Executed?
    ensures Blocked(Next(hash, Next(hash, p, Finalize(root, false)), TakeReceipt))
       <==> ExecutedOutcome(p) != J.Buffered && |p.kernel.staged| > 0
  {
    if ExecutedOutcome(p) != J.Buffered && |p.kernel.staged| > 0 {
      UnbufferedEffectBehindLeavesBlocks(hash, p, root, false);
    } else {
      FinalizeSucceedsIff(hash, p, root);
      var c := ReceiptOf(p, root);
      var u := SinkFinalize(hash, p.journal, c, p.phase.answer.input).value;
      FinalizedIsResolved(hash, p.journal, c, p.phase.answer.input, u);
      assert Next(hash, p, Finalize(root, false)) == FinalizeMove(p, (u, SinkAnswer(hash, c, u)));
    }
  }

  lemma FinalizedIsResolved(hash: J.Hash, t: J.Tables, c: J.Receipt, input: Digest, u: J.Tables)
    requires WellShaped(hash, t) && SinkFinalize(hash, t, c, input) == Ok(u)
    ensures !J.HasUnresolved(u)
  {
    if c.outcome == J.Buffered {
      StageKeepsShape(hash, t, c, input);
    } else {
      AppendKeepsShape(hash, t, c);
    }
    UnresolvedIff(hash, u);
  }

  /** A strict call behind staged leaves blocks the session, whatever the adapter answers and the database does. */
  lemma StrictCallBlocks(hash: J.Hash, s: System, r: Request, capable: bool, answer: AdapterAnswer, root: Digest,
                         fails: bool)
    requires Invariant(hash, s) && Starts(s, r, capable)
    ensures r.durability == Strict && |s.kernel.staged| > 0 ==>
              Blocked(Mediated(hash, s, r, capable, answer, root, fails))
  {
    PerformedIs(hash, s, r, capable, answer);
    MediatedIsFinished(hash, s, r, capable, answer, root, fails);
    if r.durability == Strict && |s.kernel.staged| > 0 {
      StrictFinishBlocks(hash, Performed(hash, s, r, capable, answer), root, fails);
    }
  }

  lemma StrictFinishBlocks(hash: J.Hash, p: System, root: Digest, fails: bool)
    requires Invariant(hash, p) && p.phase.Executed? && p.phase.r.durability == Strict && |p.kernel.staged| > 0
    ensures Blocked(Next(hash, Next(hash, p, Finalize(root, fails)), TakeReceipt))
  {
    UnbufferedEffectBehindLeavesBlocks(hash, p, root, fails);
  }

  // ---------- buffered calls ----------

  /** One more staged row over the same head, and nothing open. */
  ghost predicate StagedInto(t: J.Tables, v: J.Tables, r: J.Reservation) {
    && !J.HasUnresolved(v) && Total(v) == Total(t) + 1 && J.HeadSequence(v) == J.HeadSequence(t)
    && v.reservations == t.reservations[Total(t) + 1 := J.RowOf(r).(state := J.Staged)]
  }

  /** The state after a buffered effect: the root stays, the nonce is spent and one leaf is staged. */
  ghost predicate BufferedInto(s: System, m: System, r: Request) {
    && m.phase.Idle? && StagedInto(s.journal, m.journal, ReservationFor(s.kernel, r))
    && m.executed == s.executed + [r.nonce]
    && m.kernel.executionRoot == s.kernel.executionRoot && m.kernel.semanticRoot == Some(r.semanticRoot)
    && m.kernel.nonces == s.kernel.nonces + {r.nonce} && |m.kernel.staged| == |s.kernel.staged| + 1
  }

  /** The journal's part: a new row is reserved and then staged. */
  lemma ReservedThenStaged(hash: J.Hash, t: J.Tables, r: J.Reservation, u: J.Tables, c: J.Receipt, input: Digest,
                           v: J.Tables)
    requires WellShaped(hash, t) && r.sequence !in t.reservations && J.Reserve(t, r) == Ok(u)
    requires c.sequence == r.sequence && J.Stage(hash, u, c, input) == Ok(v)
    ensures StagedInto(t, v, r)
  {
    NewRow(hash, t, r, u);
    StagedRow(hash, u, c, input, v);
    StagedUpdates(hash, u, c, input, v);
    RowUpdatedTwice(t.reservations, r.sequence, J.RowOf(r));
  }

  lemma RowUpdatedTwice(rows: map<nat, J.Row>, n: nat, row: J.Row)
    ensures rows[n := row][n := rows[n := row][n].(state := J.Staged)] == rows[n := row.(state := J.Staged)]
  {
  }

  lemma StagedRow(hash: J.Hash, u: J.Tables, c: J.Receipt, input: Digest, v: J.Tables)
    requires WellShaped(hash, u) && J.Stage(hash, u, c, input) == Ok(v)
    ensures !J.HasUnresolved(v) && Total(v) == Total(u) && J.HeadSequence(v) == J.HeadSequence(u)
  {
    StageKeepsShape(hash, u, c, input);
    UnresolvedIff(hash, v);
  }

  lemma StagedUpdates(hash: J.Hash, u: J.Tables, c: J.Receipt, input: Digest, v: J.Tables)
    requires J.Stage(hash, u, c, input) == Ok(v)
    ensures c.sequence in u.reservations && v.reservations == J.WithState(u, c.sequence, J.Staged)
  {
  }

  lemma TakenReceipt(hash: J.Hash, p: System, r: Request, answer: AdapterAnswer, root: Digest, v: J.Tables)
    requires p.phase == Executed(r, answer) && OutcomeOf(answer, r.durability) == J.Buffered
    requires J.Stage(hash, p.journal, ReceiptOf(p, root), answer.input) == Ok(v)
    ensures var m := Next(hash, Next(hash, p, Finalize(root, false)), TakeReceipt);
            && m.phase.Idle? && m.journal == v && m.executed == p.executed
            && m.kernel.executionRoot == p.kernel.executionRoot && m.kernel.semanticRoot == p.kernel.semanticRoot
            && m.kernel.nonces == p.kernel.nonces && |m.kernel.staged| == |p.kernel.staged| + 1
  {
    var c := ReceiptOf(p, root);
    SinkAnswerAccepted(hash, c, v, r, J.Buffered, answer, p.kernel.sequence + 1, root);
    assert Next(hash, p, Finalize(root, false)) == FinalizeMove(p, (v, SinkAnswer(hash, c, v)));
  }

  lemma BufferedCallStages(hash: J.Hash, s: System, r: Request, capable: bool, answer: AdapterAnswer, root: Digest)
    requires Invariant(hash, s) && Starts(s, r, capable) && OutcomeOf(answer, r.durability) == J.Buffered
    ensures BufferedInto(s, Mediated(hash, s, r, capable, answer, root, false), r)
  {
    PerformedIs(hash, s, r, capable, answer);
    var p := Performed(hash, s, r, capable, answer);
    BufferedIsStaged(hash, p, root);
    var v := J.Stage(hash, p.journal, ReceiptOf(p, root), answer.input).value;
    ReservationIsNew(hash, s.kernel, s.journal, r);
    ReservedThenStaged(hash, s.journal, ReservationFor(s.kernel, r), p.journal, ReceiptOf(p, root), answer.input, v);
    TakenReceipt(hash, p, r, answer, root, v);
    MediatedIsFinished(hash, s, r, capable, answer, root, false);
    StagedIsBuffered(s, p, r, Mediated(hash, s, r, capable, answer, root, false));
  }

  lemma MediatedIsFinished(hash: J.Hash, s: System, r: Request, capable: bool, answer: AdapterAnswer, root: Digest,
                           fails: bool)
    ensures Mediated(hash, s, r, capable, answer, root, fails)
         == Next(hash, Next(hash, Performed(hash, s, r, capable, answer), Finalize(root, fails)), TakeReceipt)
  {
  }

  /** Reserving, performing and staging add up. */
  lemma StagedIsBuffered(s: System, p: System, r: Request, m: System)
    requires p.kernel == Consume(s.kernel, r) && p.executed == s.executed + [r.nonce]
    requires AdmitToken(s.kernel, r) == OK
    requires m.phase.Idle? && m.executed == p.executed
    requires m.kernel.executionRoot == p.kernel.executionRoot && m.kernel.semanticRoot == p.kernel.semanticRoot
    requires m.kernel.nonces == p.kernel.nonces && |m.kernel.staged| == |p.kernel.staged| + 1
    requires StagedInto(s.journal, m.journal, ReservationFor(s.kernel, r))
    ensures BufferedInto(s, m, r)
  {
  }

  lemma BufferedIsStaged(hash: J.Hash, p: System, root: Digest)
    requires Invariant(hash, p) && p.phase.Executed? && ExecutedOutcome(p) == J.Buffered
    ensures J.Stage(hash, p.journal, ReceiptOf(p, root), p.phase.answer.input).Ok?
  {
    FinalizeSucceedsIff(hash, p, root);
  }

  // ---------- runs ----------

  /** The actions of one mediation. */
  function CallActions(r: Request, answer: AdapterAnswer, root: Digest): seq<Action> {
    [BeginMediate(r, true, false), Execute(answer), Finalize(root, false), TakeReceipt]
  }

  lemma RunFromStep(hash: J.Hash, s: System, actions: seq<Action>, a: Action)
    ensures RunFrom(hash, s, actions + [a]) == Next(hash, RunFrom(hash, s, actions), a)
  {
    assert (actions + [a])[..|actions|] == actions;
  }

  lemma RunFromCall(hash: J.Hash, s: System, actions: seq<Action>, r: Request, answer: AdapterAnswer, root: Digest)
    ensures RunFrom(hash, s, actions + CallActions(r, answer, root))
         == Mediated(hash, RunFrom(hash, s, actions), r, true, answer, root, false)
  {
    var a1 := actions + [BeginMediate(r, true, false)];
    var a2 := a1 + [Execute(answer)];
    var a3 := a2 + [Finalize(root, false)];
    RunFromStep(hash, s, actions, BeginMediate(r, true, false));
    RunFromStep(hash, s, a1, Execute(answer));
    RunFromStep(hash, s, a2, Finalize(root, false));
    RunFromStep(hash, s, a3, TakeReceipt);
    assert actions + CallActions(r, answer, root) == a3 + [TakeReceipt];
  }

  lemma {:induction false} RunIsFromInitial(hash: J.Hash, actions: seq<Action>)
    ensures Run(hash, actions) == RunFrom(hash, INITIAL, actions)
  {
    if |actions| > 0 {
      RunIsFromInitial(hash, actions[..|actions| - 1]);
    }
  }

  const FIRST := Request(Batched, 1, 1, Nonce(0, 1), ZERO_ROOT, ZERO_ROOT)
  const SECOND := Request(Batched, 2, 2, Nonce(0, 2), ZERO_ROOT, ZERO_ROOT)
  const DONE := AdapterAnswer(OK, true, OK, WIRE_COMMITTED, ZERO_ROOT, ZERO_ROOT)

  lemma FirstStages(hash: J.Hash)
    ensures var m := Run(hash, CallActions(FIRST, DONE, ZERO_ROOT));
            Invariant(hash, m) && BufferedInto(INITIAL, m, FIRST)
  {
    InitialInvariant(hash);
    RunFromCall(hash, INITIAL, [], FIRST, DONE, ZERO_ROOT);
    assert [] + CallActions(FIRST, DONE, ZERO_ROOT) == CallActions(FIRST, DONE, ZERO_ROOT);
    RunIsFromInitial(hash, CallActions(FIRST, DONE, ZERO_ROOT));
    assert OutcomeOf(DONE, Batched) == J.Buffered;
    BufferedCallStages(hash, INITIAL, FIRST, true, DONE, ZERO_ROOT);
    RunKeepsInvariant(hash, CallActions(FIRST, DONE, ZERO_ROOT));
  }

  /** A run that blocks: one buffered effect, then one that is strict or whose adapter does not commit. */
  lemma BufferedThenUnbufferedBlocks(hash: J.Hash, durability: Durability, answer: AdapterAnswer, root: Digest)
    requires durability == Strict || durability == Batched
    requires OutcomeOf(answer, durability) != J.Buffered
    ensures Blocked(Run(hash, CallActions(FIRST, DONE, ZERO_ROOT)
                              + CallActions(SECOND.(durability := durability), answer, root)))
  {
    var a, r := CallActions(FIRST, DONE, ZERO_ROOT), SECOND.(durability := durability);
    FirstStages(hash);
    RunIsFromInitial(hash, a);
    RunFromCall(hash, INITIAL, a, r, answer, root);
    RunIsFromInitial(hash, a + CallActions(r, answer, root));
    CallBlocksIff(hash, Run(hash, a), r, true, answer, root);
  }
}
