/** What the journal says of the effects that were run: over whole runs, receipt and leaf of mediation n tell what was
    asked for in mediation n and what the adapter answered. */
module RecordedEffects {
  import opened Basics
  import opened RuntimeStatus
  import opened OrderedRows
  import opened Mediation
  import opened JournalShape
  import opened Coupling
  import opened CouplingProofs
  import opened CouplingTheorems
  import J = Journal

  /** An effect that was run: what was asked for, what the adapter answered, and the root that its finalization was
      given for a committed effect. */
  datatype Effect = Effect(r: Request, answer: AdapterAnswer, root: Option<Digest>)

  /** The effects of a run by mediation number. An effect is entered when the adapter runs. */
  ghost function Effects(hash: J.Hash, actions: seq<Action>): map<nat, Effect> {
    if |actions| == 0 then map[]
    else
      var before := actions[..|actions| - 1];
      Noted(Run(hash, before), Effects(hash, before), actions[|actions| - 1])
  }

  ghost function Noted(s: System, fx: map<nat, Effect>, a: Action): map<nat, Effect> {
    if a.Execute? && s.phase.Reserved? then fx[s.kernel.sequence + 1 := Effect(s.phase.r, a.answer, None)]
    else if a.Finalize? && s.phase.Executed?
    then fx[s.kernel.sequence + 1 := Effect(s.phase.r, s.phase.answer, Some(a.committedRoot))]
    else fx
  }

  /** The receipt tells the effect: range, nonce and roots of the request, the outcome that the answer calls for, and
      what the adapter observed. */
  ghost predicate ReceiptTells(c: J.Receipt, n: nat, fx: map<nat, Effect>) {
    && n in fx && fx[n].root.Some?
    && CallsFor(fx[n].answer, fx[n].r.durability, c.outcome)
    && Describes(c, n, fx[n].r, c.outcome, fx[n].answer, fx[n].root.value)
  }

  /** The leaf keeps the adapter's input digest, of an effect that was confirmed in batched durability. */
  ghost predicate LeafTells(l: J.LeafRow, n: nat, fx: map<nat, Effect>) {
    n in fx && l.inputDigest == fx[n].answer.input && Confirmed(fx[n].answer) && fx[n].r.durability.Batched?
  }

  ghost predicate JournalTells(t: J.Tables, fx: map<nat, Effect>) {
    && (forall n :: n in t.receipts ==> ReceiptTells(t.receipts[n], n, fx))
    && (forall n :: n in t.leaves ==> n in t.receipts && LeafTells(t.leaves[n], n, fx))
  }

  /** An effect in flight is entered, an effect still to be run is not. */
  ghost predicate PhaseTells(s: System, fx: map<nat, Effect>) {
    && (s.phase.Reserved? ==> s.kernel.sequence + 1 !in fx)
    && (s.phase.Executed? ==> s.kernel.sequence + 1 in fx
                              && fx[s.kernel.sequence + 1] == Effect(s.phase.r, s.phase.answer, None))
  }

  ghost predicate Told(s: System, fx: map<nat, Effect>) {
    JournalTells(s.journal, fx) && PhaseTells(s, fx) && FromRows(s.journal, fx)
  }

  lemma FinalizeTells(hash: J.Hash, s: System, fx: map<nat, Effect>, root: Digest, fails: bool,
                      f: (J.Tables, EvidenceAnswer))
    requires JournalTells(s.journal, fx) && s.phase.Executed? && s.kernel.sequence + 1 !in s.journal.receipts
    requires f == Finalizing(hash, s.journal, ReceiptOf(s, root), s.phase.answer.input, fails)
    ensures JournalTells(f.0, fx[s.kernel.sequence + 1 := Effect(s.phase.r, s.phase.answer, Some(root))])
  {
    var n, r, a, outcome := s.kernel.sequence + 1, s.phase.r, s.phase.answer, ExecutedOutcome(s);
    var fx' := fx[n := Effect(r, a, Some(root))];
    FinalizeRecords(hash, s.journal, n, r, outcome, a, root);
    OutcomeIs(a, r.durability, outcome);
    StillTold(s.journal, fx, fx', n);
    match SinkFinalize(hash, s.journal, ReceiptOf(s, root), a.input)
    case Err(_) =>
    case Ok(u) => RecordTells(s.journal, u, fx', n, r, outcome, a, root);
  }

  /** What is recorded of other mediations does not depend on the one in flight, of which nothing is. */
  lemma StillTold(t: J.Tables, fx: map<nat, Effect>, fx': map<nat, Effect>, n: nat)
    requires JournalTells(t, fx) && n !in t.receipts
    requires forall k :: k in fx && k != n ==> k in fx' && fx'[k] == fx[k]
    ensures JournalTells(t, fx')
  {
  }

  lemma RecordTells(t: J.Tables, u: J.Tables, fx: map<nat, Effect>, n: nat, r: Request, outcome: J.Outcome,
                    a: AdapterAnswer, root: Digest)
    requires JournalTells(t, fx) && n in fx && fx[n] == Effect(r, a, Some(root))
    requires CallsFor(a, r.durability, outcome) && Records(t, u, n, r, outcome, a, root)
    ensures JournalTells(u, fx)
  {
  }

  lemma FlushTells(hash: J.Hash, t: J.Tables, k: Evidence, fx: map<nat, Effect>, fails: bool)
    ensures JournalTells(t, fx) ==> JournalTells(Flushing(hash, t, k, fails).0, fx)
    ensures BufferedHaveLeaves(t) ==> BufferedHaveLeaves(Flushing(hash, t, k, fails).0)
    ensures KeepsRows(t, Flushing(hash, t, k, fails).0)
  {
    var u := Flushing(hash, t, k, fails).0;
    if u != t {
      FlushedTablesAre(hash, t, k, fails, u);
      FlushedIntoTells(t, u, J.NextBatchId(t), fx);
    }
  }

  lemma FlushedTablesAre(hash: J.Hash, t: J.Tables, k: Evidence, fails: bool, u: J.Tables)
    requires u == Flushing(hash, t, k, fails).0 && u != t
    ensures u.receipts == t.receipts && u.reservations == J.FinalizedRows(t)
    ensures u.leaves == J.FlushedLeaves(t, J.NextBatchId(t))
  {
  }

  lemma FlushedIntoTells(t: J.Tables, u: J.Tables, id: nat, fx: map<nat, Effect>)
    requires u.receipts == t.receipts && u.leaves == J.FlushedLeaves(t, id) && u.reservations == J.FinalizedRows(t)
    ensures JournalTells(t, fx) ==> JournalTells(u, fx)
    ensures BufferedHaveLeaves(t) ==> BufferedHaveLeaves(u)
    ensures KeepsRows(t, u)
  {
  }

  /** No row goes, and none gets another nonce. */
  ghost predicate KeepsRows(t: J.Tables, u: J.Tables) {
    forall n :: n in t.reservations ==>
      n in u.reservations && u.reservations[n].nonce == t.reservations[n].nonce
  }

  ghost predicate FromRows(t: J.Tables, fx: map<nat, Effect>) {
    forall n :: n in fx ==> n in t.reservations && t.reservations[n].nonce == fx[n].r.nonce
  }

  lemma StillFromRows(t: J.Tables, u: J.Tables, fx: map<nat, Effect>)
    requires FromRows(t, fx) && KeepsRows(t, u)
    ensures FromRows(u, fx)
  {
  }

  lemma NextTells(hash: J.Hash, s: System, fx: map<nat, Effect>, a: Action)
    requires Invariant(hash, s) && Told(s, fx)
    ensures Told(Next(hash, s, a), Noted(s, fx, a))
  {
    match a
    case BeginMediate(_, _, _) => BeginTells(hash, s, fx, a);
    case Execute(answer) => ExecuteTells(hash, s, fx, answer);
    case Finalize(root, fails) =>
      NothingReceivedYet(hash, s);
      FinalizeNextTells(hash, s, fx, root, fails);
    case _ => OtherTells(hash, s, fx, a);
  }

  lemma OtherTells(hash: J.Hash, s: System, fx: map<nat, Effect>, a: Action)
    requires Told(s, fx) && (a.TakeReceipt? || a.BeginFlush? || a.TakeFlush? || a.CrashAndReconcile?)
    ensures Told(Next(hash, s, a), fx)
  {
    if a.BeginFlush? {
      FlushTells(hash, s.journal, s.kernel, fx, a.driverFails);
      StillFromRows(s.journal, Flushing(hash, s.journal, s.kernel, a.driverFails).0, fx);
    }
  }

  lemma ExecuteTells(hash: J.Hash, s: System, fx: map<nat, Effect>, answer: AdapterAnswer)
    requires Invariant(hash, s) && Told(s, fx)
    ensures Told(Next(hash, s, Execute(answer)), Noted(s, fx, Execute(answer)))
  {
    if s.phase.Reserved? {
      InFlightIsOpen(hash, s);
      EnteredTells(s, fx, answer, s.kernel.sequence + 1);
    }
  }

  lemma EnteredTells(s: System, fx: map<nat, Effect>, answer: AdapterAnswer, n: nat)
    requires Told(s, fx) && s.phase.Reserved? && n == s.kernel.sequence + 1 && n !in s.journal.receipts
    requires n in s.journal.reservations && s.journal.reservations[n].nonce == s.phase.r.nonce
    ensures Told(s.(phase := Executed(s.phase.r, answer), executed := s.executed + [s.phase.r.nonce]),
                 fx[n := Effect(s.phase.r, answer, None)])
  {
  }

  lemma InFlightIsOpen(hash: J.Hash, s: System)
    requires Invariant(hash, s) && s.phase.Reserved?
    ensures var n := s.kernel.sequence + 1;
            n in s.journal.reservations && s.journal.reservations[n].nonce == s.phase.r.nonce
            && n !in s.journal.receipts
  {
    OpenReservationIsLast(hash, s.journal, s.kernel.sequence + 1);
  }

  lemma FinalizeNextTells(hash: J.Hash, s: System, fx: map<nat, Effect>, root: Digest, fails: bool)
    requires Told(s, fx) && (s.phase.Executed? ==> s.kernel.sequence + 1 !in s.journal.receipts)
    ensures Told(Next(hash, s, Finalize(root, fails)), Noted(s, fx, Finalize(root, fails)))
  {
    if s.phase.Executed? {
      var f := Finalizing(hash, s.journal, ReceiptOf(s, root), s.phase.answer.input, fails);
      FinalizeIs(hash, s, root, fails);
      FinalizingTells(hash, s, fx, root, fails, f);
    }
  }

  lemma FinalizeIs(hash: J.Hash, s: System, root: Digest, fails: bool)
    requires s.phase.Executed?
    ensures Next(hash, s, Finalize(root, fails))
         == FinalizeMove(s, Finalizing(hash, s.journal, ReceiptOf(s, root), s.phase.answer.input, fails))
  {
  }

  lemma FinalizingTells(hash: J.Hash, s: System, fx: map<nat, Effect>, root: Digest, fails: bool,
                        f: (J.Tables, EvidenceAnswer))
    requires Told(s, fx) && s.phase.Executed? && s.kernel.sequence + 1 !in s.journal.receipts
    requires f == Finalizing(hash, s.journal, ReceiptOf(s, root), s.phase.answer.input, fails)
    ensures Told(FinalizeMove(s, f), fx[s.kernel.sequence + 1 := Effect(s.phase.r, s.phase.answer, Some(root))])
  {
    FinalizeTells(hash, s, fx, root, fails, f);
    FinalizeKeepsRows(hash, s.journal, ReceiptOf(s, root), s.phase.answer.input, fails);
    FinalizeMoveTells(s, fx, root, f);
  }

  lemma NothingReceivedYet(hash: J.Hash, s: System)
    requires Invariant(hash, s)
    ensures s.phase.Executed? ==> s.kernel.sequence + 1 !in s.journal.receipts
  {
    if s.phase.Executed? {
      OpenReservationIsLast(hash, s.journal, s.kernel.sequence + 1);
    }
  }

  lemma FinalizeMoveTells(s: System, fx: map<nat, Effect>, root: Digest, f: (J.Tables, EvidenceAnswer))
    requires Told(s, fx) && s.phase.Executed? && KeepsRows(s.journal, f.0)
    requires JournalTells(f.0, fx[s.kernel.sequence + 1 := Effect(s.phase.r, s.phase.answer, Some(root))])
    ensures Told(FinalizeMove(s, f), fx[s.kernel.sequence + 1 := Effect(s.phase.r, s.phase.answer, Some(root))])
  {
    StillFromRows(s.journal, f.0, fx);
  }

  lemma BeginTells(hash: J.Hash, s: System, fx: map<nat, Effect>, a: Action)
    requires Invariant(hash, s) && Told(s, fx) && a.BeginMediate?
    ensures Told(Next(hash, s, a), fx)
  {
    if s.phase.Idle? {
      ReservationIsNew(hash, s.kernel, s.journal, a.r);
      BegunTells(hash, s, fx, a);
    }
  }

  lemma BegunTells(hash: J.Hash, s: System, fx: map<nat, Effect>, a: Action)
    requires Told(s, fx) && a.BeginMediate? && s.phase.Idle? && s.kernel.sequence + 1 !in s.journal.reservations
    ensures Told(Next(hash, s, a), fx)
  {
    match Reserving(s.journal, ReservationFor(s.kernel, a.r), a.driverFails)
    case Some(u) => NewRowTells(s.journal, u, fx, ReservationFor(s.kernel, a.r));
    case None =>
  }

  lemma NewRowTells(t: J.Tables, u: J.Tables, fx: map<nat, Effect>, r: J.Reservation)
    requires JournalTells(t, fx) && FromRows(t, fx) && r.sequence !in t.reservations
    requires u == t.(reservations := t.reservations[r.sequence := J.RowOf(r)])
    ensures JournalTells(u, fx) && FromRows(u, fx) && r.sequence !in fx
  {
  }

  lemma FinalizeKeepsRows(hash: J.Hash, t: J.Tables, c: J.Receipt, input: Digest, fails: bool)
    ensures KeepsRows(t, Finalizing(hash, t, c, input, fails).0)
  {
  }

  /** In every run, what the journal says of the effects is true, and each effect is entered under a number of its
      own. */
  lemma {:induction false} RunTells(hash: J.Hash, actions: seq<Action>)
    ensures Told(Run(hash, actions), Effects(hash, actions))
  {
    if |actions| > 0 {
      var before := actions[..|actions| - 1];
      RunTells(hash, before);
      RunKeepsInvariant(hash, before);
      NextTells(hash, Run(hash, before), Effects(hash, before), actions[|actions| - 1]);
    }
  }

  /** What the journal has of mediation `n` tells what was asked for in mediation `n`, what the adapter observed then
      and the outcome that its answer calls for; a leaf keeps the digest of the input it was run on, and there is one
      exactly for a confirmed effect in batched durability. */
  ghost predicate TellsEffect(t: J.Tables, fx: map<nat, Effect>, n: nat)
    requires n in t.receipts
  {
    && ReceiptTells(t.receipts[n], n, fx)
    && t.receipts[n].observation == fx[n].answer.observation
    && (n in t.leaves ==> LeafTells(t.leaves[n], n, fx))
    && (n in t.leaves <==> Confirmed(fx[n].answer) && fx[n].r.durability.Batched?)
  }

  /** In every reachable journal, every receipt tells the effect of its number. */
  lemma EveryReceiptTells(hash: J.Hash, actions: seq<Action>)
    ensures var t, fx := Run(hash, actions).journal, Effects(hash, actions);
            forall n :: n in t.receipts ==> TellsEffect(t, fx, n)
  {
    RunTells(hash, actions);
    RunBuffers(hash, actions);
    ReceiptsTellEffects(Run(hash, actions).journal, Effects(hash, actions));
  }

  lemma ReceiptsTellEffects(t: J.Tables, fx: map<nat, Effect>)
    requires JournalTells(t, fx) && BufferedHaveLeaves(t)
    ensures forall n :: n in t.receipts ==> TellsEffect(t, fx, n)
  {
    forall n | n in t.receipts ensures TellsEffect(t, fx, n) {
      assert ReceiptTells(t.receipts[n], n, fx);
    }
  }

  /** Leaves are kept of the buffered effects and of no others. */
  ghost predicate BufferedHaveLeaves(t: J.Tables) {
    forall n :: n in t.receipts && t.receipts[n].outcome == J.Buffered ==> n in t.leaves
  }

  lemma {:induction false} RunBuffers(hash: J.Hash, actions: seq<Action>)
    ensures BufferedHaveLeaves(Run(hash, actions).journal)
  {
    if |actions| > 0 {
      var before, a := actions[..|actions| - 1], actions[|actions| - 1];
      RunBuffers(hash, before);
      NextBuffers(hash, Run(hash, before), a);
    }
  }

  lemma NextBuffers(hash: J.Hash, s: System, a: Action)
    requires BufferedHaveLeaves(s.journal)
    ensures BufferedHaveLeaves(Next(hash, s, a).journal)
  {
    match a
    case Finalize(root, fails) =>
      if s.phase.Executed? {
        FinalizeRecords(hash, s.journal, s.kernel.sequence + 1, s.phase.r, ExecutedOutcome(s), s.phase.answer, root);
      }
    case BeginFlush(_, _, fails) => FlushTells(hash, s.journal, s.kernel, map[], fails);
    case _ =>
  }
}
