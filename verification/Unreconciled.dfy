/** What a fresh kernel that skips reconciliation can do over a journal that has a history: which effects it can run
    again, and which it cannot. */
module Unreconciled {
  import opened Basics
  import opened RuntimeStatus
  import opened Mediation
  import opened JournalShape
  import opened Coupling
  import opened CouplingProofs
  import opened CouplingTheorems
  import opened Blocking
  import J = Journal

  /** A fresh kernel is put over the journal without reconciliation. */
  function Restarted(t: J.Tables, executed: seq<Nonce>): System {
    System(FRESH, t, Idle, executed)
  }

  predicate NeverReconciles(actions: seq<Action>) {
    forall i :: 0 <= i < |actions| ==> !actions[i].CrashAndReconcile?
  }

  /** A kernel whose count is behind the journal can reserve exactly what the journal's next row says; the row is then
      taken as already made, whatever became of it. */
  lemma BehindKernelReservesIff(hash: J.Hash, k: Evidence, t: J.Tables, r: Request)
    requires WellShaped(hash, t) && k.sequence < Total(t)
    ensures J.Reserve(t, ReservationFor(k, r)).Ok?
       <==> J.Matches(ReservationFor(k, r), t.reservations[k.sequence + 1])
    ensures J.Reserve(t, ReservationFor(k, r)).Ok? ==> J.Reserve(t, ReservationFor(k, r)).value == t
  {
    var row := t.reservations[k.sequence + 1];
    assert 0 < row.first <= row.last;
  }

  // ---------- only rows at the zero root, in order ----------

  /** Row `j` started from the zero root. */
  ghost predicate AtZero(t: J.Tables, j: nat) {
    j in t.reservations && t.reservations[j].beforeRoot == ZERO_ROOT
  }

  ghost predicate RowIs(t: J.Tables, j: nat, n: Nonce) {
    j in t.reservations && t.reservations[j].nonce == n
  }

  /** The new effects are those of the first rows, all of which started from the zero root. */
  ghost predicate Repeats(t: J.Tables, executed: seq<Nonce>, more: seq<Nonce>) {
    && |executed| <= |more| && more[..|executed|] == executed
    && forall j: nat :: 1 <= j <= Total(t) && j <= |more| - |executed| ==>
         AtZero(t, j) && RowIs(t, j, more[|executed| + j - 1])
  }

  /** While rows remain, the kernel has counted the repeated ones and kept the zero root. */
  ghost predicate Behind(t: J.Tables, s: System, done: nat) {
    && s.journal == t && s.kernel.executionRoot == ZERO_ROOT && s.kernel.staged == []
    && match s.phase {
         case Idle => s.kernel.sequence == done
         case Reserved(r) => s.kernel.sequence == done && AtZero(t, done + 1) && RowIs(t, done + 1, r.nonce)
         case Executed(_, _) => s.kernel.sequence + 1 == done
         case Finalized(_, _, e) => s.kernel.sequence + 1 == done && e == SINK_RAISED
         case Flushed(_) => false
       }
  }

  ghost predicate Replaying(t: J.Tables, executed: seq<Nonce>, s: System) {
    && Repeats(t, executed, s.executed)
    && (|s.executed| - |executed| < Total(t) ==> Behind(t, s, |s.executed| - |executed|))
  }

  /** Once every row was repeated, nothing is claimed of what follows. */
  lemma ExecutedGrows(hash: J.Hash, t: J.Tables, executed: seq<Nonce>, s: System, a: Action)
    requires Repeats(t, executed, s.executed) && |s.executed| - |executed| >= Total(t)
    ensures Replaying(t, executed, Next(hash, s, a))
  {
    ExecutedOnlyGrows(hash, s, a);
    if Next(hash, s, a).executed != s.executed {
      assert s.phase.Reserved?;
      RepeatsGrow(t, executed, s.executed, s.phase.r.nonce);
    }
  }

  lemma ExecutedOnlyGrows(hash: J.Hash, s: System, a: Action)
    ensures Next(hash, s, a).executed
         == if a.Execute? && s.phase.Reserved? then s.executed + [s.phase.r.nonce] else s.executed
  {
  }

  lemma RepeatsGrow(t: J.Tables, executed: seq<Nonce>, more: seq<Nonce>, n: Nonce)
    requires Repeats(t, executed, more)
    requires var j := |more| - |executed| + 1; j <= Total(t) ==> AtZero(t, j) && RowIs(t, j, n)
    ensures Repeats(t, executed, more + [n])
  {
    assert (more + [n])[..|executed|] == more[..|executed|];
  }

  lemma BeginMediateReplays(hash: J.Hash, t: J.Tables, s: System, done: nat, r: Request, capable: bool, fails: bool)
    requires WellShaped(hash, t) && done < Total(t) && Behind(t, s, done)
    ensures Behind(t, Next(hash, s, BeginMediate(r, capable, fails)), done)
  {
    if s.phase.Idle? {
      BehindKernelReservesIff(hash, s.kernel, t, r);
    }
  }

  lemma FinalizeReplays(hash: J.Hash, t: J.Tables, s: System, done: nat, root: Digest, fails: bool)
    requires WellShaped(hash, t) && done < Total(t) && Behind(t, s, done)
    ensures Behind(t, Next(hash, s, Finalize(root, fails)), done)
  {
    if s.phase.Executed? {
      assert t.reservations[done].state == StateAt(done, J.HeadSequence(t), Resolved(t));
      assert !J.IsReserved(t, ReceiptOf(s, root));
    }
  }

  /** As long as rows remain, only running the adapter counts one more. */
  lemma BehindStays(hash: J.Hash, t: J.Tables, s: System, done: nat, a: Action)
    requires WellShaped(hash, t) && done < Total(t) && Behind(t, s, done) && !a.CrashAndReconcile?
    requires !(a.Execute? && s.phase.Reserved?)
    ensures Behind(t, Next(hash, s, a), done)
  {
    match a
    case BeginMediate(r, capable, fails) => BeginMediateReplays(hash, t, s, done, r, capable, fails);
    case Finalize(root, fails) => FinalizeReplays(hash, t, s, done, root, fails);
    case BeginFlush(root, capable, _) => assert AdmitFlush(s.kernel, root, capable, true) != OK;
    case _ =>
  }

  lemma ExecuteReplays(hash: J.Hash, t: J.Tables, executed: seq<Nonce>, s: System, answer: AdapterAnswer)
    requires Repeats(t, executed, s.executed) && s.phase.Reserved?
    requires |s.executed| - |executed| < Total(t) && Behind(t, s, |s.executed| - |executed|)
    ensures Replaying(t, executed, Next(hash, s, Execute(answer)))
  {
    RepeatsGrow(t, executed, s.executed, s.phase.r.nonce);
  }

  lemma StepReplays(hash: J.Hash, t: J.Tables, executed: seq<Nonce>, s: System, a: Action)
    requires WellShaped(hash, t) && Replaying(t, executed, s) && !a.CrashAndReconcile?
    ensures Replaying(t, executed, Next(hash, s, a))
  {
    var done := |s.executed| - |executed|;
    if done >= Total(t) {
      ExecutedGrows(hash, t, executed, s, a);
    } else if a.Execute? && s.phase.Reserved? {
      ExecuteReplays(hash, t, executed, s, a.answer);
    } else {
      BehindStays(hash, t, s, done, a);
      ExecutedOnlyGrows(hash, s, a);
      SameExecuted(t, executed, s, Next(hash, s, a));
    }
  }

  lemma SameExecuted(t: J.Tables, executed: seq<Nonce>, s: System, u: System)
    requires Repeats(t, executed, s.executed) && u.executed == s.executed
    requires Behind(t, u, |s.executed| - |executed|)
    ensures Replaying(t, executed, u)
  {
  }

  /** Whatever an unreconciled kernel does, the effects it runs are those of the journal's first rows, in order, as
      long as there are rows, and all of these started from the zero root. */
  lemma {:induction false} RepeatedEffectsAre(hash: J.Hash, t: J.Tables, executed: seq<Nonce>, actions: seq<Action>)
    requires WellShaped(hash, t) && NeverReconciles(actions)
    ensures Repeats(t, executed, RunFrom(hash, Restarted(t, executed), actions).executed)
    ensures Replaying(t, executed, RunFrom(hash, Restarted(t, executed), actions))
  {
    if |actions| > 0 {
      var n := |actions| - 1;
      RepeatedEffectsAre(hash, t, executed, actions[..n]);
      StepReplays(hash, t, executed, RunFrom(hash, Restarted(t, executed), actions[..n]), actions[n]);
    }
  }

  // ---------- all of them ----------

  /** A request that repeats a row. */
  function RequestOf(row: J.Row, durability: Durability): Request {
    Request(durability, row.first, row.last, row.nonce, row.semanticRoot, row.beforeRoot)
  }

  function NoncesTo(t: J.Tables, m: nat): seq<Nonce>
    requires forall j: nat :: 1 <= j <= m ==> j in t.reservations
  {
    if m == 0 then [] else NoncesTo(t, m - 1) + [t.reservations[m].nonce]
  }

  /** The calls that repeat the first `m` rows. */
  function RepeatCalls(t: J.Tables, m: nat, d: Durability, answer: AdapterAnswer, root: Digest): (calls: seq<Action>)
    requires forall j: nat :: 1 <= j <= m ==> j in t.reservations
    ensures NeverReconciles(calls)
  {
    if m == 0 then []
    else RepeatCalls(t, m - 1, d, answer, root) + CallActions(RequestOf(t.reservations[m], d), answer, root)
  }

  function NonceSetTo(t: J.Tables, m: nat): set<Nonce>
    requires forall j: nat :: 1 <= j <= m ==> j in t.reservations
  {
    if m == 0 then {} else NonceSetTo(t, m - 1) + {t.reservations[m].nonce}
  }

  /** The kernel that has repeated `m` rows. */
  function RepeatedKernel(t: J.Tables, m: nat): Evidence
    requires forall j: nat :: 1 <= j <= m ==> j in t.reservations
  {
    Evidence(ZERO_ROOT, if m == 0 then None else Some(t.reservations[1].semanticRoot), m, NonceSetTo(t, m), [])
  }

  /** What the first `m` repeated calls come to, as long as their rows are closed. */
  function CameTo(t: J.Tables, executed: seq<Nonce>, m: nat): System
    requires forall j: nat :: 1 <= j <= m ==> j in t.reservations
  {
    System(RepeatedKernel(t, m), t, Idle, executed + NoncesTo(t, m))
  }

  /** Rows 1..n with different nonces and one semantic root, within the kernel's budget. */
  ghost predicate Repeatable(t: J.Tables, n: nat) {
    && n <= MAX_CONSUMED_NONCES
    && (forall j: nat :: 1 <= j <= n ==> j in t.reservations && 0 < t.reservations[j].first <= t.reservations[j].last)
    && (forall i: nat, j: nat :: 1 <= i < j <= n ==> t.reservations[i].nonce != t.reservations[j].nonce)
    && (forall j: nat :: 1 <= j <= n ==> t.reservations[j].semanticRoot == t.reservations[1].semanticRoot)
  }

  lemma HistoryIsRepeatable(hash: J.Hash, k: Evidence, t: J.Tables)
    requires WellShaped(hash, t) && Coupled(k, t)
    ensures Repeatable(t, Total(t))
  {
    forall j: nat | 1 <= j <= Total(t) ensures t.reservations[j].semanticRoot == t.reservations[1].semanticRoot {
      assert 1 in t.reservations && j in t.reservations;
    }
  }

  lemma {:induction false} NonceSetIs(t: J.Tables, m: nat, n: Nonce)
    requires forall j: nat :: 1 <= j <= m ==> j in t.reservations && t.reservations[j].nonce != n
    ensures n !in NonceSetTo(t, m) && |NonceSetTo(t, m)| <= m
  {
    if m > 0 {
      NonceSetIs(t, m - 1, n);
    }
  }

  lemma NextRowIsAdmitted(t: J.Tables, m: nat, n: nat, d: Durability)
    requires Repeatable(t, n) && 1 <= m <= n && AtZero(t, m)
    ensures AdmitToken(RepeatedKernel(t, m - 1), RequestOf(t.reservations[m], d)) == OK
    ensures J.Reserve(t, ReservationFor(RepeatedKernel(t, m - 1), RequestOf(t.reservations[m], d))) == Ok(t)
    ensures Consume(RepeatedKernel(t, m - 1), RequestOf(t.reservations[m], d)).(sequence := m) == RepeatedKernel(t, m)
  {
    NonceSetIs(t, m - 1, t.reservations[m].nonce);
    assert t.reservations[m].semanticRoot == t.reservations[1].semanticRoot;
  }

  /** One more row is repeated up to the moment the effect has run. */
  lemma NextRowRuns(hash: J.Hash, s: System, r: Request, answer: AdapterAnswer)
    requires s.phase.Idle? && s.kernel.staged == [] && (r.durability == Strict || r.durability == Batched)
    requires AdmitToken(s.kernel, r) == OK && J.Reserve(s.journal, ReservationFor(s.kernel, r)) == Ok(s.journal)
    ensures Performed(hash, s, r, true, answer)
         == System(Consume(s.kernel, r), s.journal, Executed(r, answer), s.executed + [r.nonce])
  {
  }

  /** A closed row: the repeated effect cannot be finalized, and nothing but the kernel's count moves. */
  lemma ClosedRowIsCounted(hash: J.Hash, t: J.Tables, p: System, r: Request, answer: AdapterAnswer, root: Digest)
    requires p.phase == Executed(r, answer) && p.journal == t
    requires p.kernel.sequence + 1 in t.reservations && t.reservations[p.kernel.sequence + 1].state != J.Reserved
    ensures Next(hash, Next(hash, p, Finalize(root, false)), TakeReceipt)
         == System(p.kernel.(sequence := p.kernel.sequence + 1), t, Idle, p.executed)
  {
    assert !J.IsReserved(t, ReceiptOf(p, root));
    assert Next(hash, p, Finalize(root, false)) == FinalizeMove(p, (t, SINK_RAISED));
  }

  lemma ClosedRowRunsAgain(hash: J.Hash, s: System, r: Request, answer: AdapterAnswer, root: Digest)
    requires s.phase.Idle? && s.kernel.staged == [] && (r.durability == Strict || r.durability == Batched)
    requires AdmitToken(s.kernel, r) == OK && J.Reserve(s.journal, ReservationFor(s.kernel, r)) == Ok(s.journal)
    requires s.kernel.sequence + 1 in s.journal.reservations
    requires s.journal.reservations[s.kernel.sequence + 1].state != J.Reserved
    ensures Mediated(hash, s, r, true, answer, root, false)
         == System(Consume(s.kernel, r).(sequence := s.kernel.sequence + 1), s.journal, Idle, s.executed + [r.nonce])
  {
    NextRowRuns(hash, s, r, answer);
    ClosedRowIsCounted(hash, s.journal, Performed(hash, s, r, true, answer), r, answer, root);
    MediatedIsFinished(hash, s, r, true, answer, root, false);
  }

  lemma {:induction false} ClosedRowsRunAgain(hash: J.Hash, t: J.Tables, executed: seq<Nonce>, m: nat, n: nat,
                                              d: Durability, answer: AdapterAnswer, root: Digest)
    requires d == Strict || d == Batched
    requires Repeatable(t, n) && m <= n && forall j: nat :: 1 <= j <= m ==> AtZero(t, j)
    requires forall j: nat :: 1 <= j <= m ==> t.reservations[j].state != J.Reserved
    ensures RunFrom(hash, Restarted(t, executed), RepeatCalls(t, m, d, answer, root)) == CameTo(t, executed, m)
  {
    if m == 0 {
      assert executed + [] == executed;
    } else {
      ClosedRowsRunAgain(hash, t, executed, m - 1, n, d, answer, root);
      var r := RequestOf(t.reservations[m], d);
      NextRowIsAdmitted(t, m, n, d);
      ClosedRowRunsAgain(hash, CameTo(t, executed, m - 1), r, answer, root);
      NoncesGrow(t, executed, m);
      RunFromCall(hash, Restarted(t, executed), RepeatCalls(t, m - 1, d, answer, root), r, answer, root);
    }
  }

  lemma NoncesGrow(t: J.Tables, executed: seq<Nonce>, m: nat)
    requires 1 <= m && forall j: nat :: 1 <= j <= m ==> j in t.reservations
    ensures (executed + NoncesTo(t, m - 1)) + [t.reservations[m].nonce] == executed + NoncesTo(t, m)
  {
  }

  /** The effect of the last row runs again even if that row is open; what its finalization does is not claimed. */
  lemma LastRowRunsAgain(hash: J.Hash, t: J.Tables, executed: seq<Nonce>, m: nat, n: nat, d: Durability,
                         answer: AdapterAnswer, root: Digest)
    requires d == Strict || d == Batched
    requires Repeatable(t, n) && 1 <= m <= n && AtZero(t, m)
    ensures var s, r := CameTo(t, executed, m - 1), RequestOf(t.reservations[m], d);
            Mediated(hash, s, r, true, answer, root, false).executed == executed + NoncesTo(t, m)
  {
    var s, r := CameTo(t, executed, m - 1), RequestOf(t.reservations[m], d);
    NextRowIsAdmitted(t, m, n, d);
    NextRowRuns(hash, s, r, answer);
    ExecutedOnce(hash, s, r, answer, root);
    NoncesGrow(t, executed, m);
  }

  lemma ExecutedOnce(hash: J.Hash, s: System, r: Request, answer: AdapterAnswer, root: Digest)
    ensures Mediated(hash, s, r, true, answer, root, false).executed == Performed(hash, s, r, true, answer).executed
  {
    var p := Performed(hash, s, r, true, answer);
    MediatedIsFinished(hash, s, r, true, answer, root, false);
    ExecutedOnlyGrows(hash, p, Finalize(root, false));
    ExecutedOnlyGrows(hash, Next(hash, p, Finalize(root, false)), TakeReceipt);
  }

  /** An unreconciled kernel can run the effects of all first rows again that started from the zero root. */
  lemma EffectsRunAgain(hash: J.Hash, k: Evidence, t: J.Tables, executed: seq<Nonce>, m: nat, d: Durability,
                        answer: AdapterAnswer, root: Digest)
    requires WellShaped(hash, t) && Coupled(k, t) && m <= Total(t) && (d == Strict || d == Batched)
    requires forall j: nat :: 1 <= j <= m ==> AtZero(t, j)
    ensures RunFrom(hash, Restarted(t, executed), RepeatCalls(t, m, d, answer, root)).executed
         == executed + NoncesTo(t, m)
  {
    HistoryIsRepeatable(hash, k, t);
    if m == 0 {
      assert executed + [] == executed;
    } else {
      EarlierRowsAreClosed(hash, t, m);
      ClosedRowsRunAgain(hash, t, executed, m - 1, Total(t), d, answer, root);
      LastRowRunsAgain(hash, t, executed, m, Total(t), d, answer, root);
      RunFromCall(hash, Restarted(t, executed), RepeatCalls(t, m - 1, d, answer, root),
                  RequestOf(t.reservations[m], d), answer, root);
    }
  }

  lemma EarlierRowsAreClosed(hash: J.Hash, t: J.Tables, m: nat)
    requires WellShaped(hash, t) && 1 <= m <= Total(t)
    ensures forall j: nat :: 1 <= j <= m - 1 ==> j in t.reservations && t.reservations[j].state != J.Reserved
  {
    forall j: nat | 1 <= j <= m - 1 ensures j in t.reservations && t.reservations[j].state != J.Reserved {
      assert t.reservations[j].state == StateAt(j, J.HeadSequence(t), Resolved(t));
    }
  }

  lemma {:induction false} NoncesToLength(t: J.Tables, m: nat)
    requires forall j: nat :: 1 <= j <= m ==> j in t.reservations
    ensures |NoncesTo(t, m)| == m
  {
    if m > 0 {
      NoncesToLength(t, m - 1);
    }
  }

  ghost predicate RunsMore(hash: J.Hash, t: J.Tables, executed: seq<Nonce>, m: nat, actions: seq<Action>) {
    NeverReconciles(actions)
    && |RunFrom(hash, Restarted(t, executed), actions).executed| >= |executed| + m
  }

  /** Exactly when `m` effects of the history can run again without reconciliation: the first `m` rows all started
      from the zero root. */
  lemma EffectsRunAgainIff(hash: J.Hash, k: Evidence, t: J.Tables, executed: seq<Nonce>, m: nat)
    requires WellShaped(hash, t) && Coupled(k, t) && m <= Total(t)
    ensures (exists actions :: RunsMore(hash, t, executed, m, actions))
       <==> (forall j: nat :: 1 <= j <= m ==> AtZero(t, j))
  {
    if actions :| RunsMore(hash, t, executed, m, actions) {
      RepeatedEffectsAre(hash, t, executed, actions);
    }
    if forall j: nat :: 1 <= j <= m ==> AtZero(t, j) {
      EffectsRunAgain(hash, k, t, executed, m, Strict, DONE, ZERO_ROOT);
      NoncesToLength(t, m);
      assert RunsMore(hash, t, executed, m, RepeatCalls(t, m, Strict, DONE, ZERO_ROOT));
    }
  }

  /** The rows of staged leaves started from the head root. */
  lemma StagedRowAtZeroIff(hash: J.Hash, t: J.Tables, j: nat)
    requires WellShaped(hash, t) && J.HeadSequence(t) < j <= Resolved(t)
    ensures AtZero(t, j) <==> J.HeadRoot(t) == ZERO_ROOT
  {
    assert JournalShape.StagedLeaf(hash, t, J.HeadSequence(t), j);
    assert J.Matches(J.ReservationOf(t.receipts[j]), t.reservations[j]);
  }

  // ---------- an input, and the remedy ----------

  /** Two buffered effects. */
  function TwoCalls(): seq<Action> {
    CallActions(FIRST, DONE, ZERO_ROOT) + CallActions(SECOND, DONE, ZERO_ROOT)
  }

  lemma TwoCallsStage(hash: J.Hash)
    ensures var s, m := Run(hash, CallActions(FIRST, DONE, ZERO_ROOT)), Run(hash, TwoCalls());
            BufferedInto(INITIAL, s, FIRST) && BufferedInto(s, m, SECOND)
  {
    var a := CallActions(FIRST, DONE, ZERO_ROOT);
    FirstStages(hash);
    RunIsFromInitial(hash, a);
    RunFromCall(hash, INITIAL, a, SECOND, DONE, ZERO_ROOT);
    RunIsFromInitial(hash, TwoCalls());
    BufferedCallStages(hash, Run(hash, a), SECOND, true, DONE, ZERO_ROOT);
  }

  lemma TwoRows(hash: J.Hash)
    ensures var m := Run(hash, TwoCalls());
            && m.executed == [FIRST.nonce, SECOND.nonce] && m.phase.Idle? && Total(m.journal) == 2
            && 1 in m.journal.reservations && RequestOf(m.journal.reservations[1], Batched) == FIRST
            && 2 in m.journal.reservations && RequestOf(m.journal.reservations[2], Batched) == SECOND
  {
    TwoCallsStage(hash);
    var s := Run(hash, CallActions(FIRST, DONE, ZERO_ROOT));
    TotalIs(INITIAL.journal, 0);
    assert 1 in s.journal.reservations;
  }

  lemma RepeatTwo(t: J.Tables)
    requires 1 in t.reservations && RequestOf(t.reservations[1], Batched) == FIRST
    requires 2 in t.reservations && RequestOf(t.reservations[2], Batched) == SECOND
    ensures RepeatCalls(t, 2, Batched, DONE, ZERO_ROOT) == TwoCalls()
    ensures NoncesTo(t, 2) == [FIRST.nonce, SECOND.nonce]
  {
    assert RepeatCalls(t, 0, Batched, DONE, ZERO_ROOT) == [];
    assert RepeatCalls(t, 1, Batched, DONE, ZERO_ROOT) == CallActions(FIRST, DONE, ZERO_ROOT);
    assert NoncesTo(t, 1) == [FIRST.nonce];
  }

  /** Two buffered effects run, and after a restart without reconciliation the same two calls run them again. */
  lemma TwoEffectsRunAgain(hash: J.Hash)
    ensures var m := Run(hash, TwoCalls());
            && m.executed == [FIRST.nonce, SECOND.nonce]
            && RunFrom(hash, Restarted(m.journal, m.executed), TwoCalls()).executed == m.executed + m.executed
  {
    var m := Run(hash, TwoCalls());
    TwoRows(hash);
    RunKeepsInvariant(hash, TwoCalls());
    RepeatTwo(m.journal);
    EffectsRunAgain(hash, m.kernel, m.journal, m.executed, 2, Batched, DONE, ZERO_ROOT);
  }

  /** After reconciliation every request that carries a nonce of the history is refused. */
  lemma ReconciledKernelRefusesReplay(hash: J.Hash, k: Evidence, t: J.Tables, r: Request, j: nat)
    requires WellShaped(hash, t) && Coupled(k, t) && RowIs(t, j, r.nonce)
    ensures Recover(t).0 == OK && AdmitToken(Recover(t).1, r) != OK
  {
    RecoveryRestoresKernel(hash, k, t);
    assert J.NonceReserved(t, r.nonce);
  }
}
