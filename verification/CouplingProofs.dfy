/** Every run keeps the kernel and the journal coupled, runs each effect at most once, and recovers from every crash. */
module CouplingProofs {
  import opened Basics
  import opened RuntimeStatus
  import opened OrderedRows
  import opened Mediation
  import opened JournalShape
  import opened Coupling
  import J = Journal

  // ---------- reserving ----------

  /** In a coupled state the idempotent path of `reserve` is never taken: the reservation is always a new row. */
  lemma ReservationIsNew(hash: J.Hash, k: Evidence, t: J.Tables, r: Request)
    requires WellShaped(hash, t) && Coupled(k, t)
    ensures ReservationFor(k, r).sequence == Total(t) + 1 && Total(t) + 1 !in t.reservations
  {
  }

  lemma ReserveCouples(hash: J.Hash, k: Evidence, t: J.Tables, r: Request, u: J.Tables)
    requires WellShaped(hash, t) && Coupled(k, t) && AdmitToken(k, r) == OK
    requires J.Reserve(t, ReservationFor(k, r)) == Ok(u)
    ensures WellShaped(hash, u) && InFlight(Consume(k, r), u, r)
    ensures !J.NonceReserved(t, r.nonce) && J.NonceReserved(u, r.nonce)
  {
    ReservationIsNew(hash, k, t, r);
    NewRow(hash, t, ReservationFor(k, r), u);
    NewRowInFlight(k, t, r, u);
  }

  lemma NewRowInFlight(k: Evidence, t: J.Tables, r: Request, u: J.Tables)
    requires Coupled(k, t) && AdmitToken(k, r) == OK && k.sequence + 1 !in t.reservations
    requires u.reservations == t.reservations[k.sequence + 1 := J.RowOf(ReservationFor(k, r))]
    requires u.leaves == t.leaves && u.head == t.head
    requires Total(u) == Total(t) + 1 && Resolved(u) == Resolved(t)
    requires Total(t) == 0 ==> t.reservations == map[]
    ensures InFlight(Consume(k, r), u, r)
    ensures !J.NonceReserved(t, r.nonce) && J.NonceReserved(u, r.nonce)
  {
    ReserveNonces(k, t, r, u);
    ReserveSemanticRoot(k, t, r, u);
    var k' := Consume(k, r).(sequence := k.sequence + 1);
    assert SameNonces(k', u) && SameSemanticRoot(k', u);
    assert LeavesFrom(k'.staged, u, J.HeadSequence(u), Resolved(u));
    assert Coupled(k', u);
  }

  lemma NewRow(hash: J.Hash, t: J.Tables, r: J.Reservation, u: J.Tables)
    requires WellShaped(hash, t) && r.sequence !in t.reservations && J.Reserve(t, r) == Ok(u)
    ensures u.reservations == t.reservations[r.sequence := J.RowOf(r)]
    ensures u.leaves == t.leaves && u.head == t.head
    ensures Total(u) == Total(t) + 1 == r.sequence && Resolved(u) == Resolved(t)
    ensures Total(t) == 0 ==> t.reservations == map[]
    ensures WellShaped(hash, u)
  {
    ReserveKeepsShape(hash, t, r);
  }

  lemma ReserveSemanticRoot(k: Evidence, t: J.Tables, r: Request, u: J.Tables)
    requires SameSemanticRoot(k, t) && AdmitToken(k, r) == OK && Total(u) > 0
    requires k.sequence + 1 !in t.reservations && (Total(t) == 0 ==> t.reservations == map[])
    requires u.reservations == t.reservations[k.sequence + 1 := J.RowOf(ReservationFor(k, r))]
    ensures SameSemanticRoot(Consume(k, r), u)
  {
  }

  lemma ReserveNonces(k: Evidence, t: J.Tables, r: Request, u: J.Tables)
    requires SameNonces(k, t) && AdmitToken(k, r) == OK
    requires k.sequence + 1 !in t.reservations && Total(u) == Total(t) + 1
    requires u.reservations == t.reservations[k.sequence + 1 := J.RowOf(ReservationFor(k, r))]
    ensures SameNonces(Consume(k, r), u)
    ensures !J.NonceReserved(t, r.nonce) && J.NonceReserved(u, r.nonce)
  {
    var row := k.sequence + 1;
    assert u.reservations[row].nonce == r.nonce;
    forall n ensures J.NonceReserved(u, n) <==> J.NonceReserved(t, n) || n == r.nonce {
      if J.NonceReserved(t, n) {
        var i :| i in t.reservations && t.reservations[i].nonce == n;
        assert i in u.reservations && u.reservations[i].nonce == n;
      }
    }
  }

  // ---------- finalizing ----------

  /** A finalize that raises leaves the reservation open; the kernel counts the mediation and keeps its root. */
  lemma RaisedFinalizeCouples(k: Evidence, t: J.Tables, r: Request, outcome: J.Outcome)
    requires InFlight(k, t, r)
    ensures Coupled(Conclude(k, r, outcome, SINK_RAISED), t)
  {
    assert Conclude(k, r, outcome, SINK_RAISED) == k.(sequence := k.sequence + 1);
  }

  /** The sink's answer is always one the kernel accepts. */
  lemma SinkAnswerAccepted(hash: J.Hash, c: J.Receipt, u: J.Tables, r: Request, outcome: J.Outcome,
                           a: AdapterAnswer, sequence: nat, root: Digest)
    requires c == SinkReceipt(sequence, r, outcome, a, root)
    ensures Accepts(r, outcome, SinkAnswer(hash, c, u))
  {
  }

  lemma AppendCouples(hash: J.Hash, k: Evidence, t: J.Tables, r: Request, outcome: J.Outcome,
                      a: AdapterAnswer, root: Digest, u: J.Tables)
    requires WellShaped(hash, t) && InFlight(k, t, r) && outcome != J.Buffered
    requires J.Append(t, SinkReceipt(k.sequence + 1, r, outcome, a, root)) == Ok(u)
    ensures WellShaped(hash, u)
    ensures Coupled(Conclude(k, r, outcome, SinkAnswer(hash, SinkReceipt(k.sequence + 1, r, outcome, a, root), u)), u)
  {
    var c := SinkReceipt(k.sequence + 1, r, outcome, a, root);
    AppendKeepsShape(hash, t, c);
    AppendSucceedsIff(hash, t, c);
    SinkAnswerAccepted(hash, c, u, r, outcome, a, k.sequence + 1, root);
    var k' := Conclude(k, r, outcome, SinkAnswer(hash, c, u));
    ClosedRowKeepsNonces(k', t, u, c.sequence, J.Finalized);
    ClosedRowKeepsSemanticRoot(k', t, u, c.sequence, J.Finalized);
    assert |k.staged| == 0;
    assert SameLeaves(k', u);
  }

  lemma ClosedRowKeepsNonces(k: Evidence, t: J.Tables, u: J.Tables, n: nat, state: J.RowState)
    requires n in t.reservations && u.reservations == J.WithState(t, n, state)
    requires SameNonces(k, t) && Total(u) == Total(t)
    ensures SameNonces(k, u)
  {
    forall x ensures J.NonceReserved(u, x) <==> J.NonceReserved(t, x) {
      if J.NonceReserved(t, x) {
        var i :| i in t.reservations && t.reservations[i].nonce == x;
        assert i in u.reservations && u.reservations[i].nonce == x;
      }
    }
  }

  lemma ClosedRowKeepsSemanticRoot(k: Evidence, t: J.Tables, u: J.Tables, n: nat, state: J.RowState)
    requires n in t.reservations && u.reservations == J.WithState(t, n, state)
    requires SameSemanticRoot(k, t) && Total(u) == Total(t)
    ensures SameSemanticRoot(k, u)
  {
  }

  lemma StageCouples(hash: J.Hash, k: Evidence, t: J.Tables, r: Request,
                     a: AdapterAnswer, root: Digest, u: J.Tables)
    requires WellShaped(hash, t) && InFlight(k, t, r)
    requires J.Stage(hash, t, SinkReceipt(k.sequence + 1, r, J.Buffered, a, root), a.input) == Ok(u)
    ensures WellShaped(hash, u)
    ensures Coupled(Conclude(k, r, J.Buffered,
                             SinkAnswer(hash, SinkReceipt(k.sequence + 1, r, J.Buffered, a, root), u)), u)
  {
    var c := SinkReceipt(k.sequence + 1, r, J.Buffered, a, root);
    StageKeepsShape(hash, t, c, a.input);
    SinkAnswerAccepted(hash, c, u, r, J.Buffered, a, k.sequence + 1, root);
    OpenReservationIsLast(hash, t, c.sequence);
    NothingRecordedYet(hash, t, c);
    var leaf := u.leaves[k.sequence + 1];
    assert SinkAnswer(hash, c, u).digest == leaf.digest;
    StagedRowCouples(k, t, u, leaf);
  }

  lemma StagedRowCouples(k: Evidence, t: J.Tables, u: J.Tables, leaf: J.LeafRow)
    requires Coupled(k.(sequence := k.sequence + 1), t)
    requires k.sequence + 1 in t.reservations && k.sequence + 1 !in t.leaves
    requires u.reservations == J.WithState(t, k.sequence + 1, J.Staged)
    requires u.leaves == t.leaves[k.sequence + 1 := leaf] && u.head == t.head
    requires Total(u) == Resolved(u) == Total(t) == Resolved(t) + 1
    ensures Coupled(k.(sequence := k.sequence + 1, staged := k.staged + [StagedLeaf(k.sequence + 1, leaf.digest)]), u)
  {
    var k' := k.(sequence := k.sequence + 1, staged := k.staged + [StagedLeaf(k.sequence + 1, leaf.digest)]);
    ClosedRowKeepsNonces(k', t, u, k.sequence + 1, J.Staged);
    ClosedRowKeepsSemanticRoot(k', t, u, k.sequence + 1, J.Staged);
    StagedLeafAdded(k.staged, k'.staged, t, u, J.HeadSequence(t), k.sequence);
  }

  lemma StagedLeafAdded(s: seq<StagedLeaf>, s': seq<StagedLeaf>, t: J.Tables, u: J.Tables, h: nat, e: nat)
    requires LeavesFrom(s, t, h, e)
    requires e + 1 in u.leaves && e + 1 !in t.leaves && u.leaves == t.leaves[e + 1 := u.leaves[e + 1]]
    requires s' == s + [StagedLeaf(e + 1, u.leaves[e + 1].digest)]
    ensures LeavesFrom(s', u, h, e + 1)
  {
  }

  lemma FinalizeCouples(hash: J.Hash, k: Evidence, t: J.Tables, r: Request, outcome: J.Outcome,
                        a: AdapterAnswer, root: Digest, fails: bool)
    requires WellShaped(hash, t) && InFlight(k, t, r)
    ensures var f := Finalizing(hash, t, SinkReceipt(k.sequence + 1, r, outcome, a, root), a.input, fails);
            WellShaped(hash, f.0) && Coupled(Conclude(k, r, outcome, f.1), f.0)
  {
    var c := SinkReceipt(k.sequence + 1, r, outcome, a, root);
    match SinkFinalize(hash, t, c, a.input)
    case Err(_) => RaisedFinalizeCouples(k, t, r, outcome);
    case Ok(u) =>
      if fails {
        RaisedFinalizeCouples(k, t, r, outcome);
      } else if outcome == J.Buffered {
        StageCouples(hash, k, t, r, a, root, u);
      } else {
        AppendCouples(hash, k, t, r, outcome, a, root, u);
      }
  }

  // ---------- flushing ----------

  /** The kernel flushes exactly the leaves the journal holds, in the journal's order. */
  lemma CoupledLeaves(hash: J.Hash, k: Evidence, t: J.Tables)
    requires WellShaped(hash, t) && Coupled(k, t)
    ensures Mediation.LeafDigests(k) == J.StagedDigests(t)
    ensures |k.staged| == |J.StagedSequences(t)|
    ensures forall i :: 0 <= i < |k.staged| ==> k.staged[i].sequence == J.StagedSequences(t)[i]
  {
    StagedSequencesAre(hash, t);
    LeavesListed(k.staged, t, J.HeadSequence(t), Resolved(t));
  }

  lemma LeavesListed(staged: seq<StagedLeaf>, t: J.Tables, h: nat, e: nat)
    requires LeavesFrom(staged, t, h, e)
    ensures forall i :: 0 <= i < |staged| ==>
              h + 1 + i in t.leaves && staged[i] == StagedLeaf(h + 1 + i, t.leaves[h + 1 + i].digest)
  {
    forall i | 0 <= i < |staged|
      ensures h + 1 + i in t.leaves && staged[i] == StagedLeaf(h + 1 + i, t.leaves[h + 1 + i].digest)
    {
      var n := h + 1 + i;
      assert staged[n - h - 1] == StagedLeaf(n, t.leaves[n].digest);
    }
  }

  lemma FlushCouples(hash: J.Hash, k: Evidence, t: J.Tables, fails: bool)
    requires WellShaped(hash, t) && Coupled(k, t)
    ensures var f := Flushing(hash, t, k, fails);
            WellShaped(hash, f.0) && Coupled(ConcludeFlush(k, f.1).1, f.0)
  {
    match J.Flush(hash, t, Mediation.LeafDigests(k))
    case Err(_) =>
    case Ok(u) =>
      if !fails {
        FlushedCouples(hash, k, t, u);
      }
  }

  lemma FlushedCouples(hash: J.Hash, k: Evidence, t: J.Tables, u: J.Tables)
    requires WellShaped(hash, t) && Coupled(k, t)
    ensures J.Flush(hash, t, Mediation.LeafDigests(k)) == Ok(u) ==>
              WellShaped(hash, u) && Coupled(k.(executionRoot := J.HeadRoot(u), staged := []), u)
  {
    if J.Flush(hash, t, Mediation.LeafDigests(k)) == Ok(u) {
      FlushKeepsShape(hash, t, Mediation.LeafDigests(k), u);
      FlushedRowsKeep(k, t, u);
    }
  }

  lemma FlushedRowsKeep(k: Evidence, t: J.Tables, u: J.Tables)
    requires u.reservations == J.FinalizedRows(t) && Total(u) == Total(t)
    requires SameNonces(k, t) && SameSemanticRoot(k, t)
    ensures SameNonces(k, u) && SameSemanticRoot(k, u)
  {
    forall x ensures J.NonceReserved(u, x) <==> J.NonceReserved(t, x) {
      if J.NonceReserved(t, x) {
        var i :| i in t.reservations && t.reservations[i].nonce == x;
        assert i in u.reservations && u.reservations[i].nonce == x;
      }
    }
    assert forall i :: i in u.reservations ==> u.reservations[i].semanticRoot == t.reservations[i].semanticRoot;
  }

  /** The comparison of roots that the sink makes after the batch is committed never finds a fork: a flush from a
      coupled state with staged leaves succeeds whenever the database does, and moves both roots alike. */
  lemma FlushNeverForks(hash: J.Hash, k: Evidence, t: J.Tables)
    requires WellShaped(hash, t) && Coupled(k, t) && |k.staged| > 0
    ensures Flushing(hash, t, k, false).1.status == OK
    ensures Flushing(hash, t, k, false).1.afterRoot
         == hash.execution(k.executionRoot, hash.merkle(Mediation.LeafDigests(k)))
    ensures Flushing(hash, t, k, false).1.batchRoot == hash.merkle(Mediation.LeafDigests(k))
  {
    CoupledLeaves(hash, k, t);
    FlushAdvancesRoot(hash, t, Mediation.LeafDigests(k));
  }
}
