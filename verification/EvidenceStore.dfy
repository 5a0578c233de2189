/** The durable store: journals of all sessions, changed only inside transactions that roll back when a check
    fails or the database driver raises. `fault` numbers the driver call that raises. */
module EvidenceStore {
  import opened Basics
  import opened Journal

  type SessionId = string

  /** More driver calls than any transaction makes: a transaction given this fault meets none. */
  const NO_FAULT: nat := 16

  function ErrorOf(r: Result<Tables, Error>): Option<Error> {
    match r
    case Ok(_) => None
    case Err(e) => Some(e)
  }

  /** All or nothing: without an error the transaction's result is stored, with one nothing has changed. */
  ghost predicate Commits(before: map<SessionId, Tables>, after: map<SessionId, Tables>, session: SessionId,
                          result: Result<Tables, Error>, error: Option<Error>)
  {
    match error
    case None => result.Ok? && after == before[session := result.value]
    case Some(_) => after == before
  }

  class Store {
    var journals: map<SessionId, Tables>
    const hashes: SessionId -> Hash

    constructor (hashes: SessionId -> Hash)
      ensures journals == map[] && this.hashes == hashes
    {
      this.hashes := hashes;
      journals := map[];
    }

    /** The journal of a session; one that was never written to is empty. */
    function Of(session: SessionId): Tables
      reads this
    {
      if session in journals then journals[session] else EMPTY
    }

    method Reserve(session: SessionId, r: Reservation, fault: nat) returns (error: Option<Error>)
      modifies this
      ensures Commits(old(journals), journals, session, Journal.Reserve(old(Of(session)), r), error)
      ensures session == "" ==> error.Some?
      ensures session != "" && fault >= NO_FAULT ==> error == ErrorOf(Journal.Reserve(old(Of(session)), r))
    {
      if session == "" || !ValidReservation(r) {
        return Some(Invalid);
      }
      var saved := journals;
      if fault <= 1 {
        return Some(Driver);
      }
      var t := Of(session);
      if r.sequence in t.reservations {
        if !Matches(r, t.reservations[r.sequence]) {
          return Some(BindingMismatch);
        }
        journals := journals[session := t];
        if fault == 2 {
          journals := saved;
          return Some(Driver);
        }
        return None;
      }
      if fault == 2 {
        return Some(Driver);
      }
      if HasUnresolved(t) {
        return Some(Unresolved);
      }
      if fault == 3 {
        return Some(Driver);
      }
      if r.sequence != NextSequence(t) {
        return Some(NotNext);
      }
      if fault == 4 {
        return Some(Driver);
      }
      if r.beforeRoot != HeadRoot(t) {
        return Some(Fork);
      }
      if fault == 5 {
        return Some(Driver);
      }
      if NonceReserved(t, r.nonce) {
        return Some(Constraint);
      }
      journals := journals[session := t.(reservations := t.reservations[r.sequence := RowOf(r)])];
      if fault == 6 {
        journals := saved;
        return Some(Driver);
      }
      return None;
    }

    method Append(session: SessionId, c: Receipt, fault: nat) returns (error: Option<Error>)
      modifies this
      ensures Commits(old(journals), journals, session, Journal.Append(old(Of(session)), c), error)
      ensures session == "" ==> error.Some?
      ensures session != "" && fault >= NO_FAULT ==> error == ErrorOf(Journal.Append(old(Of(session)), c))
    {
      if session == "" || !ValidReceipt(c) {
        return Some(Invalid);
      }
      var saved := journals;
      if fault <= 1 {
        return Some(Driver);
      }
      var t := Of(session);
      if !IsReserved(t, c) {
        return Some(NotReserved);
      }
      if fault == 2 {
        return Some(Driver);
      }
      if c.sequence != HeadSequence(t) + 1 {
        return Some(NotNext);
      }
      if c.beforeRoot != HeadRoot(t) {
        return Some(Fork);
      }
      if fault == 3 {
        return Some(Driver);
      }
      if !Recordable(t, c) {
        return Some(Constraint);
      }
      t := t.(receipts := t.receipts[c.sequence := c]);
      journals := journals[session := t];
      if fault == 4 {
        journals := saved;
        return Some(Driver);
      }
      t := t.(reservations := WithState(t, c.sequence, Finalized));
      journals := journals[session := t];
      if fault == 5 {
        journals := saved;
        return Some(Driver);
      }
      t := t.(head := Some(Head(c.sequence, c.afterRoot)));
      journals := journals[session := t];
      if fault == 6 {
        journals := saved;
        return Some(Driver);
      }
      assert journals == saved[session := t];
      return None;
    }

    method Stage(session: SessionId, c: Receipt, inputDigest: Digest, fault: nat) returns (error: Option<Error>)
      modifies this
      ensures Commits(old(journals), journals, session,
                      Journal.Stage(hashes(session), old(Of(session)), c, inputDigest), error)
      ensures session == "" ==> error.Some?
      ensures session != "" && fault >= NO_FAULT ==>
                error == ErrorOf(Journal.Stage(hashes(session), old(Of(session)), c, inputDigest))
    {
      if session == "" || !ValidReceipt(c) || c.outcome != Buffered {
        return Some(Invalid);
      }
      var saved := journals;
      if fault <= 1 {
        return Some(Driver);
      }
      var t := Of(session);
      if !IsReserved(t, c) {
        return Some(NotReserved);
      }
      if fault == 2 {
        return Some(Driver);
      }
      if c.beforeRoot != HeadRoot(t) {
        return Some(Fork);
      }
      if fault <= 4 {
        return Some(Driver);
      }
      var index := |StagedKeys(t)|;
      var digest := hashes(session).leaf(c, index, inputDigest);
      if !Recordable(t, c) {
        return Some(Constraint);
      }
      t := t.(receipts := t.receipts[c.sequence := c]);
      journals := journals[session := t];
      if fault == 5 {
        journals := saved;
        return Some(Driver);
      }
      if c.sequence in t.leaves {
        journals := saved;
        return Some(Constraint);
      }
      t := t.(leaves := t.leaves[c.sequence := LeafRow(index, inputDigest, digest, None)]);
      journals := journals[session := t];
      if fault == 6 {
        journals := saved;
        return Some(Driver);
      }
      t := t.(reservations := WithState(t, c.sequence, Staged));
      journals := journals[session := t];
      if fault == 7 {
        journals := saved;
        return Some(Driver);
      }
      assert journals == saved[session := t];
      return None;
    }

    method Flush(session: SessionId, digests: seq<Digest>, fault: nat) returns (error: Option<Error>, batch: Batch)
      modifies this
      ensures Commits(old(journals), journals, session,
                      Journal.Flush(hashes(session), old(Of(session)), digests), error)
      ensures error.None? ==> batch == BatchOf(hashes(session), old(Of(session)))
      ensures fault >= NO_FAULT ==> error == ErrorOf(Journal.Flush(hashes(session), old(Of(session)), digests))
    {
      batch := Batch(0, 0, 0, ZERO_ROOT, ZERO_ROOT, ZERO_ROOT);
      var saved := journals;
      if fault <= 1 {
        return Some(Driver), batch;
      }
      var t := Of(session);
      var rows := StagedSequences(t);
      if |rows| == 0 || StagedDigests(t) != digests {
        return Some(LeafMismatch), batch;
      }
      if fault <= 3 {
        return Some(Driver), batch;
      }
      batch := BatchOf(hashes(session), t);
      var id := NextBatchId(t);
      t := t.(batches := t.batches[id := batch]);
      journals := journals[session := t];
      if fault == 4 {
        journals := saved;
        return Some(Driver), batch;
      }
      t := t.(leaves := FlushedLeaves(t, id));
      journals := journals[session := t];
      if fault == 5 {
        journals := saved;
        return Some(Driver), batch;
      }
      t := t.(reservations := FinalizedRows(t));
      journals := journals[session := t];
      if fault == 6 {
        journals := saved;
        return Some(Driver), batch;
      }
      t := t.(head := Some(Head(batch.last, batch.afterRoot)));
      journals := journals[session := t];
      if fault == 7 {
        journals := saved;
        return Some(Driver), batch;
      }
      assert journals == saved[session := t];
      return None, batch;
    }
  }
}
