/** The callbacks that bind a kernel session to its journal. A raised error becomes status 16. */
module EvidenceSink {
  import opened Basics
  import opened RuntimeStatus
  import opened Mediation
  import opened Coupling
  import opened EvidenceStore
  import J = Journal

  /** `after` and `answer` are what the protocol's finalize step makes of `before`. */
  ghost predicate Answers(hash: J.Hash, before: J.Tables, c: J.Receipt, input: Digest, driverFails: bool,
                          after: J.Tables, answer: EvidenceAnswer)
  {
    Finalizing(hash, before, c, input, driverFails) == (after, answer)
  }

  class Sink {
    const store: Store
    const session: SessionId
    const committedRoot: Digest

    constructor (store: Store, session: SessionId, committedRoot: Digest)
      ensures this.store == store && this.session == session && this.committedRoot == committedRoot
    {
      this.store := store;
      this.session := session;
      this.committedRoot := committedRoot;
    }

    function Journal(): J.Tables
      reads store
    {
      store.Of(session)
    }

    /** The journals of all other sessions stay as they are. */
    twostate predicate OthersUntouched()
      reads store
    {
      forall s :: s != session ==> store.Of(s) == old(store.Of(s))
    }

    method Reserve(r: J.Reservation, fault: nat) returns (status: Status)
      modifies store
      ensures status == OK || status == INTERNAL_INVARIANT
      ensures status == OK ==> Reserving(old(Journal()), r, false) == Some(Journal())
      ensures status != OK ==> Journal() == old(Journal())
      ensures session != "" && fault >= NO_FAULT ==> (status == OK <==> Reserving(old(Journal()), r, false).Some?)
      ensures OthersUntouched()
    {
      var error := store.Reserve(session, r, fault);
      status := if error.None? then OK else INTERNAL_INVARIANT;
    }

    /** Buffered outcomes are staged, all others appended; only a committed one moves the root. */
    method Finalize(sequence: nat, r: Request, outcome: J.Outcome, a: AdapterAnswer, fault: nat)
      returns (answer: EvidenceAnswer, ghost receipt: J.Receipt, ghost driverFails: bool)
      modifies store
      ensures receipt == SinkReceipt(sequence, r, outcome, a, committedRoot)
      ensures Answers(store.hashes(session), old(Journal()), receipt, a.input, driverFails, Journal(), answer)
      ensures answer.status == OK || answer.status == INTERNAL_INVARIANT
      ensures if answer.status == OK
              then Records(old(Journal()), Journal(), sequence, r, outcome, a, committedRoot)
              else Journal() == old(Journal())
      ensures session != "" && fault >= NO_FAULT ==> !driverFails
      ensures OthersUntouched()
    {
      FinalizeRecords(store.hashes(session), Journal(), sequence, r, outcome, a, committedRoot);
      var c := SinkReceipt(sequence, r, outcome, a, committedRoot);
      receipt := c;
      var error;
      if outcome == J.Buffered {
        error := store.Stage(session, c, a.input, fault);
      } else {
        error := store.Append(session, c, fault);
      }
      answer := if error.None? then SinkAnswer(store.hashes(session), c, store.Of(session)) else SINK_RAISED;
      driverFails := error.Some? && (session == "" || fault < NO_FAULT);
    }

    method Flush(digests: seq<Digest>, beforeRoot: Digest, fault: nat) returns (answer: FlushAnswer)
      modifies store
      ensures answer.status == OK || answer.status == INTERNAL_INVARIANT
      ensures (Journal(), answer) == FlushingWith(store.hashes(session), old(Journal()), digests, beforeRoot, false)
           || (Journal(), answer) == FlushingWith(store.hashes(session), old(Journal()), digests, beforeRoot, true)
      ensures fault >= NO_FAULT ==>
                (Journal(), answer) == FlushingWith(store.hashes(session), old(Journal()), digests, beforeRoot, false)
      ensures OthersUntouched()
    {
      var error, batch := store.Flush(session, digests, fault);
      if error.Some? || batch.beforeRoot != beforeRoot {
        return SINK_FLUSH_RAISED;
      }
      answer := FlushAnswer(OK, true, batch.afterRoot, batch.batchRoot);
    }
  }
}
