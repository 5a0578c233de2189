/** The Cedar authority: one-shot grants that are issued after an evaluation and consumed at most once. Signatures are
    ideal: a signature verifies exactly if it is the one the authority's key makes for that payload. */
module Authority {
  import opened Basics

  const MAX_PENDING: nat := 4096

  datatype Failure =
    | Closed | Suspended | BudgetExceeded | NotPrepared | EvaluationFailed | EnvironmentFailed | HandoffInvalid
    | SignatureInvalid | AuthorityMismatch | GrantRevoked | RuntimeMismatch | EffectMismatch | ConsumedOrUnknown
    | GrantExpired | IssuanceMismatch | EpochInvalid

  datatype Handoff = Handoff(content: string)

  datatype Grant = Grant(
    schema: string, id: string, authorityId: string, instance: string, issuerKey: string,
    subject: string, subjectEpoch: nat, policyInput: string, contextId: string, generation: nat, bundleDigest: string,
    policyRevision: nat, revocationEpoch: nat, intent: string, handoffDigest: string, action: string)

  datatype Signed = Signed(grant: Grant, signature: string)

  const GRANT_SCHEMA := "poo-flow.cedar-runtime-grant.v1"

  /** Fixed parts of an authority: identity, runtime snapshot, grant lifetime, and the hashes and checks it uses. */
  datatype Config = Config(
    instance: string, authorityId: string, publicKey: string, contextId: string, generation: nat, bundleDigest: string,
    bundleEpoch: nat, policyRevision: nat, lifetime: nat,
    sign: Grant -> string, grantDigest: Signed -> string, handoffDigest: Handoff -> string, valid: Handoff -> bool)

  datatype Pending = Pending(digest: string, deadline: nat)

  datatype State = State(pending: map<string, Pending>, suspended: bool, closed: bool, revocationEpoch: nat)

  datatype Prepared = Prepared(subject: string, subjectEpoch: nat, policyInput: string, action: string)

  /** A proposal with what its environment answers: the clock when expired grants are dropped and when the deadline is
      set, the projected request, the decision of the two engines, a random id, and whether anything else fails. */
  datatype Proposal = Proposal(
    now: nat, later: nat, intent: string, handoff: Handoff, prepared: Option<Prepared>, decision: Option<bool>,
    id: string, fails: bool)

  datatype Request = Request(
    grant: Signed, contextId: string, generation: nat, bundleDigest: string, bundleEpoch: nat, action: string,
    intent: string, handoff: Handoff)

  // ---------- what each call does ----------

  function Liveness(s: State): Option<Failure> {
    if s.closed then Some(Closed) else if s.suspended then Some(Suspended) else None
  }

  function Unexpired(pending: map<string, Pending>, now: nat): map<string, Pending> {
    map id | id in pending && pending[id].deadline > now :: pending[id]
  }

  function GrantFor(c: Config, s: State, p: Proposal, prepared: Prepared): Signed {
    var grant := Grant(
      GRANT_SCHEMA, p.id, c.authorityId, c.instance, c.publicKey, prepared.subject, prepared.subjectEpoch,
      prepared.policyInput, c.contextId, c.generation, c.bundleDigest, c.policyRevision, s.revocationEpoch,
      p.intent, c.handoffDigest(p.handoff), prepared.action);
    Signed(grant, c.sign(grant))
  }

  /** None as the result is a denial. */
  function Issue(c: Config, s: State, p: Proposal): (State, Result<Option<Signed>, Failure>) {
    if Liveness(s).Some? then (s, Err(Liveness(s).value))
    else
      var kept := s.(pending := Unexpired(s.pending, p.now));
      if |kept.pending| >= MAX_PENDING then (kept, Err(BudgetExceeded))
      else
        match p.prepared
        case None => (kept, Err(NotPrepared))
        case Some(prepared) =>
          match p.decision
          case None => (kept.(suspended := true, pending := map[]), Err(EvaluationFailed))
          case Some(permitted) =>
            if p.fails then (kept, Err(EnvironmentFailed))
            else if !permitted then (kept, Ok(None))
            else
              var signed := GrantFor(c, s, p, prepared);
              (kept.(pending := kept.pending[p.id := Pending(c.grantDigest(signed), p.later + c.lifetime)]),
               Ok(Some(signed)))
  }

  /** The checks of a grant against authority, runtime and effect, before its issuance is looked up. */
  function Refusal(c: Config, s: State, r: Request): Option<Failure> {
    var g := r.grant.grant;
    if Liveness(s).Some? then Liveness(s)
    else if !c.valid(r.handoff) then Some(HandoffInvalid)
    else if r.grant.signature != c.sign(g) then Some(SignatureInvalid)
    else if g.schema != GRANT_SCHEMA || g.instance != c.instance || g.authorityId != c.authorityId
            || g.issuerKey != c.publicKey then Some(AuthorityMismatch)
    else if g.revocationEpoch != s.revocationEpoch || g.policyRevision != c.policyRevision then Some(GrantRevoked)
    else if g.contextId != c.contextId || r.contextId != c.contextId || g.generation != c.generation
            || r.generation != c.generation || g.bundleDigest != c.bundleDigest || r.bundleDigest != c.bundleDigest
            || g.subjectEpoch != c.bundleEpoch || r.bundleEpoch != c.bundleEpoch then Some(RuntimeMismatch)
    else if g.action != r.action || g.intent != r.intent || g.handoffDigest != c.handoffDigest(r.handoff)
    then Some(EffectMismatch)
    else None
  }

  function Consume(c: Config, s: State, r: Request, now: nat): (State, Option<Failure>) {
    var id := r.grant.grant.id;
    if Refusal(c, s, r).Some? then (s, Refusal(c, s, r))
    else if id !in s.pending then (s, Some(ConsumedOrUnknown))
    else if s.pending[id].deadline <= now then (s.(pending := s.pending - {id}), Some(GrantExpired))
    else if s.pending[id].digest != c.grantDigest(r.grant) then (s, Some(IssuanceMismatch))
    else (s.(pending := s.pending - {id}), None)
  }

  function Revoke(s: State, epoch: nat): (State, Option<Failure>) {
    if Liveness(s).Some? then (s, Liveness(s))
    else if epoch <= s.revocationEpoch then (s, Some(EpochInvalid))
    else (s.(revocationEpoch := epoch, pending := map[]), None)
  }

  function Close(s: State): State {
    s.(closed := true, pending := map[])
  }

  // ---------- the authority ----------

  class AuthorityService {
    const config: Config
    var pending: map<string, Pending>
    var suspended: bool
    var closed: bool
    var revocationEpoch: nat

    function Contents(): State
      reads this
    {
      State(pending, suspended, closed, revocationEpoch)
    }

    constructor (config: Config, revocationEpoch: nat)
      ensures this.config == config && Contents() == State(map[], false, false, revocationEpoch)
    {
      this.config := config;
      pending := map[];
      suspended := false;
      closed := false;
      this.revocationEpoch := revocationEpoch;
    }

    method EnsureLive() returns (failure: Option<Failure>)
      ensures failure == Liveness(Contents())
    {
      if closed {
        return Some(Closed);
      }
      if suspended {
        return Some(Suspended);
      }
      return None;
    }

    method IssueGrant(p: Proposal) returns (result: Result<Option<Signed>, Failure>)
      modifies this
      ensures (Contents(), result) == Issue(config, old(Contents()), p)
    {
      var failure := EnsureLive();
      if failure.Some? {
        return Err(failure.value);
      }
      pending := Unexpired(pending, p.now);
      if |pending| >= MAX_PENDING {
        return Err(BudgetExceeded);
      }
      if p.prepared.None? {
        return Err(NotPrepared);
      }
      if p.decision.None? {
        suspended := true;
        pending := map[];
        return Err(EvaluationFailed);
      }
      if p.fails {
        return Err(EnvironmentFailed);
      }
      if !p.decision.value {
        return Ok(None);
      }
      var signed := GrantFor(config, Contents(), p, p.prepared.value);
      pending := pending[p.id := Pending(config.grantDigest(signed), p.later + config.lifetime)];
      return Ok(Some(signed));
    }

    method ConsumeGrant(r: Request, now: nat) returns (failure: Option<Failure>)
      modifies this
      ensures (Contents(), failure) == Consume(config, old(Contents()), r, now)
    {
      failure := Refusal(config, Contents(), r);
      if failure.Some? {
        return;
      }
      var id := r.grant.grant.id;
      if id !in pending {
        return Some(ConsumedOrUnknown);
      }
      var entry := pending[id];
      if entry.deadline <= now {
        pending := pending - {id};
        return Some(GrantExpired);
      }
      if entry.digest != config.grantDigest(r.grant) {
        return Some(IssuanceMismatch);
      }
      pending := pending - {id};
      return None;
    }

    method RevokeGrants(epoch: nat) returns (failure: Option<Failure>)
      modifies this
      ensures (Contents(), failure) == Revoke(old(Contents()), epoch)
    {
      failure := EnsureLive();
      if failure.Some? {
        return;
      }
      if epoch <= revocationEpoch {
        return Some(EpochInvalid);
      }
      revocationEpoch := epoch;
      pending := map[];
      return None;
    }

    method CloseAuthority()
      modifies this
      ensures Contents() == Close(old(Contents()))
    {
      closed := true;
      pending := map[];
    }
  }

  // ---------- runs ----------

  datatype Call = CallIssue(p: Proposal) | CallConsume(r: Request, now: nat) | CallRevoke(epoch: nat) | CallClose

  /** What a run has done so far, in order. */
  datatype Event =
    | Issued(signed: Signed, handoff: Handoff, deadline: nat)
    | Consumed(consumed: Signed, used: Handoff, at: nat)
    | Barrier

  datatype Run = Run(state: State, log: seq<Event>)

  function Did(c: Config, s: State, call: Call): seq<Event> {
    match call
    case CallIssue(p) =>
      (match Issue(c, s, p).1
       case Ok(Some(signed)) => [Issued(signed, p.handoff, p.later + c.lifetime)]
       case Err(EvaluationFailed) => [Barrier]
       case _ => [])
    case CallConsume(r, now) => if Consume(c, s, r, now).1 == None then [Consumed(r.grant, r.handoff, now)] else []
    case CallRevoke(epoch) => if Revoke(s, epoch).1 == None then [Barrier] else []
    case CallClose => [Barrier]
  }

  function Next(c: Config, s: State, call: Call): State {
    match call
    case CallIssue(p) => Issue(c, s, p).0
    case CallConsume(r, now) => Consume(c, s, r, now).0
    case CallRevoke(epoch) => Revoke(s, epoch).0
    case CallClose => Close(s)
  }

  function RunOf(c: Config, epoch: nat, calls: seq<Call>): Run {
    if |calls| == 0 then Run(State(map[], false, false, epoch), [])
    else
      var before, call := RunOf(c, epoch, calls[..|calls| - 1]), calls[|calls| - 1];
      Run(Next(c, before.state, call), before.log + Did(c, before.state, call))
  }
}
