/** What the authority decides: when a grant is issued, refused or consumed, what it says, and that no grant exists
    without a permit. */
module AuthorityDecisions {
  import opened Basics
  import opened Authority
  import opened AuthorityTheorems

  ghost predicate Alive(s: State) {
    !s.closed && !s.suspended
  }

  // ---------- issuing ----------

  /** The ids of the grants whose deadline is still to come. */
  ghost function Open(s: State, now: nat): set<string> {
    set id | id in s.pending && now < s.pending[id].deadline
  }

  ghost predicate HasRoom(s: State, now: nat) {
    |Open(s, now)| < 4096
  }

  /** The proposal is one that a request can be made of, and both engines permit it. */
  ghost predicate Permits(p: Proposal) {
    p.prepared.Some? && p.decision == Some(true) && !p.fails
  }

  /** The grant says who may do what, as proposed and prepared, under this authority and runtime as they are now. */
  ghost predicate GrantSays(c: Config, s: State, p: Proposal, signed: Signed) {
    var g := signed.grant;
    && p.prepared.Some?
    && g.id == p.id && g.intent == p.intent && g.handoffDigest == c.handoffDigest(p.handoff)
    && g.subject == p.prepared.value.subject && g.subjectEpoch == p.prepared.value.subjectEpoch
    && g.policyInput == p.prepared.value.policyInput && g.action == p.prepared.value.action
    && g.schema == "poo-flow.cedar-runtime-grant.v1" && g.instance == c.instance && g.authorityId == c.authorityId
    && g.issuerKey == c.publicKey && g.contextId == c.contextId && g.generation == c.generation
    && g.bundleDigest == c.bundleDigest && g.policyRevision == c.policyRevision
    && g.revocationEpoch == s.revocationEpoch
    && signed.signature == c.sign(g)
  }

  /** A grant is issued exactly by an authority that is alive and has room, for a proposal that is permitted. */
  lemma IssueSucceedsIff(c: Config, s: State, p: Proposal)
    ensures (exists signed :: Issue(c, s, p).1 == Ok(Some(signed))) <==> Alive(s) && HasRoom(s, p.now) && Permits(p)
    ensures forall signed :: Issue(c, s, p).1 == Ok(Some(signed)) ==> GrantSays(c, s, p, signed)
  {
    OpenIs(s, p.now);
    if Alive(s) && HasRoom(s, p.now) && Permits(p) {
      assert Issue(c, s, p).1 == Ok(Some(GrantFor(c, s, p, p.prepared.value)));
    }
  }

  lemma OpenIs(s: State, now: nat)
    ensures Unexpired(s.pending, now).Keys == Open(s, now)
    ensures |Unexpired(s.pending, now)| == |Open(s, now)|
  {
  }

  /** Whatever is not granted has its reason: the first of liveness, room, preparation, evaluation, environment and
      decision that is against it. */
  lemma IssueIsRefusedFor(c: Config, s: State, p: Proposal)
    ensures var result := Issue(c, s, p).1;
            && (result == Err(Closed) <==> s.closed)
            && (result == Err(Suspended) <==> !s.closed && s.suspended)
            && (result == Err(BudgetExceeded) <==> Alive(s) && !HasRoom(s, p.now))
            && (result == Err(NotPrepared) <==> Alive(s) && HasRoom(s, p.now) && p.prepared.None?)
            && (result == Err(EvaluationFailed)
                <==> Alive(s) && HasRoom(s, p.now) && p.prepared.Some? && p.decision.None?)
            && (result == Err(EnvironmentFailed)
                <==> Alive(s) && HasRoom(s, p.now) && p.prepared.Some? && p.decision.Some? && p.fails)
            && (result == Ok(None)
                <==> Alive(s) && HasRoom(s, p.now) && p.prepared.Some? && p.decision == Some(false) && !p.fails)
  {
    OpenIs(s, p.now);
  }

  /** What an issue leaves behind: a live authority drops the expired grants; a failed evaluation suspends it and ends
      every grant; a new grant is entered with its digest and its deadline. */
  lemma IssueLeaves(c: Config, s: State, p: Proposal)
    ensures var (after, result) := Issue(c, s, p);
            && after.closed == s.closed && after.revocationEpoch == s.revocationEpoch
            && (!Alive(s) ==> after == s)
            && (result == Err(EvaluationFailed) ==> after.suspended && after.pending == map[])
            && (result != Err(EvaluationFailed) ==> after.suspended == s.suspended)
            && (Alive(s) && result != Err(EvaluationFailed) ==>
                  forall id :: id in after.pending && (id == p.id ==> !Granted(result)) ==>
                    id in Open(s, p.now) && after.pending[id] == s.pending[id])
            && (Alive(s) && result != Err(EvaluationFailed) ==>
                  forall id :: id in Open(s, p.now) ==> id in after.pending)
            && (forall signed :: result == Ok(Some(signed)) ==>
                  p.id in after.pending
                  && after.pending[p.id] == Pending(c.grantDigest(signed), p.later + c.lifetime))
  {
    OpenIs(s, p.now);
  }

  ghost predicate Granted(result: Result<Option<Signed>, Failure>) {
    result.Ok? && result.value.Some?
  }

  // ---------- consuming ----------

  ghost predicate Ours(c: Config, g: Grant) {
    && g.schema == "poo-flow.cedar-runtime-grant.v1" && g.instance == c.instance
    && g.authorityId == c.authorityId && g.issuerKey == c.publicKey
  }

  ghost predicate SameRuntime(c: Config, r: Request) {
    && r.grant.grant.contextId == c.contextId == r.contextId
    && r.grant.grant.generation == c.generation == r.generation
    && r.grant.grant.bundleDigest == c.bundleDigest == r.bundleDigest
    && r.grant.grant.subjectEpoch == c.bundleEpoch == r.bundleEpoch
  }

  ghost predicate SameEffect(c: Config, r: Request) {
    && r.grant.grant.action == r.action && r.grant.grant.intent == r.intent
    && r.grant.grant.handoffDigest == c.handoffDigest(r.handoff)
  }

  ghost predicate Unrevoked(c: Config, s: State, g: Grant) {
    g.revocationEpoch == s.revocationEpoch && g.policyRevision == c.policyRevision
  }

  /** The request passes the first `n` of the checks: liveness, handoff, signature, authority, revocation, runtime,
      effect. */
  ghost predicate Passes(c: Config, s: State, r: Request, n: nat) {
    && (n > 0 ==> Alive(s))
    && (n > 1 ==> c.valid(r.handoff))
    && (n > 2 ==> r.grant.signature == c.sign(r.grant.grant))
    && (n > 3 ==> Ours(c, r.grant.grant))
    && (n > 4 ==> Unrevoked(c, s, r.grant.grant))
    && (n > 5 ==> SameRuntime(c, r))
    && (n > 6 ==> SameEffect(c, r))
  }

  lemma RefusalIs(c: Config, s: State, r: Request)
    ensures Refusal(c, s, r) == None <==> Passes(c, s, r, 7)
    ensures Refusal(c, s, r) == Some(Closed) <==> s.closed
    ensures Refusal(c, s, r) == Some(Suspended) <==> s.suspended && !s.closed
    ensures Refusal(c, s, r) == Some(HandoffInvalid) <==> Passes(c, s, r, 1) && !Passes(c, s, r, 2)
    ensures Refusal(c, s, r) == Some(SignatureInvalid) <==> Passes(c, s, r, 2) && !Passes(c, s, r, 3)
    ensures Refusal(c, s, r) == Some(AuthorityMismatch) <==> Passes(c, s, r, 3) && !Passes(c, s, r, 4)
    ensures Refusal(c, s, r) == Some(GrantRevoked) <==> Passes(c, s, r, 4) && !Passes(c, s, r, 5)
    ensures Refusal(c, s, r) == Some(RuntimeMismatch) <==> Passes(c, s, r, 5) && !Passes(c, s, r, 6)
    ensures Refusal(c, s, r) == Some(EffectMismatch) <==> Passes(c, s, r, 6) && !Passes(c, s, r, 7)
  {
  }

  /** A request that passes is judged by the pending grant of its id: unknown, expired, another grant, or consumed. An
      expired grant and a consumed one leave the pending ones; nothing else changes. */
  lemma ConsumptionIs(c: Config, s: State, r: Request, now: nat)
    ensures var id, (after, failure) := r.grant.grant.id, Consume(c, s, r, now);
            && (!Passes(c, s, r, 7) ==> failure == Refusal(c, s, r) != None)
            && (failure == Some(ConsumedOrUnknown) <==> Passes(c, s, r, 7) && id !in s.pending)
            && (failure == Some(GrantExpired)
                <==> Passes(c, s, r, 7) && id in s.pending && s.pending[id].deadline <= now)
            && (failure == Some(IssuanceMismatch)
                <==> Passes(c, s, r, 7) && id in s.pending && now < s.pending[id].deadline
                     && s.pending[id].digest != c.grantDigest(r.grant))
            && (failure == None
                <==> Passes(c, s, r, 7) && id in s.pending && now < s.pending[id].deadline
                     && s.pending[id].digest == c.grantDigest(r.grant))
            && (failure in {None, Some(GrantExpired)} ==>
                  after.(pending := s.pending) == s && after.pending.Keys == s.pending.Keys - {id}
                  && forall k :: k in after.pending ==> after.pending[k] == s.pending[k])
            && (failure !in {None, Some(GrantExpired)} ==> after == s)
  {
    RefusalIs(c, s, r);
  }

  // ---------- revoking and closing ----------

  /** A revocation needs a later epoch; it and a close end every grant. */
  lemma RevocationIs(c: Config, s: State, epoch: nat)
    ensures var (after, failure) := Revoke(s, epoch);
            && (failure == None <==> Alive(s) && s.revocationEpoch < epoch)
            && (failure == Some(EpochInvalid) <==> Alive(s) && epoch <= s.revocationEpoch)
            && (failure == Some(Closed) <==> s.closed)
            && (failure == Some(Suspended) <==> s.suspended && !s.closed)
            && (failure != None ==> after == s)
            && (failure == None ==> after.revocationEpoch == epoch && after.pending == map[] && Alive(after))
    ensures Close(s).closed && Close(s).pending == map[]
            && Close(s).suspended == s.suspended && Close(s).revocationEpoch == s.revocationEpoch
  {
  }

  /** No grant outlives a revocation: one that was issued under an earlier epoch is refused from then on. */
  lemma RevokedIsRefused(c: Config, s: State, epoch: nat, r: Request, now: nat)
    requires Revoke(s, epoch).1 == None && r.grant.grant.revocationEpoch <= s.revocationEpoch
    ensures Consume(c, Revoke(s, epoch).0, r, now).1 != None
  {
    RevocationIs(c, s, epoch);
    RefusalIs(c, Revoke(s, epoch).0, r);
  }

  // ---------- runs ----------

  /** Call `k` is the issue that log entry `e` tells of, and its proposal was permitted. */
  ghost predicate StemsFrom(c: Config, epoch: nat, calls: seq<Call>, k: nat, e: Event) {
    && k < |calls| && calls[k].CallIssue? && e.Issued?
    && Permits(calls[k].p) && Alive(RunOf(c, epoch, calls[..k]).state)
    && GrantSays(c, RunOf(c, epoch, calls[..k]).state, calls[k].p, e.signed)
    && e.handoff == calls[k].p.handoff && e.deadline == calls[k].p.later + c.lifetime
  }

  /** In every run, each grant that was issued stems from a call whose proposal was prepared and permitted, and says
      what that proposal says. */
  lemma {:induction false} EveryGrantIsPermitted(c: Config, epoch: nat, calls: seq<Call>, i: nat) returns (k: nat)
    requires i < |RunOf(c, epoch, calls).log| && RunOf(c, epoch, calls).log[i].Issued?
    ensures StemsFrom(c, epoch, calls, k, RunOf(c, epoch, calls).log[i])
  {
    var n := |calls| - 1;
    var before, e := RunOf(c, epoch, calls[..n]), RunOf(c, epoch, calls).log[i];
    if i < |before.log| {
      k := EveryGrantIsPermitted(c, epoch, calls[..n], i);
      assert calls[..n][..k] == calls[..k];
    } else {
      k := n;
      IssueSucceedsIff(c, before.state, calls[n].p);
    }
  }

  /** In every run, each consumption is of a grant that was permitted to this subject for this action, intent and
      handoff, and was made by one earlier call. */
  lemma EveryConsumptionWasPermitted(c: Config, epoch: nat, calls: seq<Call>, j: nat) returns (k: nat, i: nat)
    requires NoCollisions(c, epoch, calls) && FreshIds(calls) && Monotonic(calls)
    requires j < |RunOf(c, epoch, calls).log| && RunOf(c, epoch, calls).log[j].Consumed?
    ensures var log := RunOf(c, epoch, calls).log;
            && i < j && log[i].Issued? && StemsFrom(c, epoch, calls, k, log[i])
            && log[j].consumed == log[i].signed && log[j].used == calls[k].p.handoff
            && log[j].at < calls[k].p.later + c.lifetime
  {
    GrantSafety(c, epoch, calls, j);
    var log := RunOf(c, epoch, calls).log;
    i :| ConsumesIssue(log, i, j);
    k := EveryGrantIsPermitted(c, epoch, calls, i);
  }
}
