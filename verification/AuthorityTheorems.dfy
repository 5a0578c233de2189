/** Grant safety over whole runs of an authority. */
module AuthorityTheorems {
  import opened Basics
  import opened Authority

  // ---------- assumptions about the environment ----------

  /** What a request presents collides with nothing that was issued: neither its grant nor its handoff. */
  ghost predicate Distinct(c: Config, log: seq<Event>, q: Request) {
    forall i :: 0 <= i < |log| && log[i].Issued? ==>
      && (c.grantDigest(log[i].signed) == c.grantDigest(q.grant) ==> log[i].signed == q.grant)
      && (c.handoffDigest(log[i].handoff) == c.handoffDigest(q.handoff) ==> log[i].handoff == q.handoff)
  }

  /** No request of the run collides with what was issued before it. */
  ghost predicate NoCollisions(c: Config, epoch: nat, calls: seq<Call>) {
    |calls| == 0 ||
    var before, call := calls[..|calls| - 1], calls[|calls| - 1];
    && NoCollisions(c, epoch, before)
    && (call.CallConsume? ==> Distinct(c, RunOf(c, epoch, before).log, call.r))
  }

  /** Random ids do not repeat. */
  ghost predicate FreshIds(calls: seq<Call>) {
    forall i, j :: 0 <= i < j < |calls| && calls[i].CallIssue? && calls[j].CallIssue? ==> calls[i].p.id != calls[j].p.id
  }

  /** The latest time read. */
  ghost function Clock(calls: seq<Call>): nat {
    if |calls| == 0 then 0
    else
      match calls[|calls| - 1]
      case CallIssue(p) => p.later
      case CallConsume(_, now) => now
      case _ => Clock(calls[..|calls| - 1])
  }

  /** The clock never runs backwards. */
  ghost predicate Monotonic(calls: seq<Call>) {
    |calls| == 0 ||
    var before := calls[..|calls| - 1];
    && Monotonic(before)
    && match calls[|calls| - 1]
       case CallIssue(p) => Clock(before) <= p.now <= p.later
       case CallConsume(_, now) => Clock(before) <= now
       case _ => true
  }

  // ---------- what a log says ----------

  /** Entry `k` ends the life of grant `id`. */
  predicate Ends(e: Event, id: string) {
    e == Barrier || (e.Consumed? && e.consumed.grant.id == id)
  }

  /** Issue `i` has been neither consumed nor cut off by a revocation, suspension or close. */
  ghost predicate Quiet(log: seq<Event>, i: nat) {
    && i < |log| && log[i].Issued?
    && forall k :: i < k < |log| ==> !Ends(log[k], log[i].signed.grant.id)
  }

  ghost predicate Backs(c: Config, e: Event, id: string, p: Pending) {
    e.Issued? && e.signed.grant.id == id && p == Pending(c.grantDigest(e.signed), e.deadline)
  }

  /** Entry `j` consumes the grant of issue `i`: the same signed grant and handoff, in time, and nothing ended the
      grant in between. */
  ghost predicate ConsumesIssue(log: seq<Event>, i: nat, j: nat) {
    && i < j < |log| && log[i].Issued? && log[j].Consumed?
    && log[j].consumed == log[i].signed && log[j].used == log[i].handoff && log[j].at < log[i].deadline
    && forall k :: i < k < j ==> !Ends(log[k], log[i].signed.grant.id)
  }

  ghost predicate Matched(log: seq<Event>, j: nat) {
    exists i: nat :: ConsumesIssue(log, i, j)
  }

  /** An issued grant is the authority's own and binds the handoff it was issued for. */
  ghost predicate Genuine(c: Config, e: Event) {
    e.Issued? ==>
      var g := e.signed.grant;
      && e.signed.signature == c.sign(g) && g.schema == GRANT_SCHEMA && g.instance == c.instance
      && g.authorityId == c.authorityId && g.issuerKey == c.publicKey && g.policyRevision == c.policyRevision
      && g.contextId == c.contextId && g.generation == c.generation && g.bundleDigest == c.bundleDigest
      && g.handoffDigest == c.handoffDigest(e.handoff)
  }

  // ---------- the invariant ----------

  ghost predicate PendingIsBacked(c: Config, s: State, log: seq<Event>) {
    forall id :: id in s.pending ==> exists i: nat :: Quiet(log, i) && Backs(c, log[i], id, s.pending[id])
  }

  /** A grant that is quiet and not yet expired is still pending. */
  ghost predicate QuietIsPending(c: Config, s: State, log: seq<Event>, clock: nat) {
    forall i: nat :: Quiet(log, i) && log[i].deadline > clock ==>
      log[i].signed.grant.id in s.pending && Backs(c, log[i], log[i].signed.grant.id, s.pending[log[i].signed.grant.id])
  }

  ghost predicate QuietIsCurrent(s: State, log: seq<Event>) {
    forall i: nat :: Quiet(log, i) ==> log[i].signed.grant.revocationEpoch == s.revocationEpoch && Liveness(s).None?
  }

  ghost predicate UniqueIds(log: seq<Event>) {
    forall i, j :: 0 <= i < j < |log| && log[i].Issued? && log[j].Issued? ==>
      log[i].signed.grant.id != log[j].signed.grant.id
  }

  ghost predicate Invariant(c: Config, r: Run, clock: nat) {
    && PendingIsBacked(c, r.state, r.log)
    && QuietIsPending(c, r.state, r.log, clock)
    && QuietIsCurrent(r.state, r.log)
    && UniqueIds(r.log)
    && |r.state.pending| <= MAX_PENDING
    && (forall i :: 0 <= i < |r.log| ==> Genuine(c, r.log[i]))
    && AllMatched(r.log)
  }

  ghost predicate AllMatched(log: seq<Event>) {
    forall j: nat :: j < |log| && log[j].Consumed? ==> Matched(log, j)
  }

  // ---------- logs grow ----------

  lemma MatchedStays(log: seq<Event>, e: Event, j: nat)
    requires j < |log| && Matched(log, j)
    ensures Matched(log + [e], j)
  {
    var i: nat :| ConsumesIssue(log, i, j);
    assert ConsumesIssue(log + [e], i, j);
  }

  lemma AllStayMatched(log: seq<Event>, e: Event)
    requires AllMatched(log) && (e.Consumed? ==> Matched(log + [e], |log|))
    ensures AllMatched(log + [e])
  {
    forall j: nat | j < |log + [e]| && (log + [e])[j].Consumed? ensures Matched(log + [e], j) {
      if j < |log| {
        MatchedStays(log, e, j);
      }
    }
  }

  lemma QuietBefore(log: seq<Event>, e: Event, i: nat)
    requires i < |log|
    ensures Quiet(log + [e], i) <==> Quiet(log, i) && !Ends(e, log[i].signed.grant.id)
  {
    if Quiet(log, i) && !Ends(e, log[i].signed.grant.id) {
      forall k | i < k < |log + [e]| ensures !Ends((log + [e])[k], log[i].signed.grant.id) {
        assert k < |log| ==> (log + [e])[k] == log[k];
      }
    }
    if Quiet(log + [e], i) {
      forall k | i < k < |log| ensures !Ends(log[k], log[i].signed.grant.id) {
        assert (log + [e])[k] == log[k];
      }
      assert (log + [e])[|log|] == e;
    }
  }

  /** After a barrier nothing is quiet. */
  lemma BarrierSilences(log: seq<Event>, i: nat)
    ensures !Quiet(log + [Barrier], i)
  {
    assert (log + [Barrier])[|log|] == Barrier;
  }

  lemma BarrierKeeps(c: Config, r: Run, s: State, clock: nat, clock': nat)
    requires Invariant(c, r, clock) && s.pending == map[]
    ensures Invariant(c, Run(s, r.log + [Barrier]), clock')
  {
    forall i: nat ensures !Quiet(r.log + [Barrier], i) {
      BarrierSilences(r.log, i);
    }
    AllStayMatched(r.log, Barrier);
  }

  ghost function Called(c: Config, r: Run, call: Call): Run {
    Run(Next(c, r.state, call), r.log + Did(c, r.state, call))
  }

  ghost function Kept(r: Run, now: nat): Run {
    Run(r.state.(pending := Unexpired(r.state.pending, now)), r.log)
  }

  /** Dropping expired grants, or doing nothing. */
  lemma PurgeKeeps(c: Config, r: Run, now: nat, clock: nat)
    requires Invariant(c, r, clock) && clock <= now
    ensures Invariant(c, Kept(r, now), now)
  {
    var kept := Unexpired(r.state.pending, now);
    assert kept.Keys <= r.state.pending.Keys;
    Fewer(kept.Keys, r.state.pending.Keys);
  }

  lemma Fewer(a: set<string>, b: set<string>)
    requires a <= b
    ensures |a| <= |b|
  {
    assert b == a + (b - a);
  }

  lemma LaterKeeps(c: Config, r: Run, clock: nat, clock': nat)
    requires Invariant(c, r, clock) && clock <= clock'
    ensures Invariant(c, r, clock')
  {
  }

  // ---------- each call keeps the invariant ----------

  ghost function Granted(c: Config, r: Run, p: Proposal, prepared: Prepared): Run {
    var signed := GrantFor(c, r.state, p, prepared);
    var deadline := p.later + c.lifetime;
    Run(r.state.(pending := r.state.pending[p.id := Pending(c.grantDigest(signed), deadline)]),
        r.log + [Issued(signed, p.handoff, deadline)])
  }

  lemma NewGrantKeeps(c: Config, r: Run, p: Proposal, prepared: Prepared, clock: nat)
    requires Invariant(c, r, clock) && clock <= p.later && Liveness(r.state).None? && |r.state.pending| < MAX_PENDING
    requires NotIssued(r.log, p.id)
    ensures Invariant(c, Granted(c, r, p, prepared), p.later)
  {
    var after := Granted(c, r, p, prepared);
    var e := after.log[|r.log|];
    QuietAfterIssue(r.log, e);
    BackedAfterIssue(c, r, e, after.state);
    AllStayMatched(r.log, e);
    PendingAfterIssue(c, r, e, after.state, clock, p.later);
    assert |after.state.pending| <= |r.state.pending| + 1;
    assert Genuine(c, e);
  }

  lemma PendingAfterIssue(c: Config, r: Run, e: Event, s: State, clock: nat, clock': nat)
    requires QuietIsPending(c, r.state, r.log, clock) && QuietIsCurrent(r.state, r.log) && UniqueIds(r.log)
    requires clock <= clock' && e.Issued? && NotIssued(r.log, e.signed.grant.id) && Liveness(r.state).None?
    requires e.signed.grant.revocationEpoch == r.state.revocationEpoch
    requires s == r.state.(pending :=
                             r.state.pending[e.signed.grant.id := Pending(c.grantDigest(e.signed), e.deadline)])
    ensures QuietIsPending(c, s, r.log + [e], clock') && QuietIsCurrent(s, r.log + [e]) && UniqueIds(r.log + [e])
  {
    QuietAfterIssue(r.log, e);
  }

  ghost predicate NotIssued(log: seq<Event>, id: string) {
    forall i :: 0 <= i < |log| && log[i].Issued? ==> log[i].signed.grant.id != id
  }

  lemma QuietAfterIssue(log: seq<Event>, e: Event)
    requires e.Issued?
    ensures forall i: nat :: Quiet(log + [e], i) <==> Quiet(log, i) || i == |log|
  {
    forall i: nat | i < |log| ensures Quiet(log + [e], i) <==> Quiet(log, i) {
      QuietBefore(log, e, i);
    }
    assert (log + [e])[|log|] == e;
  }

  lemma BackedAfterIssue(c: Config, r: Run, e: Event, s: State)
    requires PendingIsBacked(c, r.state, r.log) && e.Issued?
    requires s.pending == r.state.pending[e.signed.grant.id := Pending(c.grantDigest(e.signed), e.deadline)]
    ensures PendingIsBacked(c, s, r.log + [e])
  {
    QuietAfterIssue(r.log, e);
    var log := r.log + [e];
    forall id | id in s.pending ensures exists i: nat :: Quiet(log, i) && Backs(c, log[i], id, s.pending[id]) {
      if id == e.signed.grant.id {
        assert Quiet(log, |r.log|) && Backs(c, log[|r.log|], id, s.pending[id]);
      } else {
        var i: nat :| Quiet(r.log, i) && Backs(c, r.log[i], id, r.state.pending[id]);
        assert Quiet(log, i) && Backs(c, log[i], id, s.pending[id]);
      }
    }
  }

  /** A consumption that went through names an issue that is still quiet, with its handoff and in time. */
  lemma ConsumedIssue(c: Config, r: Run, q: Request, now: nat, clock: nat) returns (m: nat)
    requires Invariant(c, r, clock) && Distinct(c, r.log, q) && Consume(c, r.state, q, now).1 == None
    ensures Quiet(r.log, m) && r.log[m].signed == q.grant && r.log[m].handoff == q.handoff && now < r.log[m].deadline
  {
    var id := q.grant.grant.id;
    m :| Quiet(r.log, m) && Backs(c, r.log[m], id, r.state.pending[id]);
    assert Genuine(c, r.log[m]);
  }

  lemma ConsumedKeeps(c: Config, r: Run, m: nat, now: nat, clock: nat)
    requires Invariant(c, r, clock) && clock <= now && Quiet(r.log, m) && now < r.log[m].deadline
    ensures Invariant(c, Run(r.state.(pending := r.state.pending - {r.log[m].signed.grant.id}),
                             r.log + [Consumed(r.log[m].signed, r.log[m].handoff, now)]), now)
  {
    var id := r.log[m].signed.grant.id;
    var e := Consumed(r.log[m].signed, r.log[m].handoff, now);
    var log, s := r.log + [e], r.state.(pending := r.state.pending - {id});
    assert ConsumesIssue(log, m, |r.log|);
    assert Matched(log, |r.log|);
    QuietAfterUse(r.log, e);
    StillBacked(c, r, e, clock);
    Fewer(s.pending.Keys, r.state.pending.Keys);
    AllStayMatched(r.log, e);
    PendingAfterUse(c, r, e, clock, now);
  }

  lemma PendingAfterUse(c: Config, r: Run, e: Event, clock: nat, clock': nat)
    requires QuietIsPending(c, r.state, r.log, clock) && QuietIsCurrent(r.state, r.log) && UniqueIds(r.log)
    requires clock <= clock' && e.Consumed?
    ensures var s := r.state.(pending := r.state.pending - {e.consumed.grant.id});
            QuietIsPending(c, s, r.log + [e], clock') && QuietIsCurrent(s, r.log + [e]) && UniqueIds(r.log + [e])
  {
    QuietAfterUse(r.log, e);
  }

  lemma QuietAfterUse(log: seq<Event>, e: Event)
    requires e.Consumed?
    ensures forall i: nat :: Quiet(log + [e], i) ==> Quiet(log, i) && log[i].signed.grant.id != e.consumed.grant.id
  {
    forall i: nat | Quiet(log + [e], i) ensures Quiet(log, i) && log[i].signed.grant.id != e.consumed.grant.id {
      assert (log + [e])[|log|] == e;
      QuietBefore(log, e, i);
    }
  }

  lemma StillBacked(c: Config, r: Run, e: Event, clock: nat)
    requires PendingIsBacked(c, r.state, r.log) && e.Consumed?
    ensures PendingIsBacked(c, r.state.(pending := r.state.pending - {e.consumed.grant.id}), r.log + [e])
  {
    var pending := r.state.pending - {e.consumed.grant.id};
    forall x | x in pending
      ensures exists i: nat :: Quiet(r.log + [e], i) && Backs(c, (r.log + [e])[i], x, pending[x])
    {
      var i: nat :| Quiet(r.log, i) && Backs(c, r.log[i], x, r.state.pending[x]);
      QuietBefore(r.log, e, i);
    }
  }

  lemma ExpiredKeeps(c: Config, r: Run, id: string, now: nat, clock: nat)
    requires Invariant(c, r, clock) && clock <= now && id in r.state.pending && r.state.pending[id].deadline <= now
    ensures Invariant(c, Run(r.state.(pending := r.state.pending - {id}), r.log), now)
  {
    var pending := r.state.pending - {id};
    Fewer(pending.Keys, r.state.pending.Keys);
  }

  /** Ids of issued grants are ids that were drawn. */
  ghost predicate DrawnIds(log: seq<Event>, calls: seq<Call>) {
    forall i :: 0 <= i < |log| && log[i].Issued? ==>
      exists k :: 0 <= k < |calls| && calls[k].CallIssue? && calls[k].p.id == log[i].signed.grant.id
  }

  lemma {:induction false} RunKeepsDrawnIds(c: Config, epoch: nat, calls: seq<Call>)
    ensures DrawnIds(RunOf(c, epoch, calls).log, calls)
  {
    if |calls| > 0 {
      var n := |calls| - 1;
      RunKeepsDrawnIds(c, epoch, calls[..n]);
      var before := RunOf(c, epoch, calls[..n]);
      var log := RunOf(c, epoch, calls).log;
      forall i | 0 <= i < |log| && log[i].Issued?
        ensures exists k :: 0 <= k < |calls| && calls[k].CallIssue? && calls[k].p.id == log[i].signed.grant.id
      {
        if i < |before.log| {
          var k :| 0 <= k < n && calls[..n][k].CallIssue? && calls[..n][k].p.id == before.log[i].signed.grant.id;
          assert calls[k].CallIssue?;
        } else {
          assert calls[n].CallIssue? && calls[n].p.id == log[i].signed.grant.id;
        }
      }
    }
  }

  datatype Ending = Refused | KeptOnly | CutOff | Permitted

  /** The four ways an issue can end. */
  lemma IssueIs(c: Config, r: Run, p: Proposal) returns (ending: Ending)
    ensures var after, kept := Called(c, r, CallIssue(p)), Kept(r, p.now);
            match ending
            case Refused => after == r
            case KeptOnly => after == kept
            case CutOff => after.state.pending == map[] && after.log == kept.log + [Barrier]
            case Permitted =>
              Liveness(r.state).None? && |kept.state.pending| < MAX_PENDING && p.prepared.Some?
              && after == Granted(c, kept, p, p.prepared.value)
  {
    assert r.log + [] == r.log;
    if Liveness(r.state).Some? {
      ending := Refused;
    } else if |Unexpired(r.state.pending, p.now)| >= MAX_PENDING || p.prepared.None? {
      ending := KeptOnly;
    } else if p.decision.None? {
      ending := CutOff;
    } else if p.fails || !p.decision.value {
      ending := KeptOnly;
    } else {
      ending := Permitted;
    }
  }

  lemma IssueKeeps(c: Config, r: Run, p: Proposal, clock: nat)
    requires Invariant(c, r, clock) && clock <= p.now <= p.later && NotIssued(r.log, p.id)
    ensures Invariant(c, Called(c, r, CallIssue(p)), p.later)
  {
    var kept := Kept(r, p.now);
    PurgeKeeps(c, r, p.now, clock);
    var ending := IssueIs(c, r, p);
    match ending
    case Refused => LaterKeeps(c, r, clock, p.later);
    case KeptOnly => LaterKeeps(c, kept, p.now, p.later);
    case CutOff => BarrierKeeps(c, kept, Called(c, r, CallIssue(p)).state, p.now, p.later);
    case Permitted => NewGrantKeeps(c, kept, p, p.prepared.value, p.now);
  }

  lemma ConsumeKeeps(c: Config, r: Run, q: Request, now: nat, clock: nat)
    requires Invariant(c, r, clock) && Distinct(c, r.log, q) && clock <= now
    ensures Invariant(c, Called(c, r, CallConsume(q, now)), now)
  {
    LaterKeeps(c, r, clock, now);
    ConsumeIs(c, r, q, now);
    var id := q.grant.grant.id;
    if Consume(c, r.state, q, now).1 == None {
      var m := ConsumedIssue(c, r, q, now, clock);
      ConsumedKeeps(c, r, m, now, clock);
    } else if id in r.state.pending && r.state.pending[id].deadline <= now {
      ExpiredKeeps(c, r, id, now, clock);
    }
  }

  /** The three ways a consumption can end. */
  lemma ConsumeIs(c: Config, r: Run, q: Request, now: nat)
    ensures var after, id := Called(c, r, CallConsume(q, now)), q.grant.grant.id;
            var without := r.state.(pending := r.state.pending - {id});
            if Consume(c, r.state, q, now).1 == None
            then after == Run(without, r.log + [Consumed(q.grant, q.handoff, now)])
            else after == r
                 || (id in r.state.pending && r.state.pending[id].deadline <= now && after == Run(without, r.log))
  {
    assert r.log + [] == r.log;
  }

  lemma RevokeKeeps(c: Config, r: Run, epoch: nat, clock: nat)
    requires Invariant(c, r, clock)
    ensures Invariant(c, Run(Next(c, r.state, CallRevoke(epoch)), r.log + Did(c, r.state, CallRevoke(epoch))), clock)
  {
    assert r.log + [] == r.log;
    if Revoke(r.state, epoch).1 == None {
      BarrierKeeps(c, r, Revoke(r.state, epoch).0, clock, clock);
    }
  }

  lemma {:induction false} RunKeepsInvariant(c: Config, epoch: nat, calls: seq<Call>)
    requires NoCollisions(c, epoch, calls) && FreshIds(calls) && Monotonic(calls)
    ensures Invariant(c, RunOf(c, epoch, calls), Clock(calls))
  {
    if |calls| > 0 {
      var n := |calls| - 1;
      var before, clock := RunOf(c, epoch, calls[..n]), Clock(calls[..n]);
      RunKeepsInvariant(c, epoch, calls[..n]);
      match calls[n]
      case CallIssue(p) =>
        RunKeepsDrawnIds(c, epoch, calls[..n]);
        forall i | 0 <= i < |before.log| && before.log[i].Issued? ensures before.log[i].signed.grant.id != p.id {
          var k :| 0 <= k < n && calls[..n][k].CallIssue? && calls[..n][k].p.id == before.log[i].signed.grant.id;
          assert calls[k].p.id != calls[n].p.id;
        }
        IssueKeeps(c, before, p, clock);
      case CallConsume(q, now) => ConsumeKeeps(c, before, q, now, clock);
      case CallRevoke(e) => RevokeKeeps(c, before, e, clock);
      case CallClose => BarrierKeeps(c, before, Close(before.state), clock, clock);
    }
  }

  // ---------- grant safety ----------

  /** Every consumption matches exactly one earlier issue of the same signed grant for the same handoff, within its
      deadline, with nothing in between that ended the grant; and no grant is consumed twice. */
  lemma GrantSafety(c: Config, epoch: nat, calls: seq<Call>, j: nat)
    requires NoCollisions(c, epoch, calls) && FreshIds(calls) && Monotonic(calls)
    requires j < |RunOf(c, epoch, calls).log| && RunOf(c, epoch, calls).log[j].Consumed?
    ensures var log := RunOf(c, epoch, calls).log;
            && (exists i: nat :: ConsumesIssue(log, i, j) && forall k: nat :: ConsumesIssue(log, k, j) ==> k == i)
            && forall k: nat :: k < |log| && k != j && log[k].Consumed? ==>
                 log[k].consumed.grant.id != log[j].consumed.grant.id
  {
    RunKeepsInvariant(c, epoch, calls);
    var log := RunOf(c, epoch, calls).log;
    var i: nat :| ConsumesIssue(log, i, j);
    forall k: nat | ConsumesIssue(log, k, j) ensures k == i {
      assert log[k].signed.grant.id == log[i].signed.grant.id;
    }
    forall k: nat | k < |log| && k != j && log[k].Consumed?
      ensures log[k].consumed.grant.id != log[j].consumed.grant.id
    {
      var m: nat :| ConsumesIssue(log, m, k);
      if log[k].consumed.grant.id == log[j].consumed.grant.id {
        assert m == i;
        assert if j < k then Ends(log[j], log[i].signed.grant.id) else Ends(log[k], log[i].signed.grant.id);
      }
    }
  }

  /** The budget holds in every run. */
  lemma {:induction false} PendingIsBounded(c: Config, epoch: nat, calls: seq<Call>)
    ensures |RunOf(c, epoch, calls).state.pending| <= MAX_PENDING
  {
    if |calls| > 0 {
      var n := |calls| - 1;
      PendingIsBounded(c, epoch, calls[..n]);
      CallIsBounded(c, RunOf(c, epoch, calls[..n]).state, calls[n]);
    }
  }

  lemma CallIsBounded(c: Config, s: State, call: Call)
    requires |s.pending| <= MAX_PENDING
    ensures |Next(c, s, call).pending| <= MAX_PENDING
  {
    match call
    case CallIssue(p) => Fewer(Unexpired(s.pending, p.now).Keys, s.pending.Keys);
    case CallConsume(r, _) => Fewer((s.pending - {r.grant.grant.id}).Keys, s.pending.Keys);
    case _ =>
  }

  /** What a request must agree with, apart from the grant being alive. */
  ghost predicate Fits(c: Config, r: Request) {
    var g := r.grant.grant;
    && c.valid(r.handoff) && r.contextId == c.contextId && r.generation == c.generation
    && r.bundleDigest == c.bundleDigest && g.subjectEpoch == c.bundleEpoch == r.bundleEpoch
    && g.action == r.action && g.intent == r.intent && g.handoffDigest == c.handoffDigest(r.handoff)
  }

  /** Issue `i` made this signed grant, its deadline is still to come, and nothing has ended it. */
  ghost predicate Presents(log: seq<Event>, i: nat, signed: Signed, now: nat) {
    Quiet(log, i) && log[i].signed == signed && now < log[i].deadline
  }

  /** In every run, a request is granted exactly if it fits and presents, before the deadline, a grant that was issued
      and has not been ended since. */
  lemma ConsumeSucceedsIff(c: Config, epoch: nat, calls: seq<Call>, r: Request, now: nat)
    requires NoCollisions(c, epoch, calls) && FreshIds(calls) && Monotonic(calls) && Clock(calls) <= now
    requires Distinct(c, RunOf(c, epoch, calls).log, r)
    ensures Consume(c, RunOf(c, epoch, calls).state, r, now).1 == None
       <==> Fits(c, r) && exists i: nat :: Presents(RunOf(c, epoch, calls).log, i, r.grant, now)
  {
    RunKeepsInvariant(c, epoch, calls);
    var run := RunOf(c, epoch, calls);
    if Consume(c, run.state, r, now).1 == None {
      var m := ConsumedIssue(c, run, r, now, Clock(calls));
      assert Presents(run.log, m, r.grant, now);
    }
    if i: nat :| Presents(run.log, i, r.grant, now) {
      assert Genuine(c, run.log[i]);
    }
  }

  /** Suspension and close are final: nothing is issued or consumed afterwards, whatever is called. */
  lemma {:induction false} DeadStaysDead(c: Config, s: State, calls: seq<Call>)
    requires Liveness(s).Some?
    ensures Liveness(After(c, s, calls)).Some?
    ensures forall call :: call in calls && (call.CallIssue? || call.CallConsume?) ==>
              Did(c, After(c, s, calls), call) == []
    ensures (s.closed ==> After(c, s, calls).closed) && (s.suspended ==> After(c, s, calls).suspended)
  {
    if |calls| > 0 {
      DeadStaysDead(c, s, calls[..|calls| - 1]);
    }
  }

  ghost function After(c: Config, s: State, calls: seq<Call>): State {
    if |calls| == 0 then s else Next(c, After(c, s, calls[..|calls| - 1]), calls[|calls| - 1])
  }
}
