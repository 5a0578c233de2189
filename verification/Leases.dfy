/** Lease conservation over every run of the resource table. */
module Leases {
  import opened Basics
  import opened RuntimeStatus
  import opened HandleTable

  // ---------- each operation keeps the balance ----------

  /** Changing a slot without weight into another without weight moves no sum. */
  lemma SameSums(t: Table, i: nat, s: Slot)
    requires i < MAX_RESOURCES
    requires forall id :: Weight(t[i], id) == Weight(s, id)
    ensures forall id :: Leased(t[i := s], id) == Leased(t, id)
  {
    forall id ensures Leased(t[i := s], id) == Leased(t, id) {
      LeasedUpdate(t, i, s, id);
    }
  }

  lemma AllocateKeeps(t: Table, s: NewSlot)
    requires LeasesBalance(t)
    ensures LeasesBalance(Allocate(t, s).1)
  {
    match FirstFree(t)
    case None =>
    case Some(i) =>
      var s' := s.(alive := true, released := false, generation := NextGeneration(t[i].generation));
      SameSums(t, i, s');
      NothingLeasedFromDead(t, i);
      var u := t[i := s'];
      forall k: nat | k < MAX_RESOURCES ensures LeaseOk(u, k) && ArenaOk(u, k) {
        assert LeaseOk(t, k) && ArenaOk(t, k);
      }
  }

  lemma NothingLeasedFromDead(t: Table, i: nat)
    requires LeasesBalance(t) && i < MAX_RESOURCES && !(t[i].alive && t[i].kind == Arena)
    ensures Leased(t, i + 1) == 0
  {
    forall k | 0 <= k < |t| ensures Weight(t[k], i + 1) == 0 {
      assert LeaseOk(t, k);
    }
    NoLeases(t, i + 1);
  }

  lemma GrantLeaseKeeps(t: Table, arena: nat, sessionId: nat, count: U64, first: U64, last: U64)
    requires LeasesBalance(t) && arena < MAX_RESOURCES && t[arena].alive && t[arena].kind == Arena && count > 0
    ensures LeasesBalance(GrantLease(t, arena, sessionId, count, first, last).1)
  {
    match FirstFree(t)
    case None =>
    case Some(i) =>
      var u := GrantLease(t, arena, sessionId, count, first, last).1;
      var lease := u[i];
      var m := t[i := lease];
      assert u == m[arena := u[arena]];
      forall id ensures Leased(u, id) == Leased(t, id) + (if id == arena + 1 then count else 0) {
        LeasedUpdate(t, i, lease, id);
        LeasedUpdate(m, arena, u[arena], id);
      }
      forall k: nat | k < MAX_RESOURCES ensures LeaseOk(u, k) && ArenaOk(u, k) {
        assert LeaseOk(t, k) && ArenaOk(t, k);
      }
  }

  /** A live lease's own events are among those its arena counts. */
  lemma LeaseIsCounted(t: Table, lease: nat)
    requires LeasesBalance(t) && lease < MAX_RESOURCES && t[lease].alive && t[lease].kind == Lease
    ensures InTable(t[lease].parentId) && t[t[lease].parentId - 1].alive && t[t[lease].parentId - 1].kind == Arena
    ensures 0 < t[lease].sequence <= t[t[lease].parentId - 1].inflight
    ensures t[lease].epoch == t[t[lease].parentId - 1].arenaGeneration
  {
    assert LeaseOk(t, lease);
    assert ArenaOk(t, t[lease].parentId - 1);
    LeasedUpdate(t, lease, t[lease], t[lease].parentId);
  }

  /** Acknowledging a live lease never meets a dead arena or too small a count: it succeeds for the session that
      holds the lease and is refused for every other. */
  lemma AckIsDecidedByHolder(t: Table, lease: nat, sessionId: nat)
    requires LeasesBalance(t) && lease < MAX_RESOURCES && t[lease].alive && t[lease].kind == Lease
    ensures AckLease(t, lease, sessionId).0 == if t[lease].outstanding == sessionId then OK else WRONG_HANDLE_KIND
  {
    LeaseIsCounted(t, lease);
  }

  lemma AckLeaseKeeps(t: Table, lease: nat, sessionId: nat)
    requires LeasesBalance(t) && lease < MAX_RESOURCES && t[lease].alive && t[lease].kind == Lease
    ensures LeasesBalance(AckLease(t, lease, sessionId).1)
  {
    AckIsDecidedByHolder(t, lease, sessionId);
    LeaseIsCounted(t, lease);
    if t[lease].outstanding == sessionId {
      var u := AckLease(t, lease, sessionId).1;
      var a := t[lease].parentId - 1;
      var m := t[a := u[a]];
      assert u == m[lease := u[lease]];
      forall id ensures Leased(u, id) == Leased(t, id) - Weight(t[lease], id) {
        LeasedUpdate(t, a, u[a], id);
        LeasedUpdate(m, lease, u[lease], id);
      }
      forall k: nat | k < MAX_RESOURCES ensures LeaseOk(u, k) && ArenaOk(u, k) {
        assert LeaseOk(t, k) && ArenaOk(t, k);
      }
    }
  }

  /** While a lease over it is live, an arena can be neither recycled nor released. */
  lemma LeasedArenaIsPinned(t: Table, lease: nat, next: U64)
    requires LeasesBalance(t) && lease < MAX_RESOURCES && t[lease].alive && t[lease].kind == Lease
    requires next > t[lease].epoch
    ensures InTable(t[lease].parentId)
    ensures ReleaseArena(t, t[lease].parentId - 1) == (ARENA_BUSY, t)
    ensures RecycleArena(t, t[lease].parentId - 1, t[lease].epoch, next) == (ARENA_BUSY, t)
  {
    LeaseIsCounted(t, lease);
  }

  /** An arena without live leases can always be released. */
  lemma IdleArenaIsReleasable(t: Table, arena: nat)
    requires LeasesBalance(t) && arena < MAX_RESOURCES && t[arena].alive && t[arena].kind == Arena
    requires forall i :: 0 <= i < MAX_RESOURCES ==> !(t[i].alive && t[i].kind == Lease && t[i].parentId == arena + 1)
    ensures ReleaseArena(t, arena).0 == OK
  {
    NoLeases(t, arena + 1);
    assert ArenaOk(t, arena);
  }

  /** Changing nothing but the generation of an arena without leases, or anything that only arenas use in a slot
      that is none. */
  lemma RecycleKeeps(t: Table, i: nat, u: Table)
    requires LeasesBalance(t) && i < MAX_RESOURCES && t[i].alive && t[i].inflight == 0
    requires u == t[i := t[i].(arenaGeneration := u[i].arenaGeneration)]
    ensures LeasesBalance(u)
  {
    SameSums(t, i, u[i]);
    forall k: nat | k < MAX_RESOURCES ensures LeaseOk(u, k) && ArenaOk(u, k) {
      assert LeaseOk(t, k) && ArenaOk(t, k);
      if t[k].alive && t[k].kind == Lease && t[k].parentId == i + 1 {
        LeaseIsCounted(t, k);
      }
    }
  }

  // ---------- what breaks the balance ----------

  /** A resource that no lease depends on. */
  predicate Unleased(s: Slot) {
    s.kind != Lease && (s.kind == Arena ==> s.inflight == 0)
  }

  lemma {:induction false} SomeLease(t: seq<Slot>, arenaId: nat) returns (k: nat)
    requires Leased(t, arenaId) > 0
    ensures k < |t| && Weight(t[k], arenaId) > 0
  {
    if Weight(t[|t| - 1], arenaId) > 0 {
      k := |t| - 1;
    } else {
      k := SomeLease(t[..|t| - 1], arenaId);
    }
  }

  /** Taking a resource out of use keeps the balance exactly if no lease depends on it. */
  lemma ReleaseKeepsIff(t: Table, i: nat, u: Table)
    requires LeasesBalance(t) && i < MAX_RESOURCES && t[i].alive && u == t[i := u[i]] && !u[i].alive
    ensures LeasesBalance(u) <==> Unleased(t[i])
  {
    if Unleased(t[i]) {
      UnleasedReleaseKeeps(t, i, u);
    } else if t[i].kind == Lease {
      LeaseIsCounted(t, i);
      var p := t[i].parentId;
      LeasedUpdate(t, i, u[i], p);
      assert ArenaOk(t, p - 1) && !ArenaOk(u, p - 1);
    } else {
      assert ArenaOk(t, i);
      var k := SomeLease(t, i + 1);
      assert !LeaseOk(u, k);
    }
  }

  lemma UnleasedReleaseKeeps(t: Table, i: nat, u: Table)
    requires LeasesBalance(t) && i < MAX_RESOURCES && t[i].alive && u == t[i := u[i]] && !u[i].alive
    requires Unleased(t[i])
    ensures LeasesBalance(u)
  {
    SameSums(t, i, u[i]);
    forall k: nat | k < MAX_RESOURCES ensures LeaseOk(u, k) && ArenaOk(u, k) {
      assert LeaseOk(t, k) && ArenaOk(t, k);
      if t[k].alive && t[k].kind == Lease && t[k].parentId == i + 1 {
        LeaseIsCounted(t, k);
      }
    }
  }

  /** A lease over something that is no arena. */
  lemma MisplacedLeaseBreaks(t: Table, i: nat, sessionId: nat, count: U64, first: U64, last: U64)
    requires i < MAX_RESOURCES && t[i].alive && t[i].kind != Arena && FirstFree(t).Some?
    ensures !LeasesBalance(GrantLease(t, i, sessionId, count, first, last).1)
  {
    assert !LeaseOk(GrantLease(t, i, sessionId, count, first, last).1, FirstFree(t).value);
  }

  /** Acknowledging something that is no lease takes its `sequence` off an arena's count. */
  lemma MisplacedAckKeepsIff(t: Table, i: nat, sessionId: nat)
    requires LeasesBalance(t) && i < MAX_RESOURCES && t[i].alive && t[i].kind != Lease
    requires AckLease(t, i, sessionId).0 == OK
    ensures LeasesBalance(AckLease(t, i, sessionId).1) <==> t[i].sequence == 0 && Unleased(t[i])
  {
    var u, a := AckLease(t, i, sessionId).1, t[i].parentId - 1;
    assert ArenaOk(t, a);
    if t[i].sequence == 0 {
      assert u == Release(t, i);
      ReleaseKeepsIff(t, i, u);
    } else if a == i {
      var k := SomeLease(t, i + 1);
      assert !LeaseOk(u, k);
    } else {
      var m := t[a := u[a]];
      LeasedUpdate(t, a, u[a], a + 1);
      LeasedUpdate(m, i, u[i], a + 1);
      assert !ArenaOk(u, a);
    }
  }

  // ---------- calls ----------

  /** One call into the kernel, as far as it touches the table. Handles are whatever the caller passes; a call that is
      refused for reasons outside the table is one left out of a run. */
  datatype Call =
    | New(slot: NewSlot)
    | Free(instance: Handle, h: Handle, kind: Kind)
    | Poll(instance: Handle, session: Handle, arena: Handle, count: U64, first: U64, last: U64)
    | Ack(instance: Handle, session: Handle, lease: Handle)
    | FreeArena(instance: Handle, arena: Handle)
    | Recycle(instance: Handle, arena: Handle, expected: U64, next: U64)
    | Raise(instance: Handle, session: Handle, sequence: U64)

  /** The kinds that have a release call of their own without conditions on leases. */
  predicate Plain(kind: Kind) {
    kind == Instance || kind == Profile || kind == Bundle || kind == Session || kind == Bytes
  }

  /** Status and table of a call. A poll without ready events takes no lease; a sequence is only ever raised for a
      slot that holds a session. */
  function Perform(t: Table, c: Call): (Status, Table) {
    match c
    case New(slot) => Allocate(t, slot)
    case Free(instance, h, kind) =>
      if !Plain(kind) then (INVALID_ARGUMENT, t)
      else if Resolve(t, instance, h, kind) != OK then (Resolve(t, instance, h, kind), t)
      else (OK, Release(t, h.resourceId - 1))
    case Poll(instance, session, arena, count, first, last) =>
      if Resolve(t, instance, session, Session) != OK then (Resolve(t, instance, session, Session), t)
      else if Resolve(t, instance, arena, Arena) != OK then (Resolve(t, instance, arena, Arena), t)
      else if count == 0 then (OK, t)
      else GrantLease(t, arena.resourceId - 1, session.resourceId, count, first, last)
    case Ack(instance, session, lease) =>
      if Resolve(t, instance, session, Session) != OK then (Resolve(t, instance, session, Session), t)
      else if Resolve(t, instance, lease, Lease) != OK then (Resolve(t, instance, lease, Lease), t)
      else AckLease(t, lease.resourceId - 1, session.resourceId)
    case FreeArena(instance, arena) =>
      if Resolve(t, instance, arena, Arena) != OK then (Resolve(t, instance, arena, Arena), t)
      else ReleaseArena(t, arena.resourceId - 1)
    case Recycle(instance, arena, expected, next) =>
      if Resolve(t, instance, arena, Arena) != OK then (Resolve(t, instance, arena, Arena), t)
      else RecycleArena(t, arena.resourceId - 1, expected, next)
    case Raise(instance, session, sequence) =>
      if Resolve(t, instance, session, Session) != OK then (Resolve(t, instance, session, Session), t)
      else (OK, RaiseSequence(t, session.resourceId - 1, sequence))
  }

  function RaiseSequence(t: Table, i: nat, sequence: U64): Table
    requires i < MAX_RESOURCES
  {
    if t[i].kind == Session then t[i := t[i].(sequence := sequence)] else t
  }

  function After(t: Table, c: Call): Table {
    Perform(t, c).1
  }

  /** The slot names the session as its holder, and as its parent a live arena that counts enough events. */
  predicate HeldOver(t: Table, l: Slot, sessionId: nat) {
    && l.outstanding == sessionId && InTable(l.parentId)
    && t[l.parentId - 1].alive && t[l.parentId - 1].kind == Arena && l.sequence <= t[l.parentId - 1].inflight
  }

  /** Can the call be made without leaving a lease behind? */
  predicate Harmless(t: Table, c: Call) {
    match c
    case New(_) => true
    case Free(instance, h, kind) =>
      Plain(kind) && Resolve(t, instance, h, kind) == OK ==> Unleased(t[h.resourceId - 1])
    case Poll(instance, session, arena, count, _, _) =>
      Resolve(t, instance, session, Session) == OK && Resolve(t, instance, arena, Arena) == OK
      && count > 0 && FirstFree(t).Some? ==>
        t[arena.resourceId - 1].kind == Arena
    case Ack(instance, session, lease) =>
      Resolve(t, instance, session, Session) == OK && Resolve(t, instance, lease, Lease) == OK
      && HeldOver(t, t[lease.resourceId - 1], session.resourceId) ==>
        t[lease.resourceId - 1].kind == Lease
        || (t[lease.resourceId - 1].sequence == 0 && Unleased(t[lease.resourceId - 1]))
    case FreeArena(instance, arena) =>
      Resolve(t, instance, arena, Arena) == OK && t[arena.resourceId - 1].inflight == 0 ==>
        t[arena.resourceId - 1].kind != Lease
    case Recycle(_, _, _, _) => true
    case Raise(_, _, _) => true
  }

  /** Exactly the harmless calls keep the balance. */
  lemma CallKeepsIff(t: Table, c: Call)
    requires LeasesBalance(t)
    ensures LeasesBalance(After(t, c)) <==> Harmless(t, c)
  {
    match c
    case New(slot) => AllocateKeeps(t, slot);
    case Free(instance, h, kind) =>
      if Plain(kind) && Resolve(t, instance, h, kind) == OK {
        ReleaseKeepsIff(t, h.resourceId - 1, Release(t, h.resourceId - 1));
      }
    case Poll(_, _, _, _, _, _) => PollKeepsIff(t, c);
    case Ack(_, _, _) => AckKeepsIff(t, c);
    case FreeArena(instance, arena) =>
      if Resolve(t, instance, arena, Arena) == OK && t[arena.resourceId - 1].inflight == 0 {
        ReleaseKeepsIff(t, arena.resourceId - 1, After(t, c));
      }
    case Recycle(_, _, _, _) => RecycleCallKeeps(t, c);
    case Raise(_, _, _) => RaiseKeeps(t, c);
  }

  lemma PollKeepsIff(t: Table, c: Call)
    requires LeasesBalance(t) && c.Poll?
    ensures LeasesBalance(After(t, c)) <==> Harmless(t, c)
  {
    if Resolve(t, c.instance, c.session, Session) == OK && Resolve(t, c.instance, c.arena, Arena) == OK && c.count > 0
       && FirstFree(t).Some? {
      var i := c.arena.resourceId - 1;
      if t[i].kind == Arena {
        GrantLeaseKeeps(t, i, c.session.resourceId, c.count, c.first, c.last);
      } else {
        MisplacedLeaseBreaks(t, i, c.session.resourceId, c.count, c.first, c.last);
      }
    }
  }

  lemma AckKeepsIff(t: Table, c: Call)
    requires LeasesBalance(t) && c.Ack?
    ensures LeasesBalance(After(t, c)) <==> Harmless(t, c)
  {
    if Resolve(t, c.instance, c.session, Session) == OK && Resolve(t, c.instance, c.lease, Lease) == OK
       && AckLease(t, c.lease.resourceId - 1, c.session.resourceId).0 == OK {
      if t[c.lease.resourceId - 1].kind == Lease {
        AckLeaseKeeps(t, c.lease.resourceId - 1, c.session.resourceId);
      } else {
        MisplacedAckKeepsIff(t, c.lease.resourceId - 1, c.session.resourceId);
      }
    }
  }

  lemma RecycleCallKeeps(t: Table, c: Call)
    requires LeasesBalance(t) && c.Recycle?
    ensures LeasesBalance(After(t, c))
  {
    if Perform(t, c).0 == OK {
      RecycleKeeps(t, c.arena.resourceId - 1, After(t, c));
    }
  }

  lemma RaiseKeeps(t: Table, c: Call)
    requires LeasesBalance(t) && c.Raise?
    ensures LeasesBalance(After(t, c))
  {
    if After(t, c) != t {
      var i, u := c.session.resourceId - 1, After(t, c);
      SameSums(t, i, u[i]);
      forall k: nat | k < MAX_RESOURCES ensures LeaseOk(u, k) && ArenaOk(u, k) {
        assert LeaseOk(t, k) && ArenaOk(t, k);
      }
    }
  }

  /** The handles that a call goes on to rely on name their resources by the kinds these have. */
  predicate GenuineCall(t: Table, c: Call) {
    match c
    case New(_) => true
    case Free(_, h, _) => Genuine(t, h)
    case Poll(_, _, arena, _, _, _) => Genuine(t, arena)
    case Ack(_, _, lease) => Genuine(t, lease)
    case FreeArena(_, arena) => Genuine(t, arena)
    case Recycle(_, _, _, _) => true
    case Raise(_, _, _) => true
  }

  lemma GenuineIsHarmless(t: Table, c: Call)
    requires GenuineCall(t, c)
    ensures Harmless(t, c)
  {
  }

  /** The handle of a live lease, passed as that of an arena, resolves; the release it is passed to succeeds, and the
      arena goes on counting events that no lease holds any more. */
  lemma ForgedReleaseBreaksBalance(t: Table, lease: nat)
    requires LeasesBalance(t) && lease < MAX_RESOURCES && t[lease].alive && t[lease].kind == Lease
    requires !t[lease].released && t[lease].inflight == 0
    ensures var c := FreeArena(HandleOf(t, lease), HandleOf(t, lease).(kind := Arena));
            Perform(t, c).0 == OK && !LeasesBalance(After(t, c))
  {
    CallKeepsIff(t, FreeArena(HandleOf(t, lease), HandleOf(t, lease).(kind := Arena)));
  }

  // ---------- runs ----------

  function RunFrom(t: Table, calls: seq<Call>): Table {
    if |calls| == 0 then t else After(RunFrom(t, calls[..|calls| - 1]), calls[|calls| - 1])
  }

  function Empty(): Table {
    seq(MAX_RESOURCES, i => BLANK)
  }

  /** The tables reachable from an empty one. */
  function RunCalls(calls: seq<Call>): Table {
    RunFrom(Empty(), calls)
  }

  lemma EmptyBalances()
    ensures LeasesBalance(Empty())
  {
    forall k: nat | k < MAX_RESOURCES ensures LeaseOk(Empty(), k) && ArenaOk(Empty(), k) {
    }
  }

  predicate HarmlessRun(calls: seq<Call>) {
    |calls| == 0
    || (HarmlessRun(calls[..|calls| - 1]) && Harmless(RunCalls(calls[..|calls| - 1]), calls[|calls| - 1]))
  }

  predicate GenuineRun(calls: seq<Call>) {
    |calls| == 0
    || (GenuineRun(calls[..|calls| - 1]) && GenuineCall(RunCalls(calls[..|calls| - 1]), calls[|calls| - 1]))
  }

  /** The balance after every call of a run. */
  ghost predicate BalancedThroughout(calls: seq<Call>) {
    LeasesBalance(RunCalls(calls)) && (|calls| > 0 ==> BalancedThroughout(calls[..|calls| - 1]))
  }

  /** The runs that never leave the balance are exactly those of harmless calls. */
  lemma {:induction false} BalancedThroughoutIff(calls: seq<Call>)
    ensures BalancedThroughout(calls) <==> HarmlessRun(calls)
  {
    if |calls| == 0 {
      EmptyBalances();
    } else {
      var n := |calls| - 1;
      BalancedThroughoutIff(calls[..n]);
      if BalancedThroughout(calls[..n]) {
        CallKeepsIff(RunCalls(calls[..n]), calls[n]);
      }
    }
  }

  lemma {:induction false} GenuineRunIsHarmless(calls: seq<Call>)
    requires GenuineRun(calls)
    ensures HarmlessRun(calls)
  {
    if |calls| > 0 {
      GenuineRunIsHarmless(calls[..|calls| - 1]);
      GenuineIsHarmless(RunCalls(calls[..|calls| - 1]), calls[|calls| - 1]);
    }
  }

  /** With genuine handles the leases balance in every run. */
  lemma LeasesAlwaysBalance(calls: seq<Call>)
    requires GenuineRun(calls)
    ensures LeasesBalance(RunCalls(calls))
  {
    GenuineRunIsHarmless(calls);
    BalancedThroughoutIff(calls);
  }

  /** In every run of harmless calls, acknowledging a live lease never reports the internal-invariant status. */
  lemma AckNeverReportsInternalInvariant(calls: seq<Call>, lease: nat, sessionId: nat)
    requires HarmlessRun(calls) && lease < MAX_RESOURCES
    requires RunCalls(calls)[lease].alive && RunCalls(calls)[lease].kind == Lease
    ensures AckLease(RunCalls(calls), lease, sessionId).0 != INTERNAL_INVARIANT
    ensures AckLease(RunCalls(calls), lease, sessionId).0 != STALE_HANDLE
  {
    BalancedThroughoutIff(calls);
    AckIsDecidedByHolder(RunCalls(calls), lease, sessionId);
  }

  const KERNEL := Handle(1, 1, 1, Instance)
  const ARENA := Handle(1, 2, 1, Arena)
  const SESSION := Handle(1, 3, 1, Session)
  const LEASE := Handle(1, 4, 1, Lease)
  const LEASING := Poll(KERNEL, SESSION, ARENA, 1, 1, 1)

  /** An instance, an arena, a session, and one event leased out of the arena. */
  function LeasingCalls(): seq<Call> {
    MakingCalls() + [LEASING]
  }

  lemma FirstFreeIs(t: Table, i: nat)
    requires i < MAX_RESOURCES && !t[i].alive && forall j :: 0 <= j < i ==> t[j].alive
    ensures FirstFree(t) == Some(i)
  {
  }

  /** The first `n` slots hold live resources of instance 1, each allocated once; no other was ever used. */
  ghost predicate Filled(t: Table, n: nat) {
    && (forall i: nat :: i < n && i < MAX_RESOURCES ==>
          t[i].alive && !t[i].released && t[i].generation == 1 && t[i].instanceId == 1)
    && (forall i: nat :: n <= i < MAX_RESOURCES ==> t[i] == BLANK)
  }

  /** Making one more resource in the lowest free slot. */
  lemma OneMore(calls: seq<Call>, n: nat, s: NewSlot)
    requires GenuineRun(calls) && n < MAX_RESOURCES && Filled(RunCalls(calls), n) && s.instanceId == 1
    ensures GenuineRun(calls + [New(s)]) && Filled(RunCalls(calls + [New(s)]), n + 1)
    ensures RunCalls(calls + [New(s)])[n].kind == s.kind
    ensures n > 0 ==> RunCalls(calls + [New(s)])[n - 1] == RunCalls(calls)[n - 1]
  {
    FirstFreeIs(RunCalls(calls), n);
    GenuineRunStep(calls, New(s));
  }

  function MakingCalls(): seq<Call> {
    [New(BLANK.(kind := Instance, instanceId := 1))] + [New(ArenaSlot(1, 64, 0))] + [New(SessionSlot(1, 0, 0, 0, 0))]
  }

  lemma MakingIs()
    ensures GenuineRun(MakingCalls()) && Filled(RunCalls(MakingCalls()), 3)
    ensures RunCalls(MakingCalls())[1].kind == Arena
  {
    var one := [New(BLANK.(kind := Instance, instanceId := 1))];
    assert [] + one == one;
    OneMore([], 0, BLANK.(kind := Instance, instanceId := 1));
    OneMore(one, 1, ArenaSlot(1, 64, 0));
    OneMore(one + [New(ArenaSlot(1, 64, 0))], 2, SessionSlot(1, 0, 0, 0, 0));
  }

  lemma LeasingIs()
    ensures GenuineRun(LeasingCalls())
    ensures var t := RunCalls(LeasingCalls());
            t[3].alive && t[3].kind == Lease && !t[3].released && t[3].inflight == 0 && HandleOf(t, 3) == LEASE
  {
    MakingIs();
    FirstFreeIs(RunCalls(MakingCalls()), 3);
    GenuineRunStep(MakingCalls(), LEASING);
    LeaseMade(RunCalls(MakingCalls()));
  }

  lemma LeaseMade(t: Table)
    requires Filled(t, 3) && t[1].kind == Arena && FirstFree(t) == Some(3)
    ensures var u := After(t, LEASING);
            u[3].alive && u[3].kind == Lease && !u[3].released && u[3].inflight == 0 && HandleOf(u, 3) == LEASE
  {
    assert Resolve(t, KERNEL, SESSION, Session) == OK && Resolve(t, KERNEL, ARENA, Arena) == OK;
  }

  lemma GenuineRunStep(calls: seq<Call>, c: Call)
    requires GenuineRun(calls) && GenuineCall(RunCalls(calls), c)
    ensures GenuineRun(calls + [c]) && RunCalls(calls + [c]) == After(RunCalls(calls), c)
  {
    assert (calls + [c])[..|calls|] == calls;
  }

  /** Four genuine calls and one whose handle kind was altered lose the balance. */
  lemma ForgedRunBreaksBalance()
    ensures GenuineRun(LeasingCalls())
    ensures !LeasesBalance(RunCalls(LeasingCalls() + [FreeArena(LEASE, LEASE.(kind := Arena))]))
  {
    LeasingIs();
    LeasesAlwaysBalance(LeasingCalls());
    ForgedReleaseBreaksBalance(RunCalls(LeasingCalls()), 3);
    RunFromStep(Empty(), LeasingCalls(), FreeArena(LEASE, LEASE.(kind := Arena)), 3);
  }

  // ---------- handles over runs ----------

  /** The slot that a call allocates. */
  function Allocated(t: Table, c: Call): Option<nat> {
    if c.New? || (c.Poll? && Resolve(t, c.instance, c.session, Session) == OK
                  && Resolve(t, c.instance, c.arena, Arena) == OK && c.count > 0)
    then FirstFree(t) else None
  }

  /** How often slot `i` is allocated by the calls. */
  function Allocations(t: Table, calls: seq<Call>, i: nat): nat {
    if |calls| == 0 then 0
    else Allocations(t, calls[..|calls| - 1], i)
         + (if Allocated(RunFrom(t, calls[..|calls| - 1]), calls[|calls| - 1]) == Some(i) then 1 else 0)
  }

  function GenerationAfter(g: U32, k: nat): U32 {
    if k == 0 then g else NextGeneration(GenerationAfter(g, k - 1))
  }

  /** Generations run through 1..2^32-1 and start again. */
  lemma {:induction false} GenerationIs(g: U32, k: nat)
    requires g != 0
    ensures GenerationAfter(g, k) == 1 + (g - 1 + k) % 0xFFFF_FFFF
  {
    if k > 0 {
      GenerationIs(g, k - 1);
    }
  }

  /** A slot is back at a generation exactly after every 2^32 - 1 allocations. */
  lemma GenerationsRepeatIff(g: U32, k: nat)
    requires g != 0
    ensures GenerationAfter(g, k) == g <==> k % 0xFFFF_FFFF == 0
  {
    GenerationIs(g, k);
  }

  lemma NoEarlyRepeat(g: U32, k: nat)
    requires g != 0 && 0 < k < 0xFFFF_FFFF
    ensures GenerationAfter(g, k) != g
  {
    GenerationsRepeatIff(g, k);
  }

  /** A call moves the generation of the slot it allocates, and of no other. */
  lemma CallMovesGeneration(t: Table, c: Call, i: nat)
    requires i < MAX_RESOURCES
    ensures After(t, c)[i].generation
         == if Allocated(t, c) == Some(i) then NextGeneration(t[i].generation) else t[i].generation
  {
  }

  lemma CallKeepsKind(t: Table, c: Call, i: nat)
    requires i < MAX_RESOURCES && Allocated(t, c) != Some(i)
    ensures After(t, c)[i].kind == t[i].kind && (After(t, c)[i].alive ==> t[i].alive)
  {
  }

  lemma {:induction false} RunMovesGeneration(t: Table, calls: seq<Call>, i: nat)
    requires i < MAX_RESOURCES
    ensures RunFrom(t, calls)[i].generation == GenerationAfter(t[i].generation, Allocations(t, calls, i))
  {
    if |calls| > 0 {
      var n := |calls| - 1;
      RunMovesGeneration(t, calls[..n], i);
      CallMovesGeneration(RunFrom(t, calls[..n]), calls[n], i);
    }
  }

  /** Without an allocation a slot keeps its kind, and what is dead stays dead. */
  lemma {:induction false} UnallocatedStays(t: Table, calls: seq<Call>, i: nat)
    requires i < MAX_RESOURCES && Allocations(t, calls, i) == 0
    ensures RunFrom(t, calls)[i].kind == t[i].kind && (RunFrom(t, calls)[i].alive ==> t[i].alive)
  {
    if |calls| > 0 {
      var n := |calls| - 1;
      UnallocatedStays(t, calls[..n], i);
      CallKeepsKind(RunFrom(t, calls[..n]), calls[n], i);
    }
  }

  /** The handle of a new resource resolves, is genuine, and has a generation. */
  lemma NewHandleResolves(t: Table, s: NewSlot)
    requires FirstFree(t).Some?
    ensures var i, u := FirstFree(t).value, Allocate(t, s).1;
            && Genuine(u, HandleOf(u, i)) && HandleOf(u, i).generation != 0
            && Resolve(u, HandleOf(u, i), HandleOf(u, i), s.kind) == OK
  {
  }

  /** The handle of a resource that is gone resolves again exactly if its slot holds a live resource of the instance
      and was allocated a multiple of 2^32 - 1 times since. */
  lemma OldHandleResolvesIff(t: Table, calls: seq<Call>, instance: Handle, h: Handle, kind: Kind)
    requires InTable(h.resourceId) && h.generation != 0
    requires t[h.resourceId - 1].generation == h.generation && !t[h.resourceId - 1].alive
    ensures var i, u := h.resourceId - 1, RunFrom(t, calls);
            Resolve(u, instance, h, kind) == OK
            <==> (&& h.instanceId == instance.instanceId == u[i].instanceId && h.kind == kind
                  && u[i].alive && !u[i].released
                  && Allocations(t, calls, i) % 0xFFFF_FFFF == 0)
  {
    RunMovesGeneration(t, calls, h.resourceId - 1);
    GenerationsRepeatIff(h.generation, Allocations(t, calls, h.resourceId - 1));
  }

  /** So it is refused through up to 2^32 - 2 reuses of its slot. */
  lemma OldHandleRefused(t: Table, calls: seq<Call>, instance: Handle, h: Handle, kind: Kind)
    requires InTable(h.resourceId) && h.generation != 0
    requires t[h.resourceId - 1].generation == h.generation && !t[h.resourceId - 1].alive
    requires Allocations(t, calls, h.resourceId - 1) < 0xFFFF_FFFF
    ensures Resolve(RunFrom(t, calls), instance, h, kind) != OK
  {
    var i := h.resourceId - 1;
    if Allocations(t, calls, i) == 0 {
      UnallocatedStays(t, calls, i);
    } else {
      RunMovesGeneration(t, calls, i);
      NoEarlyRepeat(h.generation, Allocations(t, calls, i));
    }
  }

  /** A handle as the kernel gave it out stays genuine through as many reuses of its slot. */
  lemma IssuedHandleStaysGenuine(t: Table, calls: seq<Call>, i: nat)
    requires i < MAX_RESOURCES && t[i].alive && t[i].generation != 0
    requires Allocations(t, calls, i) < 0xFFFF_FFFF
    ensures Genuine(RunFrom(t, calls), HandleOf(t, i))
  {
    if Allocations(t, calls, i) == 0 {
      UnallocatedStays(t, calls, i);
    } else {
      RunMovesGeneration(t, calls, i);
      NoEarlyRepeat(t[i].generation, Allocations(t, calls, i));
    }
  }

  // ---------- the wrap is reached ----------

  /** Making and freeing the same resource `k` times. */
  function Reuse(t: Table, i: nat, s: NewSlot, k: nat): seq<Call>
    requires i < MAX_RESOURCES
  {
    if k == 0 then []
    else
      var h := Handle(s.instanceId, i + 1, GenerationAfter(t[i].generation, k), s.kind);
      Reuse(t, i, s, k - 1) + [New(s)] + [Free(h, h, s.kind)]
  }

  lemma RunFromStep(t: Table, calls: seq<Call>, c: Call, i: nat)
    ensures RunFrom(t, calls + [c]) == After(RunFrom(t, calls), c)
    ensures Allocations(t, calls + [c], i)
         == Allocations(t, calls, i) + (if Allocated(RunFrom(t, calls), c) == Some(i) then 1 else 0)
  {
    assert (calls + [c])[..|calls|] == calls;
  }

  lemma SameFirstFree(t: Table, i: nat, s: Slot)
    requires FirstFree(t) == Some(i) && !s.alive
    ensures FirstFree(t[i := s]) == Some(i)
  {
    var u := t[i := s];
    assert !u[i].alive && forall j :: 0 <= j < i ==> u[j].alive;
    assert FirstFree(u).Some?;
  }

  /** A resource is made in slot `i` and freed again. */
  lemma MadeAndFreed(t: Table, calls: seq<Call>, i: nat, s: NewSlot, h: Handle)
    requires FirstFree(RunFrom(t, calls)) == Some(i) && Plain(s.kind)
    requires h == Handle(s.instanceId, i + 1, NextGeneration(RunFrom(t, calls)[i].generation), s.kind)
    ensures RunFrom(t, calls + [New(s)] + [Free(h, h, s.kind)])
         == RunFrom(t, calls)[i := s.(alive := false, released := true, generation := h.generation)]
    ensures Allocations(t, calls + [New(s)] + [Free(h, h, s.kind)], i) == Allocations(t, calls, i) + 1
  {
    RunFromStep(t, calls, New(s), i);
    RunFromStep(t, calls + [New(s)], Free(h, h, s.kind), i);
  }

  lemma {:induction false} ReuseIs(t: Table, i: nat, s: NewSlot, k: nat)
    requires FirstFree(t) == Some(i) && Plain(s.kind)
    ensures var m := RunFrom(t, Reuse(t, i, s, k));
            && FirstFree(m) == Some(i) && m[i].generation == GenerationAfter(t[i].generation, k)
            && Allocations(t, Reuse(t, i, s, k), i) == k
  {
    if k > 0 {
      ReuseIs(t, i, s, k - 1);
      var calls := Reuse(t, i, s, k - 1);
      var h := Handle(s.instanceId, i + 1, GenerationAfter(t[i].generation, k), s.kind);
      MadeAndFreed(t, calls, i, s, h);
      SameFirstFree(RunFrom(t, calls), i, s.(alive := false, released := true, generation := h.generation));
    }
  }

  /** A run in which an old handle resolves again, to a resource it was not given out for. */
  lemma WrappedHandleResolves(t: Table, s: NewSlot, h: Handle)
    requires FirstFree(t) == Some(h.resourceId - 1) && Plain(s.kind) && h.generation != 0
    requires h == Handle(s.instanceId, h.resourceId, t[h.resourceId - 1].generation, s.kind)
    ensures exists calls ::
              Allocations(t, calls, h.resourceId - 1) == 0xFFFF_FFFF && Resolve(RunFrom(t, calls), h, h, s.kind) == OK
  {
    var i: nat := h.resourceId - 1;
    var reuse := Reuse(t, i, s, 0xFFFF_FFFE);
    ReuseIs(t, i, s, 0xFFFF_FFFE);
    RunFromStep(t, reuse, New(s), i);
    GenerationsRepeatIff(h.generation, 0xFFFF_FFFF);
    MadeResolves(RunFrom(t, reuse), i, s, h);
    assert Resolve(RunFrom(t, reuse + [New(s)]), h, h, s.kind) == OK;
  }

  lemma MadeResolves(m: Table, i: nat, s: NewSlot, h: Handle)
    requires FirstFree(m) == Some(i) && h == Handle(s.instanceId, i + 1, NextGeneration(m[i].generation), s.kind)
    ensures Resolve(After(m, New(s)), h, h, s.kind) == OK
  {
  }
}
