/** What each call does to the table of resources, field by field: which slots it writes, what it writes there, and when
    it is refused. */
module HandleCalls {
  import opened Basics
  import opened RuntimeStatus
  import opened HandleTable
  import opened Leases

  /** Only slots `i` and `k` may differ. */
  ghost predicate SameBut(t: Table, u: Table, i: int, k: int) {
    forall n :: 0 <= n < MAX_RESOURCES && n != i && n != k ==> u[n] == t[n]
  }

  /** Slot `i` is the lowest that is not alive. */
  ghost predicate LowestFree(t: Table, i: nat) {
    i < MAX_RESOURCES && !t[i].alive && forall k :: 0 <= k < i ==> t[k].alive
  }

  /** A slot that is used again gets the next generation, and after the last one the first. */
  ghost predicate Follows(g: U32, next: U32) {
    next > 0 && (next == g + 1 || (g == 0xFFFF_FFFF && next == 1))
  }

  // ---------- new resources ----------

  /** A new resource takes the lowest free slot, in that slot's next generation; it is refused exactly if all 256 are
      alive. */
  lemma NewIs(t: Table, s: NewSlot)
    ensures var (status, u) := Perform(t, Call.New(s));
            && (status == ALLOCATION_FAILURE <==> forall k :: 0 <= k < 256 ==> t[k].alive)
            && (status == ALLOCATION_FAILURE ==> u == t)
            && (status != ALLOCATION_FAILURE ==>
                  status == OK && exists i: nat :: LowestFree(t, i) && SameBut(t, u, i, i) && Started(t[i], s, u[i]))
  {
    if FirstFree(t).Some? {
      assert LowestFree(t, FirstFree(t).value);
    }
  }

  /** Slot `u` holds what was asked for, after `before`. */
  ghost predicate Started(before: Slot, s: Slot, u: Slot) {
    && u.alive && !u.released && Follows(before.generation, u.generation)
    && u.(alive := s.alive, released := s.released, generation := s.generation) == s
  }

  lemma NewSlotsAre(instanceId: nat, capacity: U64, generation: U64, bundleId: nat, epoch: U64, sequence: U64,
                    outstanding: nat)
    ensures var a := ArenaSlot(instanceId, capacity, generation);
            && a.kind == Arena && a.instanceId == instanceId && a.arenaCapacity == capacity
            && a.arenaGeneration == generation && a.inflight == 0
    ensures var s := SessionSlot(instanceId, bundleId, epoch, sequence, outstanding);
            && s.kind == Session && s.instanceId == instanceId && s.parentId == bundleId && s.epoch == epoch
            && s.sequence == sequence && s.outstanding == outstanding && s.inflight == 0
  {
  }

  // ---------- leases ----------

  /** The lease says which session holds which arena, in which generation, with how many events and in which range. */
  ghost predicate LeaseSays(l: Slot, arena: Handle, a: Slot, session: Handle, count: U64, first: U64, last: U64) {
    && l.alive && !l.released && l.kind == Lease && l.instanceId == a.instanceId
    && l.parentId == arena.resourceId && l.outstanding == session.resourceId && l.epoch == a.arenaGeneration
    && l.sequence == count && l.leaseFirst == first && l.leaseLast == last && l.inflight == 0
  }

  /** A poll with ready events makes a lease in the lowest free slot, and its arena counts the events. */
  lemma PollIs(t: Table, instance: Handle, session: Handle, arena: Handle, count: U64, first: U64, last: U64)
    requires Names(t, instance, session, Session) && Names(t, instance, arena, Arena)
    ensures var (status, u) := Perform(t, Call.Poll(instance, session, arena, count, first, last));
            var a := arena.resourceId - 1;
            && (count == 0 ==> status == OK && u == t)
            && (count > 0 ==>
                  (status == ALLOCATION_FAILURE <==> forall k :: 0 <= k < 256 ==> t[k].alive))
            && (status == ALLOCATION_FAILURE ==> u == t)
            && (status != ALLOCATION_FAILURE && count > 0 ==>
                  && status == OK && u[a] == t[a].(inflight := t[a].inflight + count)
                  && exists i: nat :: LowestFree(t, i) && SameBut(t, u, i, a)
                                      && LeaseSays(u[i], arena, t[a], session, count, first, last)
                                      && Follows(t[i].generation, u[i].generation))
  {
    ResolveIs(t, instance, session, Session);
    ResolveIs(t, instance, arena, Arena);
    if FirstFree(t).Some? {
      assert LowestFree(t, FirstFree(t).value);
    }
  }

  /** A live arena that counts the events of the lease. */
  ghost predicate CountedBy(t: Table, l: Slot) {
    && 1 <= l.parentId <= 256 && t[l.parentId - 1].alive && t[l.parentId - 1].kind == Arena
    && l.sequence <= t[l.parentId - 1].inflight
  }

  /** A lease is given back by the session that holds it; its slot is released and its arena stops counting it. */
  lemma AckIs(t: Table, instance: Handle, session: Handle, lease: Handle)
    requires Names(t, instance, session, Session) && Names(t, instance, lease, Lease)
    ensures var (status, u) := Perform(t, Call.Ack(instance, session, lease));
            var i, l := lease.resourceId - 1, t[lease.resourceId - 1];
            && (status == WRONG_HANDLE_KIND <==> l.outstanding != session.resourceId)
            && (status == OK <==> l.outstanding == session.resourceId && CountedBy(t, l))
            && (status == INTERNAL_INVARIANT
                <==> l.outstanding == session.resourceId && !CountedBy(t, l) && CountedBy(t, l.(sequence := 0)))
            && (status in {OK, WRONG_HANDLE_KIND, INTERNAL_INVARIANT, STALE_HANDLE})
            && (status != OK ==> u == t)
            && (status == OK ==>
                  SameBut(t, u, i, l.parentId - 1) && !u[i].alive && u[i].released
                  && u[l.parentId - 1].inflight == t[l.parentId - 1].inflight - l.sequence)
            && (status == OK && l.parentId - 1 != i ==>
                  u[i] == l.(alive := false, released := true)
                  && u[l.parentId - 1].(inflight := t[l.parentId - 1].inflight) == t[l.parentId - 1])
  {
    ResolveIs(t, instance, session, Session);
    ResolveIs(t, instance, lease, Lease);
  }

  // ---------- arenas ----------

  /** An arena is released, or given a later generation, only while it counts no events. */
  lemma FreeArenaIs(t: Table, instance: Handle, arena: Handle)
    requires Names(t, instance, arena, Arena)
    ensures var (status, u) := Perform(t, Call.FreeArena(instance, arena));
            var i, a := arena.resourceId - 1, t[arena.resourceId - 1];
            && status == (if a.inflight == 0 then OK else ARENA_BUSY)
            && (status != OK ==> u == t)
            && (status == OK ==>
                  SameBut(t, u, i, i) && u[i] == a.(alive := false, released := true, arenaCapacity := 0))
  {
    ResolveIs(t, instance, arena, Arena);
  }

  lemma RecycleIs(t: Table, instance: Handle, arena: Handle, expected: U64, next: U64)
    requires Names(t, instance, arena, Arena)
    ensures var (status, u) := Perform(t, Call.Recycle(instance, arena, expected, next));
            var i, a := arena.resourceId - 1, t[arena.resourceId - 1];
            && (status == OK <==> a.arenaGeneration == expected < next && a.inflight == 0)
            && (status == STALE_GENERATION <==> a.arenaGeneration != expected)
            && (status == INVALID_ARGUMENT <==> a.arenaGeneration == expected && next <= expected)
            && (status == ARENA_BUSY <==> a.arenaGeneration == expected < next && a.inflight > 0)
            && (status != OK ==> u == t)
            && (status == OK ==> SameBut(t, u, i, i) && u[i] == a.(arenaGeneration := next))
  {
    ResolveIs(t, instance, arena, Arena);
  }

  // ---------- everything else ----------

  /** A resource of another kind is simply released, under the kind that its handle names. */
  lemma FreeIs(t: Table, instance: Handle, h: Handle, kind: Kind)
    ensures var (status, u) := Perform(t, Call.Free(instance, h, kind));
            && (status == OK <==> kind in {Instance, Profile, Bundle, Session, Bytes} && Names(t, instance, h, kind))
            && (status != OK ==> u == t)
            && (status == OK ==>
                  SameBut(t, u, h.resourceId - 1, h.resourceId - 1)
                  && u[h.resourceId - 1] == t[h.resourceId - 1].(alive := false, released := true))
  {
    ResolveIs(t, instance, h, kind);
  }

  /** The sequence of a session moves, and nothing else. */
  lemma RaiseIs(t: Table, instance: Handle, session: Handle, sequence: U64)
    requires Names(t, instance, session, Session)
    ensures var (status, u) := Perform(t, Call.Raise(instance, session, sequence));
            var i := session.resourceId - 1;
            && status == OK && SameBut(t, u, i, i)
            && u[i] == if t[i].kind == Session then t[i].(sequence := sequence) else t[i]
  {
    ResolveIs(t, instance, session, Session);
  }

  /** The handles that a call resolves, in the order in which it does. */
  ghost function Needs(c: Call): seq<(Handle, Handle, Kind)> {
    match c
    case New(_) => []
    case Free(instance, h, kind) => [(instance, h, kind)]
    case Poll(instance, session, arena, _, _, _) => [(instance, session, Session), (instance, arena, Arena)]
    case Ack(instance, session, lease) => [(instance, session, Session), (instance, lease, Lease)]
    case FreeArena(instance, arena) => [(instance, arena, Arena)]
    case Recycle(instance, arena, _, _) => [(instance, arena, Arena)]
    case Raise(instance, session, _) => [(instance, session, Session)]
  }

  /** A call with a handle that names nothing is refused for the first such handle, and changes nothing. */
  lemma UnnamedIsRefused(t: Table, c: Call, n: nat)
    requires n < |Needs(c)| && !Names(t, Needs(c)[n].0, Needs(c)[n].1, Needs(c)[n].2)
    requires forall k :: 0 <= k < n ==> Names(t, Needs(c)[k].0, Needs(c)[k].1, Needs(c)[k].2)
    requires c.Free? ==> Plain(c.kind)
    ensures Perform(t, c) == (Resolve(t, Needs(c)[n].0, Needs(c)[n].1, Needs(c)[n].2), t) && Perform(t, c).0 != OK
  {
    ResolveIs(t, Needs(c)[n].0, Needs(c)[n].1, Needs(c)[n].2);
    ResolveIs(t, Needs(c)[0].0, Needs(c)[0].1, Needs(c)[0].2);
  }
}
