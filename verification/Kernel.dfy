/** The kernel: one array of resources, in which handles resolve, arenas are registered and leases are taken out and
    given back, and the session part of each resource. Every method that changes the array performs one call of
    `Leases`, with whatever handles it is given. */
module Kernel {
  import opened Basics
  import opened RuntimeStatus
  import opened HandleTable
  import opened Leases
  import opened BitArithmetic
  import Q = EventQueue
  import S = KernelSession
  import M = Mediation
  import opened EvidenceSink

  /** A region of memory to be registered; its address is 0 if there is none. */
  datatype ArenaDescriptor = ArenaDescriptor(address: U64, capacity: U64, alignment: U32, generation: U64)

  datatype PublishResult = PublishResult(published: nat, lastSequence: U64)

  datatype PollResult = PollResult(
    requiredHeaders: nat, requiredPayload: U64, first: U64, last: U64, lease: Option<Handle>, headers: seq<Q.Header>)

  datatype SubmitResult = SubmitResult(accepted: nat, rejected: nat, watermark: U64)

  /** A mediation request as it arrives: the handles, and what the token binds them to. */
  datatype Binding = Binding(arena: Handle, lease: Handle, generation: U64, bundleEpoch: U64)

  /** What the handles of a mediation request resolve to, and whether the token was made for them. */
  function BindingStatus(t: Table, instance: Handle, session: Handle, b: Binding, r: M.Request): Status
    requires InTable(session.resourceId)
  {
    if Resolve(t, instance, b.arena, Arena) != OK then Resolve(t, instance, b.arena, Arena)
    else if Resolve(t, instance, b.lease, Lease) != OK then Resolve(t, instance, b.lease, Lease)
    else
      var a, l := t[b.arena.resourceId - 1], t[b.lease.resourceId - 1];
      if a.arenaGeneration != b.generation || l.parentId != b.arena.resourceId || l.outstanding != session.resourceId
         || l.epoch != b.generation || t[session.resourceId - 1].epoch != b.bundleEpoch || r.first > r.last
         || l.leaseFirst != r.first || l.leaseLast != r.last
      then TOKEN_BINDING_MISMATCH
      else OK
  }

  /** The token was made for this lease: leased over the arena and held by the session, in the generation of the token
      that the arena still has, for exactly the range asked for, and under the bundle epoch of the session. */
  ghost predicate TokenFits(t: Table, session: Handle, b: Binding, r: M.Request)
    requires InTable(session.resourceId) && InTable(b.arena.resourceId) && InTable(b.lease.resourceId)
  {
    var holder, arena, lease := t[session.resourceId - 1], t[b.arena.resourceId - 1], t[b.lease.resourceId - 1];
    && lease.parentId == b.arena.resourceId && lease.outstanding == session.resourceId
    && lease.epoch == b.generation && arena.arenaGeneration == b.generation
    && holder.epoch == b.bundleEpoch
    && lease.leaseFirst == r.first <= r.last == lease.leaseLast
  }

  /** Arena and lease are live, and the token was made for them. */
  ghost predicate Bound(t: Table, instance: Handle, session: Handle, b: Binding, r: M.Request) {
    && Names(t, instance, session, Session) && Names(t, instance, b.arena, Arena) && Names(t, instance, b.lease, Lease)
    && TokenFits(t, session, b, r)
  }

  /** The request is refused for its token alone: everything looked at before it is in order, and something about the
      token does not fit. */
  ghost predicate Mismatched(t: Table, instance: Handle, session: Handle, b: Binding, r: M.Request) {
    && Names(t, instance, session, Session) && Names(t, instance, b.arena, Arena) && Names(t, instance, b.lease, Lease)
    && !TokenFits(t, session, b, r)
  }

  lemma BindingIs(t: Table, instance: Handle, session: Handle, b: Binding, r: M.Request)
    requires Names(t, instance, session, Session)
    ensures BindingStatus(t, instance, session, b, r) == OK <==> Bound(t, instance, session, b, r)
    ensures Mismatched(t, instance, session, b, r) ==>
              BindingStatus(t, instance, session, b, r) == TOKEN_BINDING_MISMATCH
    ensures BindingStatus(t, instance, session, b, r) == TOKEN_BINDING_MISMATCH ==>
              Mismatched(t, instance, session, b, r)
  {
    ResolveIs(t, instance, b.arena, Arena);
    ResolveIs(t, instance, b.lease, Lease);
  }

  /** The status with which publish, poll and submit begin. */
  function BatchStatus(t: Table, instance: Handle, session: Handle, arena: Handle, generation: U64): Status {
    if Resolve(t, instance, session, Session) != OK then Resolve(t, instance, session, Session)
    else if Resolve(t, instance, arena, Arena) != OK then Resolve(t, instance, arena, Arena)
    else if t[arena.resourceId - 1].arenaGeneration != generation then STALE_GENERATION
    else OK
  }

  /** Such a call goes on exactly if session and arena are live and the arena is still in the generation it names. */
  lemma BatchStatusIs(t: Table, instance: Handle, session: Handle, arena: Handle, generation: U64)
    ensures BatchStatus(t, instance, session, arena, generation) == OK
       <==> Names(t, instance, session, Session) && Names(t, instance, arena, Arena)
            && t[arena.resourceId - 1].arenaGeneration == generation
    ensures BatchStatus(t, instance, session, arena, generation) == STALE_GENERATION
       <==> Names(t, instance, session, Session) && Names(t, instance, arena, Arena)
            && t[arena.resourceId - 1].arenaGeneration != generation
    ensures !Names(t, instance, session, Session) ==>
              BatchStatus(t, instance, session, arena, generation) == Resolve(t, instance, session, Session)
    ensures Names(t, instance, session, Session) && !Names(t, instance, arena, Arena) ==>
              BatchStatus(t, instance, session, arena, generation) == Resolve(t, instance, arena, Arena)
  {
    ResolveIs(t, instance, session, Session);
    ResolveIs(t, instance, arena, Arena);
  }

  predicate Registrable(d: ArenaDescriptor) {
    d.address != 0 && d.capacity != 0 && PowerOfTwo(d.alignment) && d.alignment >= 16 && d.address % d.alignment == 0
  }

  /** A region can be registered that is not empty and whose address is a multiple of its alignment, a power of two from
      16 on. */
  lemma RegistrableIs(d: ArenaDescriptor)
    ensures Registrable(d)
       <==> d.address > 0 && d.capacity > 0 && d.alignment >= 16 && (exists k: nat :: d.alignment == Pow(2, k))
            && d.address % d.alignment == 0
  {
    PowerOfTwoIs(d.alignment);
  }

  class Resources {
    const slots: array<Slot>
    /** The session parts of the resources, by resource number. */
    var sessions: map<nat, S.Session>

    function Contents(): Table
      requires slots.Length == MAX_RESOURCES
      reads slots
    {
      slots[..]
    }

    /** Every live resource has a session part, and that of a session alone has room for events. */
    ghost predicate Valid()
      reads this, slots
    {
      && slots.Length == MAX_RESOURCES
      && (forall i: nat :: i < MAX_RESOURCES && slots[i].alive ==>
            i + 1 in sessions && (sessions[i + 1].queue.pending.Length == 0 <==> slots[i].kind != Session))
    }

    /** Session parts share no storage with each other or with the slots. A call that is given one session part
        therefore leaves all others as they are. */
    ghost predicate Apart()
      reads this
    {
      && (forall i :: i in sessions ==> ApartFromSlots(sessions[i]))
      && (forall i, j :: i in sessions && j in sessions && i != j ==> S.Disjoint(sessions[i], sessions[j]))
    }

    ghost predicate ApartFromSlots(s: S.Session) {
      slots as object !in s.Repr()
    }

    /** A new part shares no storage with those in use. */
    ghost predicate ApartFromAll(part: S.Session)
      reads this
    {
      && ApartFromSlots(part)
      && forall i :: i in sessions ==> S.Disjoint(part, sessions[i]) && S.Disjoint(sessions[i], part)
    }

    /** One session part was added, with storage of its own, and nothing in it. */
    twostate predicate Adds(id: nat, kind: Kind, capable: bool)
      reads this, if id in sessions then sessions[id].Repr() else {}
    {
      && id in sessions && sessions == old(sessions)[id := sessions[id]]
      && Blank(sessions[id], kind, capable) && fresh(sessions[id].Repr())
    }

    /** `s` is the session part of the resource that a handle names, if there is one. */
    ghost predicate Owns(h: Handle, s: S.Session)
      reads this
    {
      && (h.resourceId in sessions ==> sessions[h.resourceId] == s)
      && slots as object !in s.Repr()
    }

    /** Leases that balanced before a call still do, exactly if the call was harmless. */
    twostate predicate Balances(c: Call)
      requires slots.Length == MAX_RESOURCES
      reads slots
    {
      LeasesBalance(old(slots[..])) ==> (LeasesBalance(slots[..]) <==> Harmless(old(slots[..]), c))
    }

    /** A call that changes nothing outside the session part it is given leaves every other session as it was. */
    twostate lemma OthersStay(i: nat, k: nat)
      requires old(Apart()) && i in old(sessions) && k in old(sessions) && i != k
      requires unchanged(old(sessions)[k].Repr() - old(sessions)[i].Repr())
      ensures old(sessions[k].Valid()) ==>
                && old(sessions)[k].Valid() && old(sessions)[k].Evidence() == old(sessions[k].Evidence())
                && old(sessions)[k].queue.Events() == old(sessions[k].queue.Events())
    {
      var other := old(sessions)[k];
      assert S.Disjoint(old(sessions)[i], other);
      assert other.Repr() - old(sessions)[i].Repr() == other.Repr();
    }

    constructor ()
      ensures Valid() && Apart() && fresh(slots) && sessions == map[]
      ensures Contents() == RunCalls([]) && LeasesBalance(Contents())
    {
      slots := new Slot[MAX_RESOURCES](i => BLANK);
      sessions := map[];
      new;
      assert slots[..] == RunCalls([]);
      EmptyBalances();
    }

    /** The loop of `allocate_resource`. */
    method FindFree() returns (i: Option<nat>)
      requires slots.Length == MAX_RESOURCES
      ensures i == FirstFree(slots[..])
    {
      var n: nat := 0;
      while n < slots.Length
        invariant n <= slots.Length
        invariant forall k :: 0 <= k < n ==> slots[k].alive
      {
        if !slots[n].alive {
          return Some(n);
        }
        n := n + 1;
      }
      return None;
    }

    /** A new resource, with a session part of its own. */
    method Allocate(s: NewSlot, capable: bool) returns (status: Status, handle: Option<Handle>)
      requires Valid()
      modifies this, slots
      ensures Valid() && Balances(Call.New(s)) && (old(Apart()) ==> Apart())
      ensures (status, Contents()) == Perform(old(Contents()), Call.New(s))
      ensures status != OK ==> handle.None? && sessions == old(sessions)
      ensures status == OK ==>
                var i := FirstFree(old(Contents())).value;
                handle == Some(HandleOf(Contents(), i)) && Adds(i + 1, s.kind, capable)
    {
      ghost var t := slots[..];
      status, handle := Place(s, capable);
      KeepsIff(t, Call.New(s));
    }

    method Place(s: NewSlot, capable: bool) returns (status: Status, handle: Option<Handle>)
      requires Valid()
      modifies this, slots
      ensures Valid() && (old(Apart()) ==> Apart())
      ensures (status, Contents()) == HandleTable.Allocate(old(Contents()), s)
      ensures status != OK ==> handle.None? && sessions == old(sessions)
      ensures status == OK ==>
                var i := FirstFree(old(Contents())).value;
                handle == Some(HandleOf(Contents(), i)) && Adds(i + 1, s.kind, capable)
    {
      var free := FindFree();
      if free.None? {
        return ALLOCATION_FAILURE, None;
      }
      var i := free.value;
      Make(i, s.(alive := true, released := false, generation := NextGeneration(slots[i].generation)), capable);
      return OK, Some(Handle(slots[i].instanceId, i + 1, slots[i].generation, slots[i].kind));
    }

    /** Writes a resource: its slot and a session part of its own. */
    method Make(i: nat, slot: Slot, capable: bool)
      requires Valid() && i < MAX_RESOURCES && slot.alive
      modifies this, slots
      ensures Valid() && (old(Apart()) ==> Apart())
      ensures Contents() == old(Contents())[i := slot]
      ensures Adds(i + 1, slot.kind, capable)
    {
      var part := NewPart(slot.kind == Session, capable);
      Install(i, slot, part);
    }

    method NewPart(isSession: bool, capable: bool) returns (part: S.Session)
      ensures fresh(part) && fresh(part.Repr()) && ApartFromAll(part)
      ensures part.Valid() && part.Evidence() == M.FRESH && part.queue.Events() == [] && part.batchedCapable == capable
      ensures part.state == if isSession then S.Open else S.Unset
    {
      part := new S.Session(isSession, capable);
    }

    method Install(i: nat, slot: Slot, part: S.Session)
      requires Valid() && i < MAX_RESOURCES && slot.alive
      requires part.queue.pending.Length == 0 <==> slot.kind != Session
      modifies this, slots
      ensures Valid() && Contents() == old(Contents())[i := slot] && sessions == old(sessions)[i + 1 := part]
      ensures old(Apart() && ApartFromAll(part)) ==> Apart()
    {
      ghost var t := slots[..];
      slots[i] := slot;
      sessions := sessions[i + 1 := part];
      assert slots[..] == t[i := slot];
    }

    /** Moves a session's sequence. */
    method Raise(i: nat, sequence: U64)
      requires Valid() && i < MAX_RESOURCES && (slots[i].kind == Session || slots[i].sequence == sequence)
      modifies slots
      ensures Valid() && Contents() == RaiseSequence(old(Contents()), i, sequence) && Contents()[i].sequence == sequence
    {
      ghost var t := slots[..];
      slots[i] := slots[i].(sequence := sequence);
      assert slots[..] == RaiseSequence(t, i, sequence);
    }

    /** A session takes epoch and capabilities over from its bundle. */
    method SessionOpen(instance: Handle, bundle: Handle, initialSequence: U64, outstanding: nat)
      returns (status: Status, handle: Option<Handle>)
      requires Valid()
      modifies this, slots
      ensures Valid() && (old(Apart()) ==> Apart())
      ensures old(Resolve(Contents(), instance, bundle, Bundle)) != OK ==>
                status == old(Resolve(Contents(), instance, bundle, Bundle)) && Contents() == old(Contents())
      ensures old(Resolve(Contents(), instance, bundle, Bundle)) == OK ==>
                var s := SessionSlot(instance.instanceId, bundle.resourceId,
                                     old(Contents())[bundle.resourceId - 1].epoch, initialSequence, outstanding);
                (status, Contents()) == Perform(old(Contents()), Call.New(s)) && Balances(Call.New(s))
      ensures status == OK ==>
                && handle.Some? && handle.value.resourceId in sessions && bundle.resourceId in old(sessions)
                && fresh(sessions[handle.value.resourceId].Repr())
                && Blank(sessions[handle.value.resourceId], Session, old(sessions)[bundle.resourceId].batchedCapable)
      ensures status != OK ==> sessions == old(sessions)
    {
      status, handle := Resolve(slots[..], instance, bundle, Bundle), None;
      if status != OK {
        return;
      }
      var s := SessionSlot(instance.instanceId, bundle.resourceId, slots[bundle.resourceId - 1].epoch, initialSequence,
                           outstanding);
      status, handle := Allocate(s, sessions[bundle.resourceId].batchedCapable);
    }

    // ---------- arenas ----------

    method ArenaRegister(instance: Handle, d: ArenaDescriptor) returns (status: Status, handle: Option<Handle>)
      requires Valid()
      modifies this, slots
      ensures Valid() && (old(Apart()) ==> Apart())
      ensures var r := old(Resolve(Contents(), instance, instance, Instance));
              && (r != OK ==> status == r && Contents() == old(Contents()))
              && (r == OK && !Registrable(d) ==> status == MALFORMED_DESCRIPTOR && Contents() == old(Contents()))
              && (r == OK && Registrable(d) ==>
                    (status, Contents())
                    == Perform(old(Contents()), Call.New(ArenaSlot(instance.instanceId, d.capacity, d.generation))))
      ensures status == OK ==>
                handle == Some(HandleOf(Contents(), FirstFree(old(Contents())).value))
                && Balances(Call.New(ArenaSlot(instance.instanceId, d.capacity, d.generation)))
    {
      status, handle := Resolve(slots[..], instance, instance, Instance), None;
      if status != OK {
        return;
      }
      if d.alignment > 0 {
        Pow2Is();
        NoCommonBitsIff(d.alignment, 32);
      }
      if d.address == 0 || d.capacity == 0 || d.alignment == 0 || And(d.alignment, d.alignment - 1, 32) != 0
         || d.alignment < 16 || d.address % d.alignment != 0 {
        return MALFORMED_DESCRIPTOR, None;
      }
      status, handle := Allocate(ArenaSlot(instance.instanceId, d.capacity, d.generation), false);
    }

    method ArenaRelease(instance: Handle, arena: Handle) returns (status: Status)
      requires Valid()
      modifies slots
      ensures Valid() && Balances(Call.FreeArena(instance, arena))
      ensures (status, Contents()) == Perform(old(Contents()), Call.FreeArena(instance, arena))
    {
      ghost var t := slots[..];
      KeepsIff(t, Call.FreeArena(instance, arena));
      status := Resolve(slots[..], instance, arena, Arena);
      if status != OK {
        return;
      }
      var a := arena.resourceId - 1;
      if slots[a].inflight != 0 {
        return ARENA_BUSY;
      }
      slots[a] := slots[a].(arenaCapacity := 0, released := true, alive := false);
      assert slots[..] == ReleaseArena(t, a).1;
    }

    method ArenaRecycle(instance: Handle, arena: Handle, expected: U64, next: U64) returns (status: Status)
      requires Valid()
      modifies slots
      ensures Valid() && Balances(Call.Recycle(instance, arena, expected, next))
      ensures (status, Contents()) == Perform(old(Contents()), Call.Recycle(instance, arena, expected, next))
    {
      ghost var t := slots[..];
      KeepsIff(t, Call.Recycle(instance, arena, expected, next));
      status := Resolve(slots[..], instance, arena, Arena);
      if status != OK {
        return;
      }
      var a := arena.resourceId - 1;
      if slots[a].arenaGeneration != expected {
        return STALE_GENERATION;
      }
      if next <= expected {
        return INVALID_ARGUMENT;
      }
      if slots[a].inflight != 0 {
        return ARENA_BUSY;
      }
      slots[a] := slots[a].(arenaGeneration := next);
      assert slots[..] == RecycleArena(t, a, expected, next).1;
    }

    // ---------- events ----------

    /** Session and arena of a batch request. */
    method ResolveBatch(instance: Handle, session: Handle, arena: Handle, generation: U64) returns (status: Status)
      requires Valid()
      ensures status == BatchStatus(Contents(), instance, session, arena, generation)
    {
      status := Resolve(slots[..], instance, session, Session);
      if status != OK {
        return;
      }
      status := Resolve(slots[..], instance, arena, Arena);
      if status != OK {
        return;
      }
      if slots[arena.resourceId - 1].arenaGeneration != generation {
        return STALE_GENERATION;
      }
    }

    method Publish(instance: Handle, session: Handle, s: S.Session, arena: Handle, generation: U64,
                   items: seq<Q.Header>)
      returns (status: Status, result: PublishResult)
      requires Valid() && s.Valid() && Owns(session, s)
      modifies s.queue, s.queue.pending
      ensures Valid() && s.Valid() && Contents() == old(Contents())
      ensures s.queue.cursor == old(s.queue.cursor)
      ensures status == PublishStatus(Contents(), instance, session, arena, generation, items,
                                      s.queue.pending.Length - old(s.queue.count), old(s.queue.Events()))
      ensures s.queue.Events()
           == if status == OK then old(s.queue.Events()) + Q.Published(items, arena.resourceId, generation)
              else old(s.queue.Events())
      ensures status == OK ==> result == PublishResult(|items|, LastOf(s.queue.Events()))
    {
      result := PublishResult(0, 0);
      status := ResolveBatch(instance, session, arena, generation);
      if status != OK {
        return;
      }
      status, result := PublishReady(s, arena.resourceId, generation, items);
    }

    /** The same, from the point where session and arena are resolved. */
    method PublishReady(s: S.Session, arenaId: nat, generation: U64, items: seq<Q.Header>)
      returns (status: Status, result: PublishResult)
      requires Valid() && s.Valid() && InTable(arenaId) && slots as object !in s.Repr()
      modifies s.queue, s.queue.pending
      ensures Valid() && s.Valid() && Contents() == old(Contents()) && s.queue.cursor == old(s.queue.cursor)
      ensures status == if |items| > s.queue.pending.Length - old(s.queue.count) then OUTSTANDING_WORK
                        else Q.PublishStatus(items, Q.LastSequence(old(s.queue.Events())),
                                             Contents()[arenaId - 1].arenaCapacity)
      ensures s.queue.Events() == if status == OK then old(s.queue.Events()) + Q.Published(items, arenaId, generation)
                                  else old(s.queue.Events())
      ensures status == OK ==> result == PublishResult(|items|, LastOf(s.queue.Events()))
    {
      result := PublishResult(0, 0);
      var previous := if s.queue.count == 0 then 0 else s.queue.pending[s.queue.count - 1].header.sequence;
      assert previous == LastOf(s.queue.Events());
      LastPublished(s.queue.Events(), items, arenaId, generation);
      status := s.queue.Publish(items, arenaId, generation, slots[arenaId - 1].arenaCapacity);
      if status == OK {
        result := PublishResult(|items|, if |items| == 0 then previous else items[|items| - 1].sequence);
      }
    }

    /** Poll: all events that are ready are leased together, or none. The lease records who holds it, the arena
        generation and the range of sequences, and the arena counts the events as in flight. */
    method Poll(instance: Handle, session: Handle, s: S.Session, arena: Handle, generation: U64,
                headerCapacity: nat, payloadCapacity: U64)
      returns (status: Status, result: PollResult)
      requires Valid() && s.Valid() && Owns(session, s)
      modifies this, slots, s.queue, s.queue.pending
      ensures Valid() && s.Valid()
      ensures old(Apart()) ==> Apart()
      ensures old(BatchStatus(Contents(), instance, session, arena, generation)) != OK ==>
                status == old(BatchStatus(Contents(), instance, session, arena, generation)) && result.lease.None?
      ensures old(BatchStatus(Contents(), instance, session, arena, generation)) == OK ==>
                Offers(s, arena.resourceId, generation, result)
                && Leases(status, result, headerCapacity, payloadCapacity)
      ensures result.lease.Some? ==>
                0 < result.requiredHeaders <= headerCapacity && result.requiredPayload <= payloadCapacity
      ensures result.lease.None? ==> Contents() == old(Contents()) && sessions == old(sessions) && Untouched(s, result)
      ensures result.lease.Some? ==>
                && result.requiredHeaders <= Q.MAX_PENDING_EVENTS
                && (status, Contents()) == Perform(old(Contents()), PollCall(instance, session, arena, result))
                && Balances(PollCall(instance, session, arena, result))
                && result.lease.value == HandleOf(Contents(), FirstFree(old(Contents())).value)
                && Delivers(s, result)
    {
      result := PollResult(0, 0, 0, 0, None, []);
      status := ResolveBatch(instance, session, arena, generation);
      if status != OK {
        return;
      }
      ghost var t := slots[..];
      status, result := PollReady(arena.resourceId - 1, session.resourceId, s, generation, headerCapacity,
                                  payloadCapacity);
      if result.lease.Some? {
        PollIs(t, Contents(), instance, session, arena, result);
      }
    }

    /** A lease is taken exactly if there are events, the buffers have room for all of them and a slot is free. */
    twostate predicate Leases(status: Status, result: PollResult, headerCapacity: nat, payloadCapacity: U64)
      requires slots.Length == MAX_RESOURCES
      reads slots
    {
      var leasable, free := Leasable(result, headerCapacity, payloadCapacity), old(FirstFree(slots[..]));
      && (result.lease.Some? <==> leasable && free.Some?)
      && status == if leasable && free.None? then ALLOCATION_FAILURE else OK
    }

    /** The same, from the point where session and arena are resolved. */
    method PollReady(a: nat, sessionId: nat, s: S.Session, generation: U64, headerCapacity: nat, payloadCapacity: U64)
      returns (status: Status, result: PollResult)
      requires Valid() && s.Valid() && slots as object !in s.Repr() && a < MAX_RESOURCES && slots[a].alive
      modifies this, slots, s.queue, s.queue.pending
      ensures Valid() && s.Valid() && Offers(s, a + 1, generation, result)
      ensures old(Apart()) ==> Apart()
      ensures Leases(status, result, headerCapacity, payloadCapacity)
      ensures result.lease.None? ==> Contents() == old(Contents()) && sessions == old(sessions) && Untouched(s, result)
      ensures result.lease.Some? ==>
                && result.requiredHeaders <= Q.MAX_PENDING_EVENTS
                && (OK, Contents()) == GrantLease(old(Contents()), a, sessionId, result.requiredHeaders, result.first,
                                                  result.last)
                && result.lease.value == HandleOf(Contents(), FirstFree(old(Contents())).value)
                && Delivers(s, result)
    {
      var ready, payload := s.queue.Ready(a + 1, generation);
      status, result := OK, PollResult(ready, payload, 0, 0, None, []);
      if ready == 0 {
        return;
      }
      if headerCapacity < ready || payloadCapacity < payload {
        return;
      }
      var free := FindFree();
      if free.None? {
        return ALLOCATION_FAILURE, result;
      }
      result := Lend(free.value, a, sessionId, s, ready, payload);
    }

    /** Takes the ready events and hands them out under a lease in slot `i`. */
    method Lend(i: nat, a: nat, sessionId: nat, s: S.Session, ready: nat, payload: U64) returns (result: PollResult)
      requires Valid() && s.Valid() && slots as object !in s.Repr()
      requires FirstFree(slots[..]) == Some(i) && a < MAX_RESOURCES && slots[a].alive
      requires 0 < ready && s.queue.cursor + ready <= s.queue.count
      modifies this, slots, s.queue, s.queue.pending
      ensures Valid() && s.Valid() && result.lease == Some(HandleOf(Contents(), i))
      ensures old(Apart()) ==> Apart()
      ensures result.requiredHeaders == ready <= Q.MAX_PENDING_EVENTS && result.requiredPayload == payload
      ensures (OK, Contents()) == GrantLease(old(Contents()), a, sessionId, ready, result.first, result.last)
      ensures Delivers(s, result)
    {
      result := TakeReady(s, ready, payload);
      var handle := Grant(i, a, sessionId, ready, result.first, result.last);
      result := result.(lease := Some(handle));
    }

    static method TakeReady(s: S.Session, ready: nat, payload: U64) returns (result: PollResult)
      requires s.Valid() && 0 < ready && s.queue.cursor + ready <= s.queue.count
      modifies s.queue, s.queue.pending
      ensures s.Valid() && Delivers(s, result)
      ensures result.requiredHeaders == ready <= Q.MAX_PENDING_EVENTS && result.requiredPayload == payload
    {
      var headers := s.queue.Take(ready);
      result := PollResult(ready, payload, headers[0].sequence, headers[ready - 1].sequence, None, headers);
    }

    /** Writes lease and arena. */
    method Grant(i: nat, a: nat, sessionId: nat, count: U64, first: U64, last: U64) returns (handle: Handle)
      requires Valid() && FirstFree(slots[..]) == Some(i) && a < MAX_RESOURCES && slots[a].alive
      modifies this, slots
      ensures Valid() && (old(Apart()) ==> Apart())
      ensures (OK, Contents()) == GrantLease(old(Contents()), a, sessionId, count, first, last)
      ensures handle == HandleOf(Contents(), i)
    {
      ghost var t := slots[..];
      Make(i, LeaseSlot(slots[a].instanceId, a + 1, sessionId, slots[a].arenaGeneration, count, first, last)
              .(alive := true, generation := NextGeneration(slots[i].generation)), false);
      CountEvents(a, count);
      assert slots[..] == GrantLease(t, a, sessionId, count, first, last).1;
      handle := Handle(slots[i].instanceId, i + 1, slots[i].generation, slots[i].kind);
    }

    method CountEvents(a: nat, count: U64)
      requires Valid() && a < MAX_RESOURCES
      modifies slots
      ensures Valid()
      ensures Contents() == old(Contents())[a := old(slots[a]).(inflight := old(slots[a]).inflight + count)]
    {
      ghost var t := slots[..];
      slots[a] := slots[a].(inflight := slots[a].inflight + count);
      assert slots[..] == t[a := slots[a]];
    }

    /** Acknowledgement: with balanced leases and a genuine lease handle it never reports the internal-invariant
        status, and is accepted exactly from the session that holds the lease. */
    method Ack(instance: Handle, session: Handle, s: S.Session, lease: Handle) returns (status: Status)
      requires Valid() && s.Valid() && Owns(session, s)
      modifies slots, s.queue, s.queue.pending
      ensures Valid() && s.Valid() && Balances(Call.Ack(instance, session, lease))
      ensures (status, Contents()) == Perform(old(Contents()), Call.Ack(instance, session, lease))
      ensures old(LeasesBalance(Contents())) && old(Genuine(Contents(), lease)) ==>
                status != INTERNAL_INVARIANT
                && (status == OK <==>
                      && old(Resolve(Contents(), instance, session, Session)) == OK
                      && old(Resolve(Contents(), instance, lease, Lease)) == OK
                      && old(Contents())[lease.resourceId - 1].outstanding == session.resourceId)
      ensures s.queue.Events()
           == if status == OK then
                var l := old(Contents())[lease.resourceId - 1];
                Q.Remaining(old(s.queue.Events()), l.parentId, l.leaseFirst, l.leaseLast)
              else old(s.queue.Events())
    {
      ghost var t := slots[..];
      KeepsIff(t, Call.Ack(instance, session, lease));
      GenuineAck(t, instance, session, lease);
      status := Resolve(slots[..], instance, session, Session);
      if status != OK {
        return;
      }
      status := Resolve(slots[..], instance, lease, Lease);
      if status != OK {
        return;
      }
      var i := lease.resourceId - 1;
      var l := slots[i];
      status := GiveBack(i, session.resourceId);
      if status == OK {
        s.queue.Acknowledge(l.parentId, l.leaseFirst, l.leaseLast);
      }
    }

    /** Takes a lease off its arena's count and releases it. */
    method GiveBack(i: nat, sessionId: nat) returns (status: Status)
      requires Valid() && i < MAX_RESOURCES
      modifies slots
      ensures Valid()
      ensures (status, Contents()) == AckLease(old(Contents()), i, sessionId)
    {
      ghost var t := slots[..];
      var l := slots[i];
      if l.outstanding != sessionId {
        return WRONG_HANDLE_KIND;
      }
      if !InTable(l.parentId) || !slots[l.parentId - 1].alive || slots[l.parentId - 1].kind != Arena {
        return STALE_HANDLE;
      }
      var a := l.parentId - 1;
      if slots[a].inflight < l.sequence {
        return INTERNAL_INVARIANT;
      }
      slots[a] := slots[a].(inflight := slots[a].inflight - l.sequence);
      slots[i] := slots[i].(released := true, alive := false);
      assert slots[..] == AckLease(t, i, sessionId).1;
      return OK;
    }

    /** Submit: besides the queue it moves the session's sequence alone. */
    method Submit(instance: Handle, session: Handle, s: S.Session, arena: Handle, generation: U64,
                  items: seq<Q.Header>, statuses: array<Status>, bitmap: array<bv8>)
      returns (status: Status, result: SubmitResult)
      requires Valid() && s.Valid() && Owns(session, s)
      requires s.queue.Separate(statuses, bitmap)
      requires statuses as object !in s.Repr() && bitmap as object !in s.Repr()
      requires statuses as object != slots && bitmap as object != slots
      modifies slots, s.queue, s.queue.pending, statuses, bitmap
      ensures Valid() && s.Valid()
      ensures status == SubmitStatus(old(Contents()), instance, session, arena, generation, items, statuses.Length,
                                     bitmap.Length)
      ensures status != OK ==> s.queue.Events() == old(s.queue.Events()) && Contents() == old(Contents())
      ensures status == OK ==>
                && s.queue.Events() == Q.Submitted(old(s.queue.Events()), items, arena.resourceId, generation)
                && result.watermark
                   == Q.Watermark(s.queue.Events(), 0, old(Contents())[session.resourceId - 1].sequence)
                && Q.IsWatermark(s.queue.Events(), old(Contents())[session.resourceId - 1].sequence, result.watermark)
                && Contents() == After(old(Contents()), Call.Raise(instance, session, result.watermark))
                && Contents()[session.resourceId - 1].sequence == result.watermark
      ensures status == OK ==>
                Q.Told(old(s.queue.Events()), items, arena.resourceId, generation, |items|, statuses[..], bitmap[..],
                       result.accepted, result.rejected)
    {
      result := SubmitResult(0, 0, 0);
      status := Resolve(slots[..], instance, session, Session);
      if status != OK {
        return;
      }
      if statuses.Length < |items| || 8 * bitmap.Length < |items| {
        return MALFORMED_DESCRIPTOR, result;
      }
      status := ResolveBatch(instance, session, arena, generation);
      if status != OK {
        return;
      }
      RaiseIs(slots[..], instance, session);
      status, result := SubmitReady(session.resourceId - 1, s, arena.resourceId, generation, items, statuses, bitmap);
    }

    /** The same, from the point where session and arena are resolved. */
    method SubmitReady(i: nat, s: S.Session, arenaId: nat, generation: U64, items: seq<Q.Header>,
                       statuses: array<Status>, bitmap: array<bv8>)
      returns (status: Status, result: SubmitResult)
      requires Valid() && s.Valid() && i < MAX_RESOURCES && InTable(arenaId) && slots as object !in s.Repr()
      requires s.queue.pending.Length == 0 ==> slots[i].kind != Session
      requires slots[i].kind != Session ==> s.queue.pending.Length == 0
      requires s.queue.Separate(statuses, bitmap)
      requires statuses as object !in s.Repr() && bitmap as object !in s.Repr()
      requires statuses as object != slots && bitmap as object != slots
      requires statuses.Length >= |items| && 8 * bitmap.Length >= |items|
      modifies slots, s.queue, s.queue.pending, statuses, bitmap
      ensures Valid() && s.Valid()
      ensures status == if Q.SubmittableItems(items, old(slots[arenaId - 1].arenaCapacity)) then OK
                        else MALFORMED_DESCRIPTOR
      ensures status != OK ==> s.queue.Events() == old(s.queue.Events()) && Contents() == old(Contents())
      ensures status == OK ==>
                && s.queue.Events() == Q.Submitted(old(s.queue.Events()), items, arenaId, generation)
                && result.watermark == Q.Watermark(s.queue.Events(), 0, old(slots[i].sequence))
                && Q.IsWatermark(s.queue.Events(), old(slots[i].sequence), result.watermark)
                && Contents() == RaiseSequence(old(Contents()), i, result.watermark)
                && Contents()[i].sequence == result.watermark
      ensures status == OK ==>
                Q.Told(old(s.queue.Events()), items, arenaId, generation, |items|, statuses[..], bitmap[..],
                       result.accepted, result.rejected)
    {
      var accepted, rejected, raised;
      status, accepted, rejected, raised := s.queue.Submit(items, arenaId, generation, slots[arenaId - 1].arenaCapacity,
                                                           slots[i].sequence, statuses, bitmap);
      assert slots[..] == old(slots[..]);
      Raise(i, raised);
      result := SubmitResult(accepted, rejected, raised);
    }

    // ---------- evidence ----------

    /** A mediation whose handles do not resolve, or whose token names another lease, never reaches the adapter. */
    method Mediate(instance: Handle, session: Handle, s: S.Session, b: Binding, r: M.Request, flushable: bool,
                   sink: Sink, adapter: S.Adapter, answer: M.AdapterAnswer, reserveFault: nat, finalizeFault: nat)
      returns (status: Status, result: S.MediationResult, ghost fails: bool)
      requires Valid() && s.Valid() && Owns(session, s)
      modifies s, s.nonces, s.nonces.keys, s.nonces.used, s.leaves, sink.store, adapter
      ensures Valid() && s.Valid() && Contents() == old(Contents())
      ensures Resolve(Contents(), instance, session, Session) != OK ==>
                status == Resolve(Contents(), instance, session, Session)
      ensures Resolve(Contents(), instance, session, Session) == OK ==>
                var admission := old(s.Admission(r, BindingStatus(Contents(), instance, session, b, r), flushable));
                status == admission || (admission == OK && status == INTERNAL_INVARIANT)
      ensures status == OK ==> Bound(Contents(), instance, session, b, r)
      ensures Mismatched(Contents(), instance, session, b, r)
              && M.Durable(old(s.Evidence()), r.durability, s.batchedCapable, flushable) ==>
                status == TOKEN_BINDING_MISMATCH && adapter.invocations == old(adapter.invocations)
      ensures S.Mediates(sink.store.hashes(sink.session), old(s.Snapshot(sink, adapter)), s.Snapshot(sink, adapter), r,
                         s.batchedCapable, answer, sink.committedRoot, fails, status)
      ensures if status == OK
              then S.Shown(old(adapter.invocations), adapter.invocations, s.queue.Events(), r.first, r.last)
              else adapter.invocations == old(adapter.invocations)
      ensures status == OK ==>
                S.Reports(sink.store.hashes(sink.session), old(s.Snapshot(sink, adapter)), r, s.batchedCapable, answer,
                          sink.committedRoot, fails, result, s.Evidence())
    {
      result, fails := S.MediationResult(M.J.Indeterminate, OK, OK, 0, ZERO_ROOT), false;
      status := Resolve(slots[..], instance, session, Session);
      if status != OK {
        return;
      }
      var binding := BindingStatus(slots[..], instance, session, b, r);
      ResolveIs(slots[..], instance, session, Session);
      BindingIs(slots[..], instance, session, b, r);
      M.DurabilityIs(s.Evidence(), r.durability, s.batchedCapable, flushable);
      status, result, fails := s.Mediate(sink, adapter, r, binding, flushable, answer, reserveFault, finalizeFault);
    }

    /** Reconciliation: a session without history takes the durable history and its sequence over. */
    method Reconcile(instance: Handle, session: Handle, s: S.Session, rec: M.J.Reconciliation) returns (status: Status)
      requires Valid() && s.Valid() && Owns(session, s) && rec.runtimeSequence < 0x1_0000_0000_0000_0000
      requires slots as object !in s.Repr()
      modifies slots, s, s.nonces, s.nonces.keys, s.nonces.used, s.leaves
      ensures Valid() && s.Valid() && s.queue.Events() == old(s.queue.Events())
      ensures var resolved := old(Resolve(Contents(), instance, session, Session));
              (status, s.Evidence())
              == if resolved != OK then (resolved, old(s.Evidence()))
                 else M.ReconcileKernel(old(s.Evidence()), old(Idle(s))
                                        && old(Contents())[session.resourceId - 1].outstanding == 0, rec)
      ensures Contents()
           == if status == OK then After(old(Contents()), Call.Raise(instance, session, rec.runtimeSequence))
              else old(Contents())
      ensures status == OK ==> Contents()[session.resourceId - 1].sequence == rec.runtimeSequence
    {
      status := Resolve(slots[..], instance, session, Session);
      if status != OK {
        return;
      }
      var i := session.resourceId - 1;
      status := s.Reconcile(rec, slots[i].outstanding);
      if status == OK {
        Raise(i, rec.runtimeSequence);
      }
    }
  }

  /** An open session without pending events. */
  ghost predicate Idle(s: S.Session)
    requires s.queue.count <= s.queue.pending.Length
    reads s, s.queue, s.queue.pending
  {
    s.state == S.Open && s.queue.Events() == []
  }

  /** The result counts the events that were ready, and the payload bytes they reach. */
  twostate predicate Offers(s: S.Session, arenaId: nat, generation: U64, result: PollResult)
    requires old(s.Valid())
    reads s.queue, s.queue.pending
  {
    var ev, from := old(s.queue.Events()), old(s.queue.cursor);
    && result.requiredHeaders == Q.ReadyCount(ev, from, arenaId, generation)
    && result.requiredPayload == Q.RequiredPayload(ev, from, result.requiredHeaders)
  }

  twostate predicate Untouched(s: S.Session, result: PollResult)
    requires old(s.Valid()) && s.Valid()
    reads s, s.queue, s.queue.pending, s.nonces, s.nonces.keys, s.nonces.used, s.leaves
  {
    s.queue.Events() == old(s.queue.Events()) && s.queue.cursor == old(s.queue.cursor) && result.headers == []
  }

  /** Exactly the offered events are polled and handed out. */
  twostate predicate Delivers(s: S.Session, result: PollResult)
    requires old(s.Valid()) && s.Valid()
    reads s, s.queue, s.queue.pending, s.nonces, s.nonces.keys, s.nonces.used, s.leaves
  {
    var ev, from := old(s.queue.Events()), old(s.queue.cursor);
    && Covers(result, ev, from)
    && s.queue.cursor == from + result.requiredHeaders
    && s.queue.Events() == Q.PolledRange(ev, from, result.requiredHeaders)
  }

  /** The session part of a new resource. */
  ghost predicate Blank(s: S.Session, kind: Kind, capable: bool)
    reads s, s.queue, s.queue.pending, s.nonces, s.nonces.keys, s.nonces.used, s.leaves
  {
    && s.Valid() && s.Evidence() == M.FRESH && s.queue.Events() == [] && s.batchedCapable == capable
    && s.state == if kind == Session then S.Open else S.Unset
  }

  lemma PollIs(t: Table, u: Table, instance: Handle, session: Handle, arena: Handle, result: PollResult)
    requires Resolve(t, instance, session, Session) == OK && Resolve(t, instance, arena, Arena) == OK
    requires 0 < result.requiredHeaders <= Q.MAX_PENDING_EVENTS
    requires (OK, u) == GrantLease(t, arena.resourceId - 1, session.resourceId, result.requiredHeaders, result.first,
                                   result.last)
    ensures Perform(t, PollCall(instance, session, arena, result)) == (OK, u)
    ensures LeasesBalance(t) ==>
              (LeasesBalance(u) <==> Harmless(t, PollCall(instance, session, arena, result)))
  {
    KeepsIff(t, PollCall(instance, session, arena, result));
  }

  lemma RaiseIs(t: Table, instance: Handle, session: Handle)
    requires Resolve(t, instance, session, Session) == OK
    ensures forall sequence ::
              After(t, Call.Raise(instance, session, sequence)) == RaiseSequence(t, session.resourceId - 1, sequence)
  {
  }

  lemma LastPublished(ev: seq<Q.Event>, items: seq<Q.Header>, arenaId: nat, generation: U64)
    ensures LastOf(ev + Q.Published(items, arenaId, generation))
         == if |items| == 0 then LastOf(ev) else items[|items| - 1].sequence
  {
  }

  /** A genuine handle of a lease is acknowledged by its holder alone, and never with an inconsistent count. */
  lemma GenuineAck(t: Table, instance: Handle, session: Handle, lease: Handle)
    ensures LeasesBalance(t) && Genuine(t, lease) ==>
              Perform(t, Call.Ack(instance, session, lease)).0 != INTERNAL_INVARIANT
              && (Perform(t, Call.Ack(instance, session, lease)).0 == OK <==>
                    && Resolve(t, instance, session, Session) == OK && Resolve(t, instance, lease, Lease) == OK
                    && t[lease.resourceId - 1].outstanding == session.resourceId)
  {
    if LeasesBalance(t) && Genuine(t, lease) && Resolve(t, instance, session, Session) == OK
       && Resolve(t, instance, lease, Lease) == OK {
      AckIsDecidedByHolder(t, lease.resourceId - 1, session.resourceId);
    }
  }

  lemma KeepsIff(t: Table, c: Call)
    ensures LeasesBalance(t) ==> (LeasesBalance(After(t, c)) <==> Harmless(t, c))
  {
    if LeasesBalance(t) {
      CallKeepsIff(t, c);
    }
  }

  function PollCall(instance: Handle, session: Handle, arena: Handle, result: PollResult): Call
    requires result.requiredHeaders <= Q.MAX_PENDING_EVENTS
  {
    Call.Poll(instance, session, arena, result.requiredHeaders, result.first, result.last)
  }

  /** There are events, and the caller's buffers have room for all of them. */
  predicate Leasable(result: PollResult, headerCapacity: nat, payloadCapacity: U64) {
    0 < result.requiredHeaders <= headerCapacity && result.requiredPayload <= payloadCapacity
  }

  function LastOf(ev: seq<Q.Event>): U64 {
    if |ev| == 0 then 0 else ev[|ev| - 1].header.sequence
  }

  /** The status of a publish, in the order of its checks. */
  function PublishStatus(t: Table, instance: Handle, session: Handle, arena: Handle, generation: U64,
                         items: seq<Q.Header>, room: int, ev: seq<Q.Event>): Status
  {
    if BatchStatus(t, instance, session, arena, generation) != OK
    then BatchStatus(t, instance, session, arena, generation)
    else if |items| > room then OUTSTANDING_WORK
    else Q.PublishStatus(items, Q.LastSequence(ev), t[arena.resourceId - 1].arenaCapacity)
  }

  /** The status of a submission, in the order of its checks. */
  function SubmitStatus(t: Table, instance: Handle, session: Handle, arena: Handle, generation: U64,
                        items: seq<Q.Header>, statuses: nat, bytes: nat): Status
  {
    if Resolve(t, instance, session, Session) != OK then Resolve(t, instance, session, Session)
    else if statuses < |items| || 8 * bytes < |items| then MALFORMED_DESCRIPTOR
    else if BatchStatus(t, instance, session, arena, generation) != OK
    then BatchStatus(t, instance, session, arena, generation)
    else if Q.SubmittableItems(items, t[arena.resourceId - 1].arenaCapacity) then OK
    else MALFORMED_DESCRIPTOR
  }

  /** A batch is published exactly if session and arena are live and current, the queue has room for all of it, and
      every header may follow the one before it. */
  lemma PublishStatusIs(t: Table, instance: Handle, session: Handle, arena: Handle, generation: U64,
                        items: seq<Q.Header>, room: int, ev: seq<Q.Event>)
    ensures PublishStatus(t, instance, session, arena, generation, items, room, ev) == OK
       <==> BatchStatus(t, instance, session, arena, generation) == OK && |items| <= room
            && Q.AllPublishable(items, if ev == [] then None else Some(ev[|ev| - 1].header.sequence),
                                t[arena.resourceId - 1].arenaCapacity)
    ensures BatchStatus(t, instance, session, arena, generation) == OK && |items| > room ==>
              PublishStatus(t, instance, session, arena, generation, items, room, ev) == OUTSTANDING_WORK
    ensures BatchStatus(t, instance, session, arena, generation) != OK ==>
              PublishStatus(t, instance, session, arena, generation, items, room, ev)
              == BatchStatus(t, instance, session, arena, generation)
  {
    BatchStatusIs(t, instance, session, arena, generation);
    if BatchStatus(t, instance, session, arena, generation) == OK {
      var n := Q.PublishStatusIs(items, Q.LastSequence(ev), t[arena.resourceId - 1].arenaCapacity);
    }
  }

  /** Items are submitted exactly if session and arena are live and current, the caller's buffers have room for all of
      them, and they are well formed and in strictly increasing order. */
  lemma SubmitStatusIs(t: Table, instance: Handle, session: Handle, arena: Handle, generation: U64,
                       items: seq<Q.Header>, statuses: nat, bytes: nat)
    ensures SubmitStatus(t, instance, session, arena, generation, items, statuses, bytes) == OK
       <==> BatchStatus(t, instance, session, arena, generation) == OK && |items| <= statuses && |items| <= 8 * bytes
            && Q.AllPublishable(items, None, t[arena.resourceId - 1].arenaCapacity)
    ensures !Names(t, instance, session, Session) ==>
              SubmitStatus(t, instance, session, arena, generation, items, statuses, bytes)
              == Resolve(t, instance, session, Session)
    ensures Names(t, instance, session, Session) && (|items| > statuses || |items| > 8 * bytes) ==>
              SubmitStatus(t, instance, session, arena, generation, items, statuses, bytes) == MALFORMED_DESCRIPTOR
    ensures Names(t, instance, session, Session) && |items| <= statuses && |items| <= 8 * bytes
            && BatchStatus(t, instance, session, arena, generation) != OK ==>
              SubmitStatus(t, instance, session, arena, generation, items, statuses, bytes)
              == BatchStatus(t, instance, session, arena, generation)
    ensures BatchStatus(t, instance, session, arena, generation) == OK
            && SubmitStatus(t, instance, session, arena, generation, items, statuses, bytes) != OK ==>
              SubmitStatus(t, instance, session, arena, generation, items, statuses, bytes) == MALFORMED_DESCRIPTOR
  {
    BatchStatusIs(t, instance, session, arena, generation);
    ResolveIs(t, instance, session, Session);
    if BatchStatus(t, instance, session, arena, generation) == OK {
      Q.SubmittableItemsAre(items, t[arena.resourceId - 1].arenaCapacity);
    }
  }

  /** The leased headers are the events from the old cursor on, and the lease records the first and last of them. */
  ghost predicate Covers(result: PollResult, ev: seq<Q.Event>, cursor: nat) {
    && |result.headers| == result.requiredHeaders > 0 && cursor + result.requiredHeaders <= |ev|
    && (forall i :: 0 <= i < result.requiredHeaders ==> result.headers[i] == ev[cursor + i].header)
    && result.first == result.headers[0].sequence
    && result.last == result.headers[result.requiredHeaders - 1].sequence
  }
}
