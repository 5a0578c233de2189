/** The kernel's table of 256 resources as a value: handles, allocation, arenas and the leases over them. */
module HandleTable {
  import opened Basics
  import opened RuntimeStatus

  const MAX_RESOURCES: nat := 256

  /** `Unused` is the kind of a slot that was never allocated. */
  datatype Kind = Unused | Instance | Profile | Bundle | Session | Bytes | Arena | Lease

  datatype Handle = Handle(instanceId: nat, resourceId: nat, generation: U32, kind: Kind)

  /** The fields that every resource has, whatever its kind. A session keeps its sequence in `sequence`; a lease keeps
      its arena in `parentId`, its session in `outstanding`, the arena generation in `epoch` and the number of its
      events in `sequence`. */
  datatype Slot = Slot(
    alive: bool, released: bool, kind: Kind, generation: U32, instanceId: nat, parentId: nat,
    epoch: U64, sequence: U64, outstanding: nat,
    arenaCapacity: U64, arenaGeneration: U64, inflight: nat, leaseFirst: U64, leaseLast: U64)

  const BLANK := Slot(false, false, Unused, 0, 0, 0, 0, 0, 0, 0, 0, 0, 0, 0)

  /** What a resource starts as that is allocated for its own sake; leases come from polling alone. */
  type NewSlot = s: Slot | s.kind != Unused && s.kind != Lease && s.inflight == 0
    witness BLANK.(kind := Instance)

  type Table = t: seq<Slot> | |t| == MAX_RESOURCES witness seq(MAX_RESOURCES, i => BLANK)

  // ---------- handles ----------

  predicate InTable(resourceId: nat) {
    0 < resourceId <= MAX_RESOURCES
  }

  function Resolve(t: Table, instance: Handle, h: Handle, kind: Kind): Status {
    if h.instanceId != instance.instanceId then CROSS_INSTANCE_HANDLE
    else if h.kind != kind then WRONG_HANDLE_KIND
    else if !InTable(h.resourceId) || t[h.resourceId - 1].generation != h.generation then STALE_HANDLE
    else if t[h.resourceId - 1].released then ALREADY_RELEASED
    else if !t[h.resourceId - 1].alive then STALE_HANDLE
    else if t[h.resourceId - 1].instanceId != instance.instanceId then CROSS_INSTANCE_HANDLE
    else OK
  }

  /** The handle names its resource by the kind the resource has. `Resolve` itself compares the kind asked for
      with the handle only. */
  predicate Genuine(t: Table, h: Handle) {
    InTable(h.resourceId) && t[h.resourceId - 1].alive && t[h.resourceId - 1].generation == h.generation ==>
      t[h.resourceId - 1].kind == h.kind
  }

  /** The handle is one of this instance, asks for the kind that is wanted, and names a slot in the generation that the
      slot is in. */
  ghost predicate Current(t: Table, instance: Handle, h: Handle, kind: Kind) {
    && h.instanceId == instance.instanceId && h.kind == kind
    && 1 <= h.resourceId <= 256 && t[h.resourceId - 1].generation == h.generation
  }

  /** The handle names a live resource of this instance. */
  ghost predicate Names(t: Table, instance: Handle, h: Handle, kind: Kind) {
    && Current(t, instance, h, kind)
    && t[h.resourceId - 1].alive && !t[h.resourceId - 1].released
    && t[h.resourceId - 1].instanceId == instance.instanceId
  }

  /** A handle resolves exactly if it names a live resource; what is wrong with it otherwise decides the status. */
  lemma ResolveIs(t: Table, instance: Handle, h: Handle, kind: Kind)
    ensures Resolve(t, instance, h, kind) == OK <==> Names(t, instance, h, kind)
    ensures Resolve(t, instance, h, kind) == ALREADY_RELEASED
       <==> Current(t, instance, h, kind) && t[h.resourceId - 1].released
    ensures Resolve(t, instance, h, kind) == WRONG_HANDLE_KIND
       <==> h.instanceId == instance.instanceId && h.kind != kind
    ensures Resolve(t, instance, h, kind) == STALE_HANDLE
       <==> h.instanceId == instance.instanceId && h.kind == kind
            && (!Current(t, instance, h, kind)
                || (!t[h.resourceId - 1].alive && !t[h.resourceId - 1].released))
    ensures Resolve(t, instance, h, kind) == CROSS_INSTANCE_HANDLE
       <==> h.instanceId != instance.instanceId
            || (Current(t, instance, h, kind) && t[h.resourceId - 1].alive && !t[h.resourceId - 1].released
                && t[h.resourceId - 1].instanceId != instance.instanceId)
  {
  }

  // ---------- allocation ----------

  /** The lowest slot that is not alive. */
  function FirstFree(t: seq<Slot>): (r: Option<nat>)
    ensures r.Some? ==> r.value < |t| && !t[r.value].alive && forall i :: 0 <= i < r.value ==> t[i].alive
    ensures r.None? ==> forall i :: 0 <= i < |t| ==> t[i].alive
  {
    if |t| == 0 then None
    else
      match FirstFree(t[..|t| - 1])
      case Some(i) => Some(i)
      case None => if t[|t| - 1].alive then None else Some(|t| - 1)
  }

  /** Generations count up in 32 bits and skip zero. */
  function NextGeneration(g: U32): U32 {
    if g == 0xFFFF_FFFF then 1 else g + 1
  }

  function HandleOf(t: Table, i: nat): Handle
    requires i < MAX_RESOURCES
  {
    Handle(t[i].instanceId, i + 1, t[i].generation, t[i].kind)
  }

  function Release(t: Table, i: nat): Table
    requires i < MAX_RESOURCES
  {
    t[i := t[i].(released := true, alive := false)]
  }

  // ---------- leases ----------

  function Weight(s: Slot, arenaId: nat): nat {
    if s.alive && s.kind == Lease && s.parentId == arenaId then s.sequence else 0
  }

  /** The number of events under live leases over one arena. */
  function Leased(t: seq<Slot>, arenaId: nat): nat {
    if |t| == 0 then 0 else Leased(t[..|t| - 1], arenaId) + Weight(t[|t| - 1], arenaId)
  }

  /** A live lease is over a live arena of its instance, holds at least one event, and was taken from the
      generation the arena still has. */
  ghost predicate LeaseOk(t: Table, i: nat)
    requires i < MAX_RESOURCES
  {
    var s := t[i];
    s.alive && s.kind == Lease ==>
      && InTable(s.parentId)
      && t[s.parentId - 1].alive && t[s.parentId - 1].kind == Arena
      && t[s.parentId - 1].instanceId == s.instanceId
      && t[s.parentId - 1].arenaGeneration == s.epoch
      && s.sequence > 0
  }

  ghost predicate ArenaOk(t: Table, i: nat)
    requires i < MAX_RESOURCES
  {
    t[i].alive && t[i].kind == Arena ==> t[i].inflight == Leased(t, i + 1)
  }

  /** Conservation: each live arena's in-flight count is the sum over its live leases. */
  ghost predicate LeasesBalance(t: Table) {
    && (forall i: nat :: i < MAX_RESOURCES ==> LeaseOk(t, i))
    && (forall i: nat :: i < MAX_RESOURCES ==> ArenaOk(t, i))
  }

  lemma {:induction false} LeasedUpdate(t: seq<Slot>, i: nat, s: Slot, arenaId: nat)
    requires i < |t|
    ensures Leased(t[i := s], arenaId) == Leased(t, arenaId) - Weight(t[i], arenaId) + Weight(s, arenaId)
    ensures Weight(t[i], arenaId) <= Leased(t, arenaId)
  {
    var n := |t| - 1;
    if i == n {
      assert t[i := s][..n] == t[..n];
    } else {
      assert t[i := s][..n] == t[..n][i := s];
      LeasedUpdate(t[..n], i, s, arenaId);
    }
  }

  lemma {:induction false} NoLeases(t: seq<Slot>, arenaId: nat)
    requires forall i :: 0 <= i < |t| ==> Weight(t[i], arenaId) == 0
    ensures Leased(t, arenaId) == 0
  {
    if |t| > 0 {
      NoLeases(t[..|t| - 1], arenaId);
    }
  }

  // ---------- operations on the table ----------

  /** A new resource is put into the lowest free slot. */
  function Allocate(t: Table, s: NewSlot): (Status, Table) {
    match FirstFree(t)
    case None => (ALLOCATION_FAILURE, t)
    case Some(i) => (OK, t[i := s.(alive := true, released := false, generation := NextGeneration(t[i].generation))])
  }

  function ArenaSlot(instanceId: nat, capacity: U64, generation: U64): NewSlot {
    BLANK.(kind := Arena, instanceId := instanceId, arenaCapacity := capacity, arenaGeneration := generation)
  }

  function SessionSlot(instanceId: nat, bundleId: nat, epoch: U64, sequence: U64, outstanding: nat): NewSlot {
    BLANK.(kind := Session, instanceId := instanceId, parentId := bundleId, epoch := epoch, sequence := sequence,
           outstanding := outstanding)
  }

  function LeaseSlot(instanceId: nat, arenaId: nat, sessionId: nat, generation: U64, count: U64, first: U64, last: U64):
    Slot
  {
    BLANK.(kind := Lease, instanceId := instanceId, parentId := arenaId, outstanding := sessionId, epoch := generation,
           sequence := count, leaseFirst := first, leaseLast := last)
  }

  /** A poll that produced `count` events: a new lease, and the arena counts the events as in flight. */
  function GrantLease(t: Table, arena: nat, sessionId: nat, count: U64, first: U64, last: U64): (Status, Table)
    requires arena < MAX_RESOURCES
  {
    match FirstFree(t)
    case None => (ALLOCATION_FAILURE, t)
    case Some(i) =>
      var lease := LeaseSlot(t[arena].instanceId, arena + 1, sessionId, t[arena].arenaGeneration, count, first, last)
                   .(alive := true, generation := NextGeneration(t[i].generation));
      (OK, t[i := lease][arena := t[i := lease][arena].(inflight := t[i := lease][arena].inflight + count)])
  }

  /** Acknowledging a lease, from the point where session and lease are resolved. */
  function AckLease(t: Table, lease: nat, sessionId: nat): (Status, Table)
    requires lease < MAX_RESOURCES
  {
    var l := t[lease];
    if l.outstanding != sessionId then (WRONG_HANDLE_KIND, t)
    else if !InTable(l.parentId) || !t[l.parentId - 1].alive || t[l.parentId - 1].kind != Arena then (STALE_HANDLE, t)
    else if t[l.parentId - 1].inflight < l.sequence then (INTERNAL_INVARIANT, t)
    else
      var a := l.parentId - 1;
      (OK, Release(t[a := t[a].(inflight := t[a].inflight - l.sequence)], lease))
  }

  function ReleaseArena(t: Table, arena: nat): (Status, Table)
    requires arena < MAX_RESOURCES
  {
    if t[arena].inflight != 0 then (ARENA_BUSY, t)
    else (OK, Release(t[arena := t[arena].(arenaCapacity := 0)], arena))
  }

  function RecycleArena(t: Table, arena: nat, expected: U64, next: U64): (Status, Table)
    requires arena < MAX_RESOURCES
  {
    if t[arena].arenaGeneration != expected then (STALE_GENERATION, t)
    else if next <= expected then (INVALID_ARGUMENT, t)
    else if t[arena].inflight != 0 then (ARENA_BUSY, t)
    else (OK, t[arena := t[arena].(arenaGeneration := next)])
  }
}
