/** The pending events of one kernel session: a buffer sorted by sequence that events enter by publish, are leased
    from by poll, accepted in by submit and leave by acknowledgement. */
module EventQueue {
  import opened Basics
  import opened RuntimeStatus
  import opened Bitmap

  const LAYOUT_VERSION: nat := 1
  const MAX_PENDING_EVENTS: nat := 1024

  type CompactId = Nonce

  datatype Header = Header(
    layoutVersion: nat, reserved: nat, sequence: U64, correlation: CompactId,
    payloadOffset: U64, payloadLength: U64)

  datatype Event = Event(
    header: Header, arenaId: nat, arenaGeneration: U64, polled: bool, accepted: bool, acknowledged: bool)

  // ---------- what every queue looks like ----------

  ghost predicate Sorted(ev: seq<Event>) {
    forall i, j :: 0 <= i < j < |ev| ==> ev[i].header.sequence < ev[j].header.sequence
  }

  /** Exactly the first `cursor` events are polled; only polled events are accepted, only accepted acknowledged. */
  ghost predicate Staged(ev: seq<Event>, cursor: nat) {
    && cursor <= |ev|
    && (forall i :: 0 <= i < |ev| ==> (ev[i].polled <==> i < cursor))
    && (forall i :: 0 <= i < |ev| ==> (ev[i].accepted ==> ev[i].polled) && (ev[i].acknowledged ==> ev[i].accepted))
  }

  // ---------- publish ----------

  predicate SliceInBounds(offset: U64, length: U64, capacity: U64) {
    offset <= capacity && length <= capacity - offset
  }

  /** The status of the first header that may not follow `previous`, or OK. */
  function PublishStatus(items: seq<Header>, previous: Option<U64>, capacity: U64): Status {
    if |items| == 0 then OK
    else if items[0].layoutVersion != LAYOUT_VERSION || items[0].reserved != 0 then MALFORMED_DESCRIPTOR
    else if !SliceInBounds(items[0].payloadOffset, items[0].payloadLength, capacity) then PAYLOAD_BOUNDS
    else if previous.Some? && items[0].sequence <= previous.value then INVALID_STATE
    else PublishStatus(items[1..], Some(items[0].sequence), capacity)
  }

  function LastSequence(ev: seq<Event>): Option<U64> {
    if |ev| == 0 then None else Some(ev[|ev| - 1].header.sequence)
  }

  function Published(items: seq<Header>, arenaId: nat, generation: U64): seq<Event> {
    seq(|items|, i requires 0 <= i < |items| => Event(items[i], arenaId, generation, false, false, false))
  }

  /** Items that pass are increasing and continue the queue. */
  lemma {:induction false} PublishableIsSorted(items: seq<Header>, previous: Option<U64>, capacity: U64)
    requires PublishStatus(items, previous, capacity) == OK
    ensures forall i, j :: 0 <= i < j < |items| ==> items[i].sequence < items[j].sequence
    ensures previous.Some? ==> forall i :: 0 <= i < |items| ==> previous.value < items[i].sequence
    ensures forall i :: 0 <= i < |items| ==> SliceInBounds(items[i].payloadOffset, items[i].payloadLength, capacity)
  {
    if |items| > 0 {
      PublishableIsSorted(items[1..], Some(items[0].sequence), capacity);
      forall i | 0 < i < |items|
        ensures items[i] == items[1..][i - 1] && items[0].sequence < items[i].sequence
      {
      }
    }
  }

  /** What is wrong with header `i` of a batch, on top of a queue that ends with `previous`. */
  ghost predicate Malformed(items: seq<Header>, i: nat) {
    i < |items| && (items[i].layoutVersion != 1 || items[i].reserved != 0)
  }

  ghost predicate OutOfBounds(items: seq<Header>, capacity: U64, i: nat) {
    i < |items| && items[i].payloadOffset + items[i].payloadLength > capacity
  }

  ghost predicate OutOfOrder(items: seq<Header>, previous: Option<U64>, i: nat) {
    i < |items| && if i > 0 then items[i].sequence <= items[i - 1].sequence
                   else previous.Some? && items[i].sequence <= previous.value
  }

  ghost predicate Publishable(items: seq<Header>, previous: Option<U64>, capacity: U64, i: nat) {
    !Malformed(items, i) && !OutOfBounds(items, capacity, i) && !OutOfOrder(items, previous, i)
  }

  ghost predicate AllPublishable(items: seq<Header>, previous: Option<U64>, capacity: U64) {
    forall i: nat :: i < |items| ==> Publishable(items, previous, capacity, i)
  }

  /** A batch passes exactly if all its headers do; otherwise the first header that does not decides the status, layout
      before bounds before order. */
  lemma {:induction false} PublishStatusIs(items: seq<Header>, previous: Option<U64>, capacity: U64) returns (n: nat)
    ensures n <= |items| && forall i: nat :: i < n ==> Publishable(items, previous, capacity, i)
    ensures PublishStatus(items, previous, capacity) == OK <==> n == |items|
    ensures n < |items| ==>
              PublishStatus(items, previous, capacity) == if Malformed(items, n) then MALFORMED_DESCRIPTOR
                                                          else if OutOfBounds(items, capacity, n) then PAYLOAD_BOUNDS
                                                          else INVALID_STATE
    ensures n < |items| ==> !Publishable(items, previous, capacity, n)
  {
    n := 0;
    if |items| > 0 && Publishable(items, previous, capacity, 0) {
      var m := PublishStatusIs(items[1..], Some(items[0].sequence), capacity);
      n := m + 1;
      forall i: nat | 0 < i <= m && i < |items| ensures
        && (Malformed(items, i) <==> Malformed(items[1..], i - 1))
        && (OutOfBounds(items, capacity, i) <==> OutOfBounds(items[1..], capacity, i - 1))
        && (OutOfOrder(items, previous, i) <==> OutOfOrder(items[1..], Some(items[0].sequence), i - 1))
      {
      }
      forall i: nat | i < n ensures Publishable(items, previous, capacity, i) {
        if i > 0 {
          assert Publishable(items[1..], Some(items[0].sequence), capacity, i - 1);
        }
      }
    }
  }

  /** What publish appends: the headers in order, for this arena in this generation, with nothing marked. */
  lemma PublishedAre(items: seq<Header>, arenaId: nat, generation: U64, i: nat)
    requires i < |items|
    ensures |Published(items, arenaId, generation)| == |items|
    ensures var e := Published(items, arenaId, generation)[i];
            && e.header == items[i] && e.arenaId == arenaId && e.arenaGeneration == generation
            && !e.polled && !e.accepted && !e.acknowledged
  {
  }

  // ---------- poll ----------

  predicate Leasable(e: Event, arenaId: nat, generation: U64) {
    !e.polled && e.arenaId == arenaId && e.arenaGeneration == generation
  }

  /** How many events from position `from` on a poll of this arena generation takes. */
  function ReadyCount(ev: seq<Event>, from: nat, arenaId: nat, generation: U64): (n: nat)
    requires from <= |ev|
    ensures from + n <= |ev|
    ensures forall i :: from <= i < from + n ==> Leasable(ev[i], arenaId, generation)
    ensures from + n < |ev| ==> !Leasable(ev[from + n], arenaId, generation)
    decreases |ev| - from
  {
    if from < |ev| && Leasable(ev[from], arenaId, generation)
    then 1 + ReadyCount(ev, from + 1, arenaId, generation) else 0
  }

  /** The end of a payload, in 64-bit arithmetic. */
  function PayloadEnd(h: Header): U64 {
    var end := h.payloadOffset + h.payloadLength;
    if end < 0x1_0000_0000_0000_0000 then end else end - 0x1_0000_0000_0000_0000
  }

  /** The payload bytes that `n` events from `from` on reach. */
  function RequiredPayload(ev: seq<Event>, from: nat, n: nat): U64
    requires from + n <= |ev|
  {
    if n == 0 then 0
    else
      var rest, end := RequiredPayload(ev, from, n - 1), PayloadEnd(ev[from + n - 1].header);
      if end > rest then end else rest
  }

  lemma {:induction false} RequiredPayloadIsMax(ev: seq<Event>, from: nat, n: nat, i: nat)
    requires from <= i < from + n <= |ev|
    ensures PayloadEnd(ev[i].header) <= RequiredPayload(ev, from, n)
  {
    if i < from + n - 1 {
      RequiredPayloadIsMax(ev, from, n - 1, i);
    }
  }

  function PolledRange(ev: seq<Event>, from: nat, n: nat): seq<Event>
    requires from + n <= |ev|
  {
    seq(|ev|, i requires 0 <= i < |ev| => if from <= i < from + n then ev[i].(polled := true) else ev[i])
  }

  /** The end of a payload is offset plus length modulo 2^64; for a payload that passed the bounds it does not wrap. */
  lemma PayloadEndIs(h: Header)
    ensures (h.payloadOffset + h.payloadLength) % 0x1_0000_0000_0000_0000 == PayloadEnd(h)
    ensures forall capacity: U64 :: SliceInBounds(h.payloadOffset, h.payloadLength, capacity) ==>
              PayloadEnd(h) == h.payloadOffset + h.payloadLength <= capacity
  {
  }

  /** The payload size is reached by an event that is polled, or nothing is polled. */
  lemma {:induction false} RequiredPayloadIsReached(ev: seq<Event>, from: nat, n: nat)
    requires from + n <= |ev|
    ensures RequiredPayload(ev, from, n) == 0
            || exists i :: from <= i < from + n && PayloadEnd(ev[i].header) == RequiredPayload(ev, from, n)
  {
    if n > 0 {
      RequiredPayloadIsReached(ev, from, n - 1);
    }
  }

  /** Ready are the events from the cursor on, without exception, that are still to be polled and belong to this arena
      in this generation. */
  lemma ReadyAre(ev: seq<Event>, from: nat, arenaId: nat, generation: U64, i: nat)
    requires from <= i < |ev|
    ensures i < from + ReadyCount(ev, from, arenaId, generation)
       <==> forall j :: from <= j <= i ==>
              !ev[j].polled && ev[j].arenaId == arenaId && ev[j].arenaGeneration == generation
  {
    var n := ReadyCount(ev, from, arenaId, generation);
    if i < from + n {
      forall j | from <= j <= i
        ensures !ev[j].polled && ev[j].arenaId == arenaId && ev[j].arenaGeneration == generation
      {
        assert Leasable(ev[j], arenaId, generation);
      }
    } else {
      assert !Leasable(ev[from + n], arenaId, generation);
    }
  }

  /** A poll marks those events and changes nothing else. */
  lemma PolledRangeIs(ev: seq<Event>, from: nat, n: nat, i: nat)
    requires from + n <= |ev| && i < |ev|
    ensures |PolledRange(ev, from, n)| == |ev|
    ensures from <= i < from + n ==> PolledRange(ev, from, n)[i] == ev[i].(polled := true)
    ensures i < from || from + n <= i ==> PolledRange(ev, from, n)[i] == ev[i]
  {
  }

  // ---------- submit ----------

  /** The position of a sequence number, by a search of its own. */
  function Find(ev: seq<Event>, sequence: U64): (r: Option<nat>)
    ensures r.Some? ==> r.value < |ev| && ev[r.value].header.sequence == sequence
    ensures r.None? ==> forall i :: 0 <= i < |ev| ==> ev[i].header.sequence != sequence
  {
    if |ev| == 0 then None
    else if ev[|ev| - 1].header.sequence == sequence then Some(|ev| - 1)
    else Find(ev[..|ev| - 1], sequence)
  }

  predicate Submittable(e: Event, h: Header, arenaId: nat, generation: U64) {
    e.polled && e.arenaId == arenaId && e.arenaGeneration == generation && e.header.correlation == h.correlation
  }

  function StatusOf(e: Event, h: Header, arenaId: nat, generation: U64): Status {
    if !Submittable(e, h, arenaId, generation) then INVALID_ARGUMENT
    else if e.accepted then DUPLICATE_ACCEPTED
    else OK
  }

  /** The status of one submitted item, judged against the queue as it was before the call. */
  function ItemStatus(ev: seq<Event>, h: Header, arenaId: nat, generation: U64): Status {
    match Find(ev, h.sequence)
    case None => INVALID_ARGUMENT
    case Some(k) => StatusOf(ev[k], h, arenaId, generation)
  }

  predicate Newly(ev: seq<Event>, items: seq<Header>, arenaId: nat, generation: U64, k: nat)
    requires k < |ev|
  {
    exists i :: 0 <= i < |items| && items[i].sequence == ev[k].header.sequence
             && StatusOf(ev[k], items[i], arenaId, generation) == OK
  }

  function Submitted(ev: seq<Event>, items: seq<Header>, arenaId: nat, generation: U64): seq<Event> {
    seq(|ev|, k requires 0 <= k < |ev| =>
      ev[k].(accepted := ev[k].accepted || Newly(ev, items, arenaId, generation, k)))
  }

  /** An item is accepted exactly if an event of its sequence was polled, for this arena in this generation and with
      its correlation, and is not accepted yet; a second acceptance is told apart, and everything else is invalid. */
  lemma ItemStatusIs(ev: seq<Event>, h: Header, arenaId: nat, generation: U64)
    requires Sorted(ev)
    ensures ItemStatus(ev, h, arenaId, generation) == OK
       <==> exists k: nat :: Fits(ev, h, arenaId, generation, k) && !ev[k].accepted
    ensures ItemStatus(ev, h, arenaId, generation) == DUPLICATE_ACCEPTED
       <==> exists k: nat :: Fits(ev, h, arenaId, generation, k) && ev[k].accepted
    ensures ItemStatus(ev, h, arenaId, generation) in {OK, DUPLICATE_ACCEPTED, INVALID_ARGUMENT}
  {
    var r := Find(ev, h.sequence);
    forall k: nat | Fits(ev, h, arenaId, generation, k) ensures r == Some(k) {
      SequenceIsUnique(ev, k, r.value);
    }
    if r.Some? && Submittable(ev[r.value], h, arenaId, generation) {
      assert Fits(ev, h, arenaId, generation, r.value);
    }
  }

  lemma SequenceIsUnique(ev: seq<Event>, i: nat, j: nat)
    requires Sorted(ev) && i < |ev| && j < |ev| && ev[i].header.sequence == ev[j].header.sequence
    ensures i == j
  {
  }

  ghost predicate Fits(ev: seq<Event>, h: Header, arenaId: nat, generation: U64, k: nat) {
    && k < |ev| && ev[k].header.sequence == h.sequence && ev[k].header.correlation == h.correlation
    && ev[k].polled && ev[k].arenaId == arenaId && ev[k].arenaGeneration == generation
  }

  /** Afterwards exactly the events are accepted that were before or that some item was accepted for; nothing else of
      an event changes. */
  lemma SubmittedIs(ev: seq<Event>, items: seq<Header>, arenaId: nat, generation: U64, k: nat)
    requires k < |ev|
    ensures |Submitted(ev, items, arenaId, generation)| == |ev|
    ensures Submitted(ev, items, arenaId, generation)[k].(accepted := ev[k].accepted) == ev[k]
    ensures Submitted(ev, items, arenaId, generation)[k].accepted
       <==> ev[k].accepted || exists i :: 0 <= i < |items| && Fits(ev, items[i], arenaId, generation, k)
  {
    if i :| 0 <= i < |items| && Fits(ev, items[i], arenaId, generation, k) {
      assert !ev[k].accepted ==> StatusOf(ev[k], items[i], arenaId, generation) == OK;
    }
  }

  /** The items that were accepted are counted. */
  lemma {:induction false} CountIs(statuses: seq<Status>)
    ensures Count(statuses) == |set i | 0 <= i < |statuses| && statuses[i] == OK|
  {
    if |statuses| > 0 {
      var n := |statuses| - 1;
      CountIs(statuses[..n]);
      var before := set i | 0 <= i < n && statuses[..n][i] == OK;
      var all := set i | 0 <= i < |statuses| && statuses[i] == OK;
      assert all == if statuses[n] == OK then before + {n} else before;
    }
  }

  ghost predicate Increasing(items: seq<Header>) {
    forall i, j :: 0 <= i < j < |items| ==> items[i].sequence < items[j].sequence
  }

  function Count(statuses: seq<Status>): nat {
    if |statuses| == 0 then 0
    else Count(statuses[..|statuses| - 1]) + (if statuses[|statuses| - 1] == OK then 1 else 0)
  }

  /** The accepted prefix moves the watermark; an event behind an unaccepted one does not. */
  function Watermark(ev: seq<Event>, from: nat, watermark: U64): U64
    requires from <= |ev|
    decreases |ev| - from
  {
    if from < |ev| && ev[from].accepted
    then Watermark(ev, from + 1, if ev[from].header.sequence > watermark then ev[from].header.sequence else watermark)
    else watermark
  }

  /** The watermark never falls, and where it rises it covers accepted events only. */
  lemma {:induction false} WatermarkCoversAccepted(ev: seq<Event>, from: nat, watermark: U64)
    requires from <= |ev| && Sorted(ev)
    requires forall i :: 0 <= i < from ==> ev[i].accepted
    ensures Watermark(ev, from, watermark) >= watermark
    ensures Watermark(ev, from, watermark) > watermark ==>
              forall i :: 0 <= i < |ev| && ev[i].header.sequence <= Watermark(ev, from, watermark) ==> ev[i].accepted
    ensures Watermark(ev, from, watermark) > watermark ==>
              exists i :: 0 <= i < |ev| && ev[i].header.sequence == Watermark(ev, from, watermark)
    decreases |ev| - from
  {
    if from < |ev| && ev[from].accepted {
      var w := if ev[from].header.sequence > watermark then ev[from].header.sequence else watermark;
      WatermarkCoversAccepted(ev, from + 1, w);
    }
  }

  /** All events up to position `i` are accepted. */
  ghost predicate AcceptedUpTo(ev: seq<Event>, i: nat) {
    i < |ev| && forall j :: 0 <= j <= i ==> ev[j].accepted
  }

  /** The watermark rises over the whole accepted prefix, and no further: it is at least the sequence of every event
      all of whose predecessors are accepted, and it is such a sequence or what it was. */
  lemma {:induction false} WatermarkRises(ev: seq<Event>, from: nat, watermark: U64)
    requires from <= |ev| && forall i :: 0 <= i < from ==> ev[i].accepted
    ensures forall i: nat :: from <= i && AcceptedUpTo(ev, i) ==>
              ev[i].header.sequence <= Watermark(ev, from, watermark)
    ensures Watermark(ev, from, watermark) == watermark
            || exists i: nat :: AcceptedUpTo(ev, i) && ev[i].header.sequence == Watermark(ev, from, watermark)
    ensures Watermark(ev, from, watermark) >= watermark
    decreases |ev| - from
  {
    if from < |ev| && ev[from].accepted {
      assert AcceptedUpTo(ev, from);
      WatermarkRises(ev, from + 1,
                     if ev[from].header.sequence > watermark then ev[from].header.sequence else watermark);
    }
  }

  /** The only value that does both. */
  ghost predicate IsWatermark(ev: seq<Event>, before: U64, after: U64) {
    && (forall i: nat :: AcceptedUpTo(ev, i) ==> ev[i].header.sequence <= after)
    && (after == before || exists i: nat :: AcceptedUpTo(ev, i) && ev[i].header.sequence == after)
    && before <= after
  }

  lemma WatermarkIs(ev: seq<Event>, before: U64)
    ensures IsWatermark(ev, before, Watermark(ev, 0, before))
    ensures forall after: U64 :: IsWatermark(ev, before, after) ==> after == Watermark(ev, 0, before)
  {
    WatermarkRises(ev, 0, before);
  }

  predicate WellFormedItem(h: Header, capacity: U64) {
    h.layoutVersion == LAYOUT_VERSION && h.reserved == 0 && SliceInBounds(h.payloadOffset, h.payloadLength, capacity)
  }

  predicate SubmittableItems(items: seq<Header>, capacity: U64) {
    && (forall i :: 0 <= i < |items| ==> WellFormedItem(items[i], capacity))
    && (forall i :: 0 < i < |items| ==> items[i - 1].sequence < items[i].sequence)
  }

  lemma {:induction false} NeighboursIncrease(items: seq<Header>, capacity: U64)
    requires SubmittableItems(items, capacity)
    ensures Increasing(items)
  {
    if |items| > 1 {
      var n := |items| - 1;
      NeighboursIncrease(items[..n], capacity);
      forall i | 0 <= i < n ensures items[i].sequence < items[n].sequence {
        assert items[..n][i].sequence <= items[..n][n - 1].sequence;
      }
      assert forall i, j :: 0 <= i < j < n ==> items[..n][i].sequence < items[..n][j].sequence;
    }
  }

  /** Submitted items are subject to the same conditions as headers that are published to an empty queue. */
  lemma SubmittableItemsAre(items: seq<Header>, capacity: U64)
    ensures SubmittableItems(items, capacity)
       <==> AllPublishable(items, None, capacity)
  {
    if AllPublishable(items, None, capacity) {
      forall i | 0 <= i < |items|
        ensures WellFormedItem(items[i], capacity) && (i > 0 ==> items[i - 1].sequence < items[i].sequence)
      {
        assert Publishable(items, None, capacity, i);
      }
    }
  }

  /** In a sorted queue the search result is decided at the first position that is not below. */
  lemma FindAtLowerBound(ev: seq<Event>, sequence: U64, k: nat)
    requires Sorted(ev) && k <= |ev|
    requires forall i :: 0 <= i < k ==> ev[i].header.sequence < sequence
    requires k < |ev| ==> ev[k].header.sequence >= sequence
    ensures Find(ev, sequence) == if k < |ev| && ev[k].header.sequence == sequence then Some(k) else None
  {
    forall i | 0 <= i < |ev| && i != k ensures ev[i].header.sequence != sequence {
      if i > k {
        assert ev[k].header.sequence < ev[i].header.sequence;
      }
    }
  }

  /** One step of the merge: the item touches at most the event at position `k`, which no earlier item touched. */
  lemma SubmitOne(ev: seq<Event>, items: seq<Header>, n: nat, k: nat, arenaId: nat, generation: U64)
    requires Sorted(ev) && Increasing(items) && n < |items| && k <= |ev|
    requires forall i :: 0 <= i < k ==> ev[i].header.sequence < items[n].sequence
    requires k < |ev| ==> ev[k].header.sequence >= items[n].sequence
    ensures ItemStatus(ev, items[n], arenaId, generation)
         == if k < |ev| && ev[k].header.sequence == items[n].sequence
            then StatusOf(ev[k], items[n], arenaId, generation) else INVALID_ARGUMENT
    ensures k < |ev| && ev[k].header.sequence == items[n].sequence ==>
              Submitted(ev, items[..n], arenaId, generation)[k] == ev[k]
    ensures Submitted(ev, items[..n + 1], arenaId, generation)
         == if ItemStatus(ev, items[n], arenaId, generation) == OK
            then Submitted(ev, items[..n], arenaId, generation)[k := ev[k].(accepted := true)]
            else Submitted(ev, items[..n], arenaId, generation)
  {
    FindAtLowerBound(ev, items[n].sequence, k);
    forall m: nat | m < |ev|
      ensures Newly(ev, items[..n + 1], arenaId, generation, m)
         <==> Newly(ev, items[..n], arenaId, generation, m)
              || (m == k && ItemStatus(ev, items[n], arenaId, generation) == OK)
      ensures m == k && ev[k].header.sequence == items[n].sequence ==> !Newly(ev, items[..n], arenaId, generation, m)
    {
      NewlyStep(ev, items, n, m, arenaId, generation);
    }
  }

  lemma NewlyStep(ev: seq<Event>, items: seq<Header>, n: nat, m: nat, arenaId: nat, generation: U64)
    requires n < |items| && m < |ev| && Increasing(items)
    ensures Newly(ev, items[..n + 1], arenaId, generation, m)
       <==> Newly(ev, items[..n], arenaId, generation, m)
            || (items[n].sequence == ev[m].header.sequence && StatusOf(ev[m], items[n], arenaId, generation) == OK)
    ensures ev[m].header.sequence == items[n].sequence ==> !Newly(ev, items[..n], arenaId, generation, m)
  {
    if Newly(ev, items[..n], arenaId, generation, m) {
      var i :| 0 <= i < n && items[..n][i].sequence == ev[m].header.sequence
            && StatusOf(ev[m], items[..n][i], arenaId, generation) == OK;
      assert items[..n + 1][i] == items[i];
    }
    assert items[..n + 1][n] == items[n];
  }

  /** The caller's buffers say of the first `n` items what a search of its own says of each. */
  ghost predicate Told(ev: seq<Event>, items: seq<Header>, arenaId: nat, generation: U64, n: nat,
                       statuses: seq<Status>, bits: seq<bv8>, accepted: nat, rejected: nat)
  {
    && n <= |items| <= |statuses| && |items| <= 8 * |bits|
    && (forall i :: 0 <= i < n ==> statuses[i] == ItemStatus(ev, items[i], arenaId, generation))
    && (forall i: nat :: i < |items| ==> (Flag(bits, i) <==> i < n && statuses[i] == OK))
    && accepted == Count(statuses[..n]) && accepted + rejected == n
  }

  // ---------- acknowledge ----------

  predicate Acknowledges(e: Event, arenaId: nat, first: U64, last: U64) {
    e.accepted && e.arenaId == arenaId && first <= e.header.sequence <= last
  }

  function Acknowledged(ev: seq<Event>, arenaId: nat, first: U64, last: U64): seq<Event> {
    seq(|ev|, i requires 0 <= i < |ev| =>
      if Acknowledges(ev[i], arenaId, first, last) then ev[i].(acknowledged := true) else ev[i])
  }

  function LeadingAcknowledged(ev: seq<Event>): (n: nat)
    ensures n <= |ev|
    ensures forall i :: 0 <= i < n ==> ev[i].acknowledged
    ensures n < |ev| ==> !ev[n].acknowledged
  {
    if |ev| > 0 && ev[0].acknowledged then 1 + LeadingAcknowledged(ev[1..]) else 0
  }

  /** Acknowledged events leave from the front only. */
  function Remaining(ev: seq<Event>, arenaId: nat, first: U64, last: U64): seq<Event> {
    Acknowledged(ev, arenaId, first, last)[LeadingAcknowledged(Acknowledged(ev, arenaId, first, last))..]
  }

  /** Acknowledged are afterwards exactly the events that were before or that are accepted, belong to the arena and lie
      in the range of the lease; nothing else of an event changes. */
  lemma AcknowledgedIs(ev: seq<Event>, arenaId: nat, first: U64, last: U64, i: nat)
    requires i < |ev|
    ensures |Acknowledged(ev, arenaId, first, last)| == |ev|
    ensures Acknowledged(ev, arenaId, first, last)[i].(acknowledged := ev[i].acknowledged) == ev[i]
    ensures Acknowledged(ev, arenaId, first, last)[i].acknowledged
       <==> ev[i].acknowledged || (ev[i].accepted && ev[i].arenaId == arenaId
                                   && ev[i].header.sequence >= first && ev[i].header.sequence <= last)
  {
  }

  /** What leaves the queue is the longest prefix of acknowledged events; the rest stays in order. */
  lemma RemainingIs(ev: seq<Event>, arenaId: nat, first: U64, last: U64) returns (n: nat)
    ensures n <= |ev| && Remaining(ev, arenaId, first, last) == Acknowledged(ev, arenaId, first, last)[n..]
    ensures forall i :: 0 <= i < n ==> Acknowledged(ev, arenaId, first, last)[i].acknowledged
    ensures n < |ev| ==> !Acknowledged(ev, arenaId, first, last)[n].acknowledged
  {
    n := LeadingAcknowledged(Acknowledged(ev, arenaId, first, last));
  }

  // ---------- the invariant is kept ----------

  lemma PublishKeeps(ev: seq<Event>, cursor: nat, items: seq<Header>, arenaId: nat, generation: U64, capacity: U64)
    requires Sorted(ev) && Staged(ev, cursor)
    requires PublishStatus(items, LastSequence(ev), capacity) == OK
    ensures Sorted(ev + Published(items, arenaId, generation))
    ensures Staged(ev + Published(items, arenaId, generation), cursor)
  {
    PublishableIsSorted(items, LastSequence(ev), capacity);
  }

  lemma PollKeeps(ev: seq<Event>, cursor: nat, n: nat)
    requires Sorted(ev) && Staged(ev, cursor) && cursor + n <= |ev|
    ensures Sorted(PolledRange(ev, cursor, n)) && Staged(PolledRange(ev, cursor, n), cursor + n)
  {
  }

  lemma SubmitKeeps(ev: seq<Event>, cursor: nat, items: seq<Header>, arenaId: nat, generation: U64)
    requires Sorted(ev) && Staged(ev, cursor)
    ensures Sorted(Submitted(ev, items, arenaId, generation))
    ensures Staged(Submitted(ev, items, arenaId, generation), cursor)
  {
  }

  /** Everything acknowledged lies before the poll cursor, so the cursor moves back by exactly what left. */
  lemma AcknowledgeKeeps(ev: seq<Event>, cursor: nat, arenaId: nat, first: U64, last: U64)
    requires Sorted(ev) && Staged(ev, cursor)
    ensures LeadingAcknowledged(Acknowledged(ev, arenaId, first, last)) <= cursor
    ensures Sorted(Remaining(ev, arenaId, first, last))
    ensures Staged(Remaining(ev, arenaId, first, last),
                   cursor - LeadingAcknowledged(Acknowledged(ev, arenaId, first, last)))
  {
    var marked := Acknowledged(ev, arenaId, first, last);
    assert Sorted(marked) && Staged(marked, cursor);
    DropKeeps(marked, cursor, LeadingAcknowledged(marked));
  }

  lemma DropKeeps(ev: seq<Event>, cursor: nat, n: nat)
    requires Sorted(ev) && Staged(ev, cursor) && n <= |ev|
    requires forall i :: 0 <= i < n ==> ev[i].acknowledged
    ensures n <= cursor && Sorted(ev[n..]) && Staged(ev[n..], cursor - n)
  {
    if n > 0 {
      assert ev[n - 1].acknowledged && ev[n - 1].polled;
    }
  }

  // ---------- the view handed to an adapter ----------

  /** Two positions whose distance is the distance of their sequence numbers enclose a run without gaps. */
  lemma {:induction false} ViewHasNoGaps(ev: seq<Event>, i: nat, j: nat, k: nat)
    requires Sorted(ev) && i <= k <= j < |ev|
    requires j - i == ev[j].header.sequence - ev[i].header.sequence
    ensures ev[k].header.sequence == ev[i].header.sequence + (k - i)
  {
    AtLeast(ev, i, k);
    AtLeast(ev, k, j);
  }

  lemma {:induction false} AtLeast(ev: seq<Event>, i: nat, k: nat)
    requires Sorted(ev) && i <= k < |ev|
    ensures ev[k].header.sequence >= ev[i].header.sequence + (k - i)
    decreases k
  {
    if i < k {
      AtLeast(ev, i, k - 1);
    }
  }
}
