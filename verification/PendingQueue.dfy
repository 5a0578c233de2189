/** The in-place queue operations of a session, proved against the functions of EventQueue. */
module PendingQueue {
  import opened Basics
  import opened RuntimeStatus
  import opened EventQueue
  import opened Bitmap

  class Queue {
    const pending: array<Event>
    var count: nat
    var cursor: nat

    function Events(): seq<Event>
      requires count <= pending.Length
      reads this, pending
    {
      pending[..count]
    }

    ghost predicate Valid()
      reads this, pending
    {
      && pending.Length <= MAX_PENDING_EVENTS
      && count <= pending.Length
      && Sorted(Events())
      && Staged(Events(), cursor)
    }

    /** The caller's output buffers are not the queue's own storage. */
    ghost predicate Separate(statuses: array<Status>, bitmap: array<bv8>) {
      pending as object != statuses as object && pending as object != bitmap as object
      && statuses as object != bitmap as object
    }

    constructor (capacity: nat)
      requires capacity <= MAX_PENDING_EVENTS
      ensures Valid() && fresh(pending) && pending.Length == capacity && Events() == [] && cursor == 0
    {
      var blank := Event(Header(0, 0, 0, Nonce(0, 0), 0, 0), 0, 0, false, false, false);
      pending := new Event[capacity](i => blank);
      count := 0;
      cursor := 0;
    }

    /** `pending_lower_bound`: the first position whose sequence is not below the one sought. */
    method LowerBound(sequence: U64) returns (index: nat)
      requires Valid()
      ensures index <= count
      ensures forall i :: 0 <= i < index ==> pending[i].header.sequence < sequence
      ensures forall i :: index <= i < count ==> pending[i].header.sequence >= sequence
    {
      var left: nat, right: nat := 0, count;
      while left < right
        invariant left <= right <= count
        invariant forall i :: 0 <= i < left ==> Events()[i].header.sequence < sequence
        invariant forall i :: right <= i < count ==> Events()[i].header.sequence > sequence
      {
        var middle := left + (right - left) / 2;
        var observed := pending[middle].header.sequence;
        assert observed == Events()[middle].header.sequence;
        if observed < sequence {
          left := middle + 1;
        } else if observed > sequence {
          right := middle;
        } else {
          return middle;
        }
      }
      return left;
    }

    /** Checks all headers, then appends them; nothing is appended unless all pass. */
    method Publish(items: seq<Header>, arenaId: nat, generation: U64, capacity: U64) returns (status: Status)
      requires Valid()
      modifies this`count, pending
      ensures Valid() && cursor == old(cursor)
      ensures status == if |items| > pending.Length - old(count) then OUTSTANDING_WORK
                        else PublishStatus(items, LastSequence(old(Events())), capacity)
      ensures Events() == if status == OK then old(Events()) + Published(items, arenaId, generation) else old(Events())
    {
      if |items| > pending.Length - count {
        return OUTSTANDING_WORK;
      }
      var previous: Option<U64> := if count == 0 then None else Some(pending[count - 1].header.sequence);
      var n := 0;
      while n < |items|
        invariant 0 <= n <= |items|
        invariant PublishStatus(items, LastSequence(Events()), capacity)
               == PublishStatus(items[n..], previous, capacity)
      {
        var h := items[n];
        assert items[n..][1..] == items[n + 1..];
        if h.layoutVersion != LAYOUT_VERSION || h.reserved != 0 {
          return MALFORMED_DESCRIPTOR;
        }
        if !SliceInBounds(h.payloadOffset, h.payloadLength, capacity) {
          return PAYLOAD_BOUNDS;
        }
        if previous.Some? && h.sequence <= previous.value {
          return INVALID_STATE;
        }
        previous := Some(h.sequence);
        n := n + 1;
      }
      ghost var before := Events();
      PublishKeeps(before, cursor, items, arenaId, generation, capacity);
      n := 0;
      while n < |items|
        invariant 0 <= n <= |items| && count == |before| + n
        invariant pending[..count] == before + Published(items, arenaId, generation)[..n]
      {
        pending[count] := Event(items[n], arenaId, generation, false, false, false);
        count := count + 1;
        n := n + 1;
      }
      assert Published(items, arenaId, generation)[..n] == Published(items, arenaId, generation);
      status := OK;
    }

    /** The first loop of a poll: how many events are ready and how many payload bytes they reach. */
    method Ready(arenaId: nat, generation: U64) returns (ready: nat, payload: U64)
      requires Valid()
      ensures ready == ReadyCount(Events(), cursor, arenaId, generation)
      ensures payload == RequiredPayload(Events(), cursor, ready)
    {
      ready, payload := 0, 0;
      ghost var ev := Events();
      while cursor + ready < count && Leasable(pending[cursor + ready], arenaId, generation)
        invariant cursor + ready <= |ev| && ev == Events()
        invariant ReadyCount(ev, cursor, arenaId, generation)
               == ready + ReadyCount(ev, cursor + ready, arenaId, generation)
        invariant payload == RequiredPayload(ev, cursor, ready)
      {
        var h := pending[cursor + ready].header;
        assert h == ev[cursor + ready].header;
        if PayloadEnd(h) > payload {
          payload := PayloadEnd(h);
        }
        ready := ready + 1;
      }
    }

    /** The second loop of a poll: marks the ready events and returns their headers. */
    method Take(ready: nat) returns (headers: seq<Header>)
      requires Valid() && cursor + ready <= count
      modifies this`cursor, pending
      ensures Valid() && count == old(count) && cursor == old(cursor) + ready
      ensures Events() == PolledRange(old(Events()), old(cursor), ready)
      ensures |headers| == ready
      ensures forall i :: 0 <= i < ready ==> headers[i] == old(Events())[old(cursor) + i].header
    {
      ghost var before, from := Events(), cursor;
      PollKeeps(before, from, ready);
      headers := [];
      var n: nat := 0;
      while n < ready
        invariant n <= ready && |headers| == n && cursor == from
        invariant pending[..count] == PolledRange(before, from, n)
        invariant forall i :: 0 <= i < n ==> headers[i] == before[from + i].header
      {
        assert pending[cursor + n] == PolledRange(before, from, n)[cursor + n];
        headers := headers + [pending[cursor + n].header];
        pending[cursor + n] := pending[cursor + n].(polled := true);
        n := n + 1;
      }
      cursor := cursor + ready;
    }

    /** Submit: one merge of the sorted items with the sorted queue. Every item gets the status that a search of its
        own would give it; statuses, bitmap and counts agree; the watermark follows the accepted prefix. */
    method Submit(items: seq<Header>, arenaId: nat, generation: U64, capacity: U64, watermark: U64,
                  statuses: array<Status>, bitmap: array<bv8>)
      returns (status: Status, accepted: nat, rejected: nat, raised: U64)
      requires Valid() && statuses.Length >= |items| && 8 * bitmap.Length >= |items|
      requires Separate(statuses, bitmap)
      modifies pending, statuses, bitmap
      ensures Valid() && count == old(count)
      ensures status == if SubmittableItems(items, capacity) then OK else MALFORMED_DESCRIPTOR
      ensures status != OK ==> Events() == old(Events()) && raised == watermark
      ensures status != OK ==> statuses[..] == old(statuses[..]) && bitmap[..] == old(bitmap[..])
      ensures status == OK ==> Events() == Submitted(old(Events()), items, arenaId, generation)
      ensures status == OK ==>
                Told(old(Events()), items, arenaId, generation, |items|, statuses[..], bitmap[..], accepted, rejected)
      ensures status == OK ==> raised == Watermark(Events(), 0, watermark) && IsWatermark(Events(), watermark, raised)
    {
      accepted, rejected, raised := 0, 0, watermark;
      var ok := CheckItems(items, capacity);
      if !ok {
        return MALFORMED_DESCRIPTOR, 0, 0, watermark;
      }
      NeighboursIncrease(items, capacity);
      SubmitKeeps(Events(), cursor, items, arenaId, generation);
      accepted, rejected := Merge(items, arenaId, generation, statuses, bitmap);
      raised := RaisedWatermark(watermark);
      WatermarkIs(Events(), watermark);
      status := OK;
    }

    method CheckItems(items: seq<Header>, capacity: U64) returns (ok: bool)
      ensures ok <==> SubmittableItems(items, capacity)
    {
      for i := 0 to |items|
        invariant SubmittableItems(items[..i], capacity)
      {
        if i > 0 && items[i - 1].sequence >= items[i].sequence {
          return false;
        }
        if !WellFormedItem(items[i], capacity) {
          return false;
        }
        assert items[..i + 1] == items[..i] + [items[i]];
      }
      assert items[..|items|] == items;
      return true;
    }

    method Merge(items: seq<Header>, arenaId: nat, generation: U64, statuses: array<Status>, bitmap: array<bv8>)
      returns (accepted: nat, rejected: nat)
      requires Valid() && Increasing(items) && statuses.Length >= |items| && 8 * bitmap.Length >= |items|
      requires Separate(statuses, bitmap)
      modifies pending, statuses, bitmap
      ensures count == old(count) && cursor == old(cursor)
      ensures Events() == Submitted(old(Events()), items, arenaId, generation)
      ensures Told(old(Events()), items, arenaId, generation, |items|, statuses[..], bitmap[..], accepted, rejected)
    {
      ClearBits(bitmap, |items|);
      accepted, rejected := 0, 0;
      var index := count;
      if |items| > 0 {
        index := LowerBound(items[0].sequence);
      }
      ghost var ev := Events();
      assert Submitted(ev, items[..0], arenaId, generation) == ev;
      assert Told(ev, items, arenaId, generation, 0, statuses[..], bitmap[..], 0, 0);
      var n: nat := 0;
      while n < |items|
        invariant n <= |items| && count == |ev| && cursor == old(cursor)
        invariant n < |items| ==> NotPast(ev, index, items[n].sequence)
        invariant Events() == Submitted(ev, items[..n], arenaId, generation)
        invariant Told(ev, items, arenaId, generation, n, statuses[..], bitmap[..], accepted, rejected)
      {
        index, accepted, rejected :=
          MergeItem(ev, items, arenaId, generation, n, index, statuses, bitmap, accepted, rejected);
        n := n + 1;
      }
      assert items[..n] == items;
    }

    /** Judges item `n` and records the outcome. */
    method MergeItem(ghost ev: seq<Event>, items: seq<Header>, arenaId: nat, generation: U64, n: nat, position: nat,
                     statuses: array<Status>, bitmap: array<bv8>, accepted: nat, rejected: nat)
      returns (next: nat, accepted': nat, rejected': nat)
      requires n < |items| <= statuses.Length && |items| <= 8 * bitmap.Length && Separate(statuses, bitmap)
      requires count == |ev| <= pending.Length && Increasing(items) && Sorted(ev)
      requires NotPast(ev, position, items[n].sequence)
      requires Events() == Submitted(ev, items[..n], arenaId, generation)
      requires Told(ev, items, arenaId, generation, n, statuses[..], bitmap[..], accepted, rejected)
      modifies pending, statuses, bitmap
      ensures n + 1 < |items| ==> NotPast(ev, next, items[n + 1].sequence)
      ensures Events() == Submitted(ev, items[..n + 1], arenaId, generation)
      ensures Told(ev, items, arenaId, generation, n + 1, statuses[..], bitmap[..], accepted', rejected')
    {
      var status;
      status, next := Judge(ev, items, n, position, arenaId, generation);
      accepted', rejected' := Record(ev, items, arenaId, generation, n, status, statuses, bitmap, accepted, rejected);
    }

    /** Judges item `n` at the merge position and moves that position past every event below the item. */
    method Judge(ghost ev: seq<Event>, items: seq<Header>, n: nat, position: nat, arenaId: nat, generation: U64)
      returns (status: Status, next: nat)
      requires n < |items| && count == |ev| <= pending.Length && Increasing(items) && Sorted(ev)
      requires Events() == Submitted(ev, items[..n], arenaId, generation)
      requires NotPast(ev, position, items[n].sequence)
      modifies pending
      ensures Events() == Submitted(ev, items[..n + 1], arenaId, generation)
      ensures status == ItemStatus(ev, items[n], arenaId, generation)
      ensures n + 1 < |items| ==> NotPast(ev, next, items[n + 1].sequence)
    {
      var h := items[n];
      next := position;
      ghost var before := Events();
      while next < count && pending[next].header.sequence < h.sequence
        invariant NotPast(ev, next, h.sequence)
      {
        assert pending[next].header == before[next].header == ev[next].header;
        next := next + 1;
      }
      assert next < count ==> pending[next].header == before[next].header == ev[next].header;
      SubmitOne(ev, items, n, next, arenaId, generation);
      status := INVALID_ARGUMENT;
      if next < count && pending[next].header.sequence == h.sequence {
        assert pending[next] == before[next] == ev[next];
        status := StatusOf(pending[next], h, arenaId, generation);
        if status == OK {
          pending[next] := pending[next].(accepted := true);
          assert Events() == before[next := ev[next].(accepted := true)];
        }
        next := next + 1;
      }
    }

    /** Clears the bytes that hold the first `total` flags. */
    method ClearBits(bitmap: array<bv8>, total: nat)
      requires total <= 8 * bitmap.Length
      modifies bitmap
      ensures forall i: nat :: i < total ==> !Flag(bitmap[..], i)
    {
      var required := total / 8 + (if total % 8 != 0 then 1 else 0);
      for i := 0 to required
        invariant forall k :: 0 <= k < i ==> bitmap[k] == 0
      {
        bitmap[i] := 0;
      }
    }

    /** Writes the outcome of item `n` to the caller's buffers. */
    method Record(ghost ev: seq<Event>, items: seq<Header>, ghost arenaId: nat, ghost generation: U64, n: nat,
                  status: Status, statuses: array<Status>, bitmap: array<bv8>, accepted: nat, rejected: nat)
      returns (accepted': nat, rejected': nat)
      requires n < |items| <= statuses.Length && |items| <= 8 * bitmap.Length && Separate(statuses, bitmap)
      requires status == ItemStatus(ev, items[n], arenaId, generation)
      requires Told(ev, items, arenaId, generation, n, statuses[..], bitmap[..], accepted, rejected)
      modifies statuses, bitmap
      ensures Told(ev, items, arenaId, generation, n + 1, statuses[..], bitmap[..], accepted', rejected')
    {
      ghost var before, bytes := statuses[..], bitmap[..];
      statuses[n] := status;
      assert statuses[..] == before[n := status] && bitmap[..] == bytes;
      if status == OK {
        SetBitOf(n, bitmap, |items|);
        accepted', rejected' := accepted + 1, rejected;
      } else {
        accepted', rejected' := accepted, rejected + 1;
      }
      ToldOneMore(ev, items, arenaId, generation, n, status, before, statuses[..], bytes, bitmap[..], accepted,
                  rejected);
    }

    method SetBitOf(n: nat, bitmap: array<bv8>, total: nat)
      requires n < total <= 8 * bitmap.Length
      modifies bitmap
      ensures forall i: nat :: i < total ==> (Flag(bitmap[..], i) <==> old(Flag(bitmap[..], i)) || i == n)
    {
      ghost var bytes := bitmap[..];
      bitmap[n / 8] := bitmap[n / 8] | Mask(n % 8);
      assert bitmap[..] == bytes[n / 8 := bytes[n / 8] | Mask(n % 8)];
      forall i: nat | i < total ensures Flag(bitmap[..], i) <==> i == n || Flag(bytes, i) {
        SetFlag(bytes, n, i);
      }
    }

    method RaisedWatermark(watermark: U64) returns (raised: U64)
      requires count <= pending.Length
      ensures raised == Watermark(Events(), 0, watermark)
    {
      raised := watermark;
      var i: nat := 0;
      while i < count && pending[i].accepted
        invariant i <= count
        invariant Watermark(Events(), i, raised) == Watermark(Events(), 0, watermark)
      {
        assert pending[i] == Events()[i];
        if pending[i].header.sequence > raised {
          raised := pending[i].header.sequence;
        }
        i := i + 1;
      }
    }

    /** Acknowledgement of a lease: marks its accepted events and moves the rest of the queue to the front. */
    method Acknowledge(arenaId: nat, first: U64, last: U64)
      requires Valid()
      modifies this, pending
      ensures Valid()
      ensures Events() == Remaining(old(Events()), arenaId, first, last)
    {
      AcknowledgeKeeps(Events(), cursor, arenaId, first, last);
      ghost var marked := Acknowledged(Events(), arenaId, first, last);
      MarkAcknowledged(arenaId, first, last);
      var consumed: nat := 0;
      while consumed < count && pending[consumed].acknowledged
        invariant consumed <= count
        invariant forall k :: 0 <= k < consumed ==> marked[k].acknowledged
      {
        assert pending[consumed] == Events()[consumed];
        consumed := consumed + 1;
      }
      assert consumed < count ==> pending[consumed] == Events()[consumed];
      LeadingIs(marked, consumed);
      if consumed != 0 {
        Shift(consumed);
      }
    }

    method MarkAcknowledged(arenaId: nat, first: U64, last: U64)
      requires count <= pending.Length
      modifies pending
      ensures Events() == Acknowledged(old(Events()), arenaId, first, last)
    {
      ghost var ev := Events();
      ghost var marked := Acknowledged(ev, arenaId, first, last);
      var i: nat := 0;
      while i < count
        invariant i <= count
        invariant forall k :: 0 <= k < i ==> pending[k] == marked[k]
        invariant forall k :: i <= k < count ==> pending[k] == ev[k]
      {
        if pending[i].accepted && !pending[i].acknowledged && pending[i].arenaId == arenaId
           && pending[i].header.sequence >= first && pending[i].header.sequence <= last {
          pending[i] := pending[i].(acknowledged := true);
        }
        i := i + 1;
      }
    }

    method Shift(consumed: nat)
      requires 0 < consumed <= count <= pending.Length
      modifies this, pending
      ensures count == old(count) - consumed && Events() == old(Events())[consumed..]
      ensures cursor == if old(cursor) >= consumed then old(cursor) - consumed else 0
    {
      forall k | 0 <= k < count - consumed {
        pending[k] := pending[k + consumed];
      }
      count := count - consumed;
      cursor := if cursor >= consumed then cursor - consumed else 0;
    }
  }

  lemma ToldOneMore(ev: seq<Event>, items: seq<Header>, arenaId: nat, generation: U64, n: nat, status: Status,
                    before: seq<Status>, after: seq<Status>, bits: seq<bv8>, bits': seq<bv8>,
                    accepted: nat, rejected: nat)
    requires n < |items| && Told(ev, items, arenaId, generation, n, before, bits, accepted, rejected)
    requires after == before[n := status] && status == ItemStatus(ev, items[n], arenaId, generation)
    requires |bits'| == |bits|
    requires forall i: nat :: i < |items| ==> (Flag(bits', i) <==> Flag(bits, i) || (i == n && status == OK))
    ensures status == OK ==> Told(ev, items, arenaId, generation, n + 1, after, bits', accepted + 1, rejected)
    ensures status != OK ==> Told(ev, items, arenaId, generation, n + 1, after, bits', accepted, rejected + 1)
  {
    assert after[..n + 1] == before[..n] + [status];
    assert after[..n + 1][..n] == before[..n];
  }

  /** All events before `position` are below `sequence`. */
  ghost predicate NotPast(ev: seq<Event>, position: nat, sequence: U64) {
    position <= |ev| && forall k :: 0 <= k < position ==> ev[k].header.sequence < sequence
  }

  lemma {:induction false} LeadingIs(ev: seq<Event>, n: nat)
    requires n <= |ev| && forall k :: 0 <= k < n ==> ev[k].acknowledged
    requires n < |ev| ==> !ev[n].acknowledged
    ensures LeadingAcknowledged(ev) == n
  {
    if n > 0 {
      LeadingIs(ev[1..], n - 1);
    }
  }
}
