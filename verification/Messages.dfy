/** Merging message lists by id. */
module Messages {
  import opened Basics

  /** `body` stands for role, content, name and tool calls. */
  datatype Message = Message(id: Option<string>, body: string)

  datatype Input = Nothing | One(message: Message) | Many(messages: seq<Message>)

  function Coerced(i: Input): seq<Message> {
    match i
    case Nothing => []
    case One(m) => [m]
    case Many(ms) => ms
  }

  /** Where an id last occurs. */
  function LastIndex(ms: seq<Message>, id: string): (k: Option<nat>)
    ensures k.Some? ==> k.value < |ms| && ms[k.value].id == Some(id)
    ensures k.Some? ==> forall i :: k.value < i < |ms| ==> ms[i].id != Some(id)
    ensures k.None? ==> forall i :: 0 <= i < |ms| ==> ms[i].id != Some(id)
  {
    if |ms| == 0 then None
    else if ms[|ms| - 1].id == Some(id) then Some(|ms| - 1)
    else LastIndex(ms[..|ms| - 1], id)
  }

  /** A message with a known id replaces the last one with that id; any other is appended. */
  function Put(ms: seq<Message>, m: Message): (r: seq<Message>)
    ensures |ms| <= |r| <= |ms| + 1
  {
    if m.id.Some? && LastIndex(ms, m.id.value).Some? then ms[LastIndex(ms, m.id.value).value := m] else ms + [m]
  }

  function Merged(left: seq<Message>, right: seq<Message>): seq<Message> {
    if |right| == 0 then left else Put(Merged(left, right[..|right| - 1]), right[|right| - 1])
  }

  ghost predicate Indexes(index: map<string, nat>, ms: seq<Message>) {
    && (forall id :: id in index ==> LastIndex(ms, id) == Some(index[id]))
    && (forall id :: id !in index ==> LastIndex(ms, id) == None)
  }

  lemma IndexGrows(index: map<string, nat>, ms: seq<Message>, m: Message)
    requires Indexes(index, ms)
    ensures Indexes(if m.id.Some? then index[m.id.value := |ms|] else index, ms + [m])
  {
    assert (ms + [m])[..|ms|] == ms;
  }

  lemma LastIndexIs(ms: seq<Message>, id: string, k: nat)
    requires k < |ms| && ms[k].id == Some(id) && forall i :: k < i < |ms| ==> ms[i].id != Some(id)
    ensures LastIndex(ms, id) == Some(k)
  {
  }

  /** Replacing a message by one of the same id moves no id. */
  lemma SameIdsSameIndex(ms: seq<Message>, k: nat, m: Message, id: string)
    requires k < |ms| && ms[k].id == m.id
    ensures LastIndex(ms[k := m], id) == LastIndex(ms, id)
  {
    var r := ms[k := m];
    assert forall i :: 0 <= i < |ms| ==> r[i].id == ms[i].id;
    match LastIndex(ms, id)
    case Some(j) => LastIndexIs(r, id, j);
    case None =>
  }

  lemma IndexStays(index: map<string, nat>, ms: seq<Message>, k: nat, m: Message)
    requires Indexes(index, ms) && k < |ms| && ms[k].id == m.id
    ensures Indexes(index, ms[k := m])
  {
    forall id ensures LastIndex(ms[k := m], id) == LastIndex(ms, id) {
      SameIdsSameIndex(ms, k, m, id);
    }
  }

  method AddMessages(left: Input, right: Input) returns (merged: seq<Message>)
    ensures merged == Merged(Coerced(left), Coerced(right))
  {
    merged := Coerced(left);
    var index: map<string, nat> := map[];
    for i := 0 to |merged|
      invariant Indexes(index, merged[..i])
    {
      IndexGrows(index, merged[..i], merged[i]);
      assert merged[..i + 1] == merged[..i] + [merged[i]];
      if merged[i].id.Some? {
        index := index[merged[i].id.value := i];
      }
    }
    assert merged[..|merged|] == merged;
    var news := Coerced(right);
    for i := 0 to |news|
      invariant merged == Merged(Coerced(left), news[..i]) && Indexes(index, merged)
    {
      var m := news[i];
      assert news[..i + 1][..i] == news[..i];
      if m.id.Some? && m.id.value in index {
        var k := index[m.id.value];
        IndexStays(index, merged, k, m);
        merged := merged[k := m];
      } else {
        IndexGrows(index, merged, m);
        if m.id.Some? {
          index := index[m.id.value := |merged|];
        }
        merged := merged + [m];
      }
    }
    assert news[..|news|] == news;
  }

  // ---------- associativity ----------

  lemma {:induction false} MergedJoin(left: seq<Message>, a: seq<Message>, b: seq<Message>)
    ensures Merged(left, a + b) == Merged(Merged(left, a), b)
  {
    if |b| == 0 {
      assert a + b == a;
    } else {
      assert (a + b)[..|a + b| - 1] == a + b[..|b| - 1];
      MergedJoin(left, a, b[..|b| - 1]);
    }
  }

  /** Of two messages with the same id put one after the other, the second remains, in the first one's place. */
  lemma PutTwice(ms: seq<Message>, m: Message, n: Message)
    requires m.id.Some? && m.id == n.id
    ensures Put(Put(ms, m), n) == Put(ms, n)
  {
    match LastIndex(ms, m.id.value)
    case Some(k) => SameIdsSameIndex(ms, k, m, m.id.value);
    case None => LastIndexIs(ms + [m], m.id.value, |ms|);
  }

  /** Replacing the message of one id commutes with putting a message of another. */
  lemma PutCommutes(ms: seq<Message>, m: Message, e: Message)
    requires m.id.Some? && LastIndex(ms, m.id.value).Some? && e.id != m.id
    ensures Put(Put(ms, m), e) == Put(Put(ms, e), m)
    ensures LastIndex(Put(ms, e), m.id.value).Some?
  {
    var k := LastIndex(ms, m.id.value).value;
    if e.id.Some? {
      SameIdsSameIndex(ms, k, m, e.id.value);
    }
    if e.id.Some? && LastIndex(ms, e.id.value).Some? {
      SameIdsSameIndex(ms, LastIndex(ms, e.id.value).value, e, m.id.value);
    } else {
      LastIndexIs(ms + [e], m.id.value, k);
    }
  }

  lemma {:induction false} MergeCommutes(ms: seq<Message>, m: Message, rest: seq<Message>)
    requires m.id.Some? && LastIndex(ms, m.id.value).Some?
    requires forall i :: 0 <= i < |rest| ==> rest[i].id != m.id
    ensures Merged(Put(ms, m), rest) == Put(Merged(ms, rest), m)
    ensures LastIndex(Merged(ms, rest), m.id.value).Some?
  {
    if |rest| > 0 {
      var n := |rest| - 1;
      MergeCommutes(ms, m, rest[..n]);
      PutCommutes(Merged(ms, rest[..n]), m, rest[n]);
    }
  }

  /** Merging a list with one more message is merging the list and then the message. */
  lemma MergePut(a: seq<Message>, b: seq<Message>, m: Message)
    ensures Merged(a, Put(b, m)) == Put(Merged(a, b), m)
  {
    if m.id.Some? && LastIndex(b, m.id.value).Some? {
      var k := LastIndex(b, m.id.value).value;
      var start, rest := b[..k], b[k + 1..];
      var p := Merged(a, start);
      assert b == start + [b[k]] + rest && Put(b, m) == start + [m] + rest;
      MergedJoin(a, start + [b[k]], rest);
      MergedJoin(a, start + [m], rest);
      MergedJoin(a, start, [b[k]]);
      MergedJoin(a, start, [m]);
      MergedOne(p, b[k]);
      MergedOne(p, m);
      PutTwice(p, b[k], m);
      PutKeepsId(p, b[k]);
      MergeCommutes(Put(p, b[k]), m, rest);
    } else {
      assert (b + [m])[..|b|] == b;
    }
  }

  lemma MergedOne(ms: seq<Message>, m: Message)
    ensures Merged(ms, [m]) == Put(ms, m)
  {
    assert [m][..0] == [];
  }

  lemma PutKeepsId(ms: seq<Message>, m: Message)
    requires m.id.Some?
    ensures LastIndex(Put(ms, m), m.id.value).Some?
  {
    match LastIndex(ms, m.id.value)
    case Some(k) => SameIdsSameIndex(ms, k, m, m.id.value);
    case None => LastIndexIs(ms + [m], m.id.value, |ms|);
  }

  /** Merging is associative on all lists, whatever ids they repeat or lack. */
  lemma {:induction false} MergeIsAssociative(a: seq<Message>, b: seq<Message>, c: seq<Message>)
    ensures Merged(Merged(a, b), c) == Merged(a, Merged(b, c))
  {
    if |c| > 0 {
      var n := |c| - 1;
      MergeIsAssociative(a, b, c[..n]);
      MergePut(a, Merged(b, c[..n]), c[n]);
    }
  }

  // ---------- identity ----------

  ghost predicate UniqueIds(ms: seq<Message>) {
    forall i, j :: 0 <= i < j < |ms| && ms[i].id.Some? ==> ms[i].id != ms[j].id
  }

  lemma {:induction false} MergedLength(left: seq<Message>, right: seq<Message>)
    ensures |left| <= |Merged(left, right)| <= |left| + |right|
  {
    if |right| > 0 {
      MergedLength(left, right[..|right| - 1]);
    }
  }

  /** The empty list is a right identity, and a left identity exactly on lists that repeat no id. */
  lemma {:induction false} EmptyIsIdentityIff(ms: seq<Message>)
    ensures Merged(ms, []) == ms
    ensures Merged([], ms) == ms <==> UniqueIds(ms)
  {
    if |ms| > 0 {
      var n := |ms| - 1;
      var start := ms[..n];
      EmptyIsIdentityIff(start);
      MergedLength([], start);
      assert start + [ms[n]] == ms;
      if Merged([], ms) == ms {
        assert |Merged([], start)| == n;
        assert Merged([], start) == start;
      }
    }
  }

  /** If the left list repeats no id, neither does the merged one; and no id is lost or invented. */
  lemma {:induction false} MergedIds(left: seq<Message>, right: seq<Message>, id: string)
    ensures UniqueIds(left) ==> UniqueIds(Merged(left, right))
    ensures LastIndex(Merged(left, right), id).Some? <==> LastIndex(left, id).Some? || LastIndex(right, id).Some?
  {
    if |right| > 0 {
      var n := |right| - 1;
      MergedIds(left, right[..n], id);
      PutIds(Merged(left, right[..n]), right[n], id);
      assert LastIndex(right, id).Some? <==> LastIndex(right[..n], id).Some? || right[n].id == Some(id);
    }
  }

  lemma PutIds(ms: seq<Message>, m: Message, id: string)
    ensures UniqueIds(ms) ==> UniqueIds(Put(ms, m))
    ensures LastIndex(Put(ms, m), id).Some? <==> LastIndex(ms, id).Some? || m.id == Some(id)
  {
    if m.id.Some? && LastIndex(ms, m.id.value).Some? {
      SameIdsSameIndex(ms, LastIndex(ms, m.id.value).value, m, id);
    } else {
      assert (ms + [m])[..|ms|] == ms;
    }
  }
}
