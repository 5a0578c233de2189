/** What a merge of message lists keeps: the latest message of every id, and everything else where it was. */
module MessageContents {
  import opened Basics
  import opened Messages

  /** Of every id the merged list has, last, the last message of the right list, or of the left one if the right list
      does not have it. */
  lemma {:induction false} MergedLatest(left: seq<Message>, right: seq<Message>, id: string)
    requires LastIndex(Merged(left, right), id).Some?
    ensures match LastIndex(right, id)
            case Some(k) => IsLatest(Merged(left, right), id, right[k])
            case None => LastIndex(left, id).Some?
                         && IsLatest(Merged(left, right), id, left[LastIndex(left, id).value])
  {
    if |right| > 0 {
      var n := |right| - 1;
      var before := Merged(left, right[..n]);
      PutLatest(before, right[n], id);
      PutIds(before, right[n], id);
      if right[n].id != Some(id) {
        MergedLatest(left, right[..n], id);
      }
    }
  }

  /** `m` is the last message of that id. */
  ghost predicate IsLatest(ms: seq<Message>, id: string, m: Message) {
    LastIndex(ms, id).Some? && ms[LastIndex(ms, id).value] == m
  }

  lemma PutLatest(ms: seq<Message>, m: Message, id: string)
    ensures m.id == Some(id) ==> IsLatest(Put(ms, m), id, m)
    ensures m.id != Some(id) ==> forall n :: IsLatest(ms, id, n) <==> IsLatest(Put(ms, m), id, n)
  {
    if m.id.Some? && LastIndex(ms, m.id.value).Some? {
      SameIdsSameIndex(ms, LastIndex(ms, m.id.value).value, m, id);
    } else {
      assert (ms + [m])[..|ms|] == ms;
    }
  }

  /** No message moves; and one stays as it was unless it is the last of its id and the right list has that id. */
  lemma {:induction false} MergedKeeps(left: seq<Message>, right: seq<Message>, i: nat)
    requires i < |left|
    ensures |left| <= |Merged(left, right)| && Merged(left, right)[i].id == left[i].id
    ensures left[i].id.None? || LastIndex(right, left[i].id.value).None? || LastIndex(left, left[i].id.value) != Some(i)
            ==> Merged(left, right)[i] == left[i]
  {
    if |right| > 0 {
      var n := |right| - 1;
      MergedKeeps(left, right[..n], i);
      if left[i].id.Some? && LastIndex(left, left[i].id.value) != Some(i) {
        EarlierStays(left, right[..n], i, left[i].id.value);
      }
    }
  }

  /** An earlier message of an id stays an earlier one. */
  lemma {:induction false} EarlierStays(left: seq<Message>, right: seq<Message>, i: nat, id: string)
    requires i < |left| && left[i].id == Some(id) && LastIndex(left, id) != Some(i)
    ensures HasLater(Merged(left, right), i, id)
  {
    if |right| > 0 {
      EarlierStays(left, right[..|right| - 1], i, id);
      PutKeepsLater(Merged(left, right[..|right| - 1]), right[|right| - 1], i, id);
    }
  }

  ghost predicate HasLater(ms: seq<Message>, i: nat, id: string) {
    LastIndex(ms, id).Some? && LastIndex(ms, id).value > i
  }

  lemma PutKeepsLater(ms: seq<Message>, m: Message, i: nat, id: string)
    requires HasLater(ms, i, id)
    ensures HasLater(Put(ms, m), i, id)
  {
    if m.id.Some? && LastIndex(ms, m.id.value).Some? {
      SameIdsSameIndex(ms, LastIndex(ms, m.id.value).value, m, id);
    } else {
      assert (ms + [m])[..|ms|] == ms;
    }
  }
}
