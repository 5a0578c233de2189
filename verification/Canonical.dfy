/** Canonical bytes of a semantic value: nested CBOR-style arrays, heads in shortest form, object keys in byte order.
    Strings and keys are given by their UTF-8 bytes. */
module Canonical {
  import opened Basics
  import opened BitArithmetic

  type Text = seq<Byte>

  /** A parsed JSON document. A floating-point number is only ever refused, so its value is left out. */
  datatype Value =
    | Null
    | Bool(b: bool)
    | Int(n: int)
    | Float
    | Str(text: Text)
    | Arr(items: seq<Value>)
    | Obj(fields: seq<Field>)

  datatype Field = Field(key: Text, value: Value)

  /** What a parsed document can be: 64-bit integers, lengths that fit a machine word, and no key twice in an object. */
  ghost predicate Document(v: Value) {
    match v
    case Null => true
    case Bool(_) => true
    case Int(n) => -0x8000_0000_0000_0000 <= n < WORD
    case Float => true
    case Str(text) => |text| < WORD
    case Arr(items) => |items| < WORD && forall i :: 0 <= i < |items| ==> Document(items[i])
    case Obj(fields) =>
      |fields| < WORD && UniqueKeys(fields)
      && forall i :: 0 <= i < |fields| ==> |fields[i].key| < WORD && Document(fields[i].value)
  }

  ghost predicate UniqueKeys(fields: seq<Field>) {
    forall i, j :: 0 <= i < j < |fields| ==> fields[i].key != fields[j].key
  }

  /** No floating-point number occurs anywhere. */
  predicate Integral(v: Value) {
    match v
    case Float => false
    case Arr(items) => forall i :: 0 <= i < |items| ==> Integral(items[i])
    case Obj(fields) => forall i :: 0 <= i < |fields| ==> Integral(fields[i].value)
    case _ => true
  }

  /** Equal up to the order in which the fields of objects are listed. */
  ghost predicate Same(a: Value, b: Value) {
    match (a, b)
    case (Arr(xs), Arr(ys)) => |xs| == |ys| && forall i :: 0 <= i < |xs| ==> Same(xs[i], ys[i])
    case (Obj(fs), Obj(gs)) =>
      |fs| == |gs|
      && forall i :: 0 <= i < |fs| ==>
           exists j :: 0 <= j < |gs| && fs[i].key == gs[j].key && Same(fs[i].value, gs[j].value)
    case _ => a == b
  }

  // ---------- heads ----------

  /** The last `width` bytes of a number, most significant first. */
  function BigEndian(n: nat, width: nat): (b: seq<Byte>)
    ensures |b| == width
  {
    if width == 0 then [] else BigEndian(n / 256, width - 1) + [n % 256]
  }

  /** How many bytes follow the first byte of a head. */
  function Width(n: nat): nat {
    if n < 24 then 0 else if n < 0x100 then 1 else if n < 0x1_0000 then 2 else if n < 0x1_0000_0000 then 4 else 8
  }

  function Info(n: nat): (i: nat)
    ensures i < 28
  {
    if n < 24 then n else if n < 0x100 then 24 else if n < 0x1_0000 then 25 else if n < 0x1_0000_0000 then 26 else 27
  }

  function Head(major: nat, n: nat): (b: seq<Byte>)
    requires major < 8
    ensures |b| == 1 + Width(n)
  {
    [major * 32 + Info(n)] + BigEndian(n, Width(n))
  }

  lemma {:induction false} BigEndianBinds(n: nat, m: nat, width: nat)
    requires n < Pow(256, width) && m < Pow(256, width) && BigEndian(n, width) == BigEndian(m, width)
    ensures n == m
  {
    if width > 0 {
      var a, b := BigEndian(n / 256, width - 1), BigEndian(m / 256, width - 1);
      assert a == (a + [n % 256])[..width - 1] && b == (b + [m % 256])[..width - 1];
      assert n % 256 == (a + [n % 256])[width - 1] == (b + [m % 256])[width - 1] == m % 256;
      BigEndianBinds(n / 256, m / 256, width - 1);
    }
  }

  lemma FitsWidth(n: nat)
    requires n < WORD
    ensures Width(n) > 0 ==> n < Pow(256, Width(n))
  {
    assert Pow(256, 2) == 0x1_0000;
    assert Pow(256, 4) == 0x1_0000_0000;
    assert Pow(256, 8) == WORD;
  }

  /** A head can be read back from the front of any bytes, in one way only. */
  lemma HeadBinds(major: nat, n: nat, rest: seq<Byte>, major': nat, n': nat, rest': seq<Byte>)
    requires major < 8 && major' < 8 && n < WORD && n' < WORD
    requires Head(major, n) + rest == Head(major', n') + rest'
    ensures major == major' && n == n' && rest == rest'
  {
    var a, b := Head(major, n) + rest, Head(major', n') + rest';
    assert a[0] == major * 32 + Info(n) && b[0] == major' * 32 + Info(n');
    assert Info(n) == Info(n') && Width(n) == Width(n');
    var w := Width(n);
    assert a[1..1 + w] == BigEndian(n, w) && b[1..1 + w] == BigEndian(n', w);
    assert a[1 + w..] == rest && b[1 + w..] == rest';
    if w > 0 {
      FitsWidth(n);
      FitsWidth(n');
      BigEndianBinds(n, n', w);
    }
  }

  /** No head of fewer bytes can hold the number. */
  lemma HeadIsShortest(n: nat, width: nat)
    requires n < WORD && width in {0, 1, 2, 4, 8}
    requires if width == 0 then n < 24 else n < Pow(256, width)
    ensures Width(n) <= width
  {
    assert Pow(256, 2) == 0x1_0000;
    assert Pow(256, 4) == 0x1_0000_0000;
  }

  function ByteString(text: Text): seq<Byte> {
    Head(2, |text|) + text
  }

  lemma ByteStringBinds(a: Text, rest: seq<Byte>, b: Text, rest': seq<Byte>)
    requires |a| < WORD && |b| < WORD && ByteString(a) + rest == ByteString(b) + rest'
    ensures a == b && rest == rest'
  {
    assert ByteString(a) + rest == Head(2, |a|) + (a + rest);
    assert ByteString(b) + rest' == Head(2, |b|) + (b + rest');
    HeadBinds(2, |a|, a + rest, 2, |b|, b + rest');
    assert a == (a + rest)[..|a|] && b == (b + rest')[..|b|];
    assert rest == (a + rest)[|a|..] && rest' == (b + rest')[|b|..];
  }

  // ---------- key order ----------

  /** Byte order of texts; a proper prefix comes first. */
  predicate Less(a: Text, b: Text) {
    if |b| == 0 then false
    else if |a| == 0 then true
    else a[0] < b[0] || (a[0] == b[0] && Less(a[1..], b[1..]))
  }

  lemma {:induction false} LessTransitive(a: Text, b: Text, c: Text)
    requires Less(a, b) && Less(b, c)
    ensures Less(a, c)
  {
    if |a| > 0 && a[0] == b[0] && b[0] == c[0] {
      LessTransitive(a[1..], b[1..], c[1..]);
    }
  }

  lemma {:induction false} LessTotal(a: Text, b: Text)
    ensures a == b || Less(a, b) || Less(b, a)
    ensures !(Less(a, b) && Less(b, a)) && !Less(a, a)
  {
    if |a| > 0 && |b| > 0 {
      LessTotal(a[1..], b[1..]);
      assert a == [a[0]] + a[1..] && b == [b[0]] + b[1..];
    }
    if |a| > 0 {
      LessIrreflexive(a);
    }
  }

  lemma {:induction false} LessIrreflexive(a: Text)
    ensures !Less(a, a)
  {
    if |a| > 0 {
      LessIrreflexive(a[1..]);
    }
  }

  function Insert(f: Field, fields: seq<Field>): seq<Field> {
    if |fields| == 0 || !Less(fields[0].key, f.key) then [f] + fields else [fields[0]] + Insert(f, fields[1..])
  }

  /** The fields in key order. */
  function SortFields(fields: seq<Field>): seq<Field> {
    if |fields| == 0 then [] else Insert(fields[0], SortFields(fields[1..]))
  }

  lemma {:induction false} InsertAdds(f: Field, fields: seq<Field>)
    ensures multiset(Insert(f, fields)) == multiset(fields) + multiset{f}
  {
    if |fields| > 0 && Less(fields[0].key, f.key) {
      InsertAdds(f, fields[1..]);
      assert fields == [fields[0]] + fields[1..];
    }
  }

  lemma {:induction false} SortPermutes(fields: seq<Field>)
    ensures multiset(SortFields(fields)) == multiset(fields)
  {
    if |fields| > 0 {
      SortPermutes(fields[1..]);
      InsertAdds(fields[0], SortFields(fields[1..]));
      assert fields == [fields[0]] + fields[1..];
    }
  }

  ghost predicate Ordered(fields: seq<Field>) {
    forall i, j :: 0 <= i < j < |fields| ==> Less(fields[i].key, fields[j].key)
  }

  lemma {:induction false} InsertKeepsOrder(f: Field, fields: seq<Field>)
    requires Ordered(fields) && forall i :: 0 <= i < |fields| ==> fields[i].key != f.key
    ensures Ordered(Insert(f, fields))
  {
    if |fields| == 0 || !Less(fields[0].key, f.key) {
      forall i | 0 <= i < |fields| ensures Less(f.key, fields[i].key) {
        LessTotal(f.key, fields[0].key);
        if i > 0 {
          LessTransitive(f.key, fields[0].key, fields[i].key);
        }
      }
    } else {
      var rest := Insert(f, fields[1..]);
      InsertKeepsOrder(f, fields[1..]);
      InsertAdds(f, fields[1..]);
      forall j | 0 <= j < |rest| ensures Less(fields[0].key, rest[j].key) {
        assert rest[j] in multiset(rest);
        assert rest[j] in multiset(fields[1..]) || rest[j] == f;
      }
    }
  }

  lemma {:induction false} SortedIsOrdered(fields: seq<Field>)
    requires UniqueKeys(fields)
    ensures Ordered(SortFields(fields))
  {
    if |fields| > 0 {
      SortedIsOrdered(fields[1..]);
      var rest := SortFields(fields[1..]);
      forall i | 0 <= i < |rest| ensures rest[i].key != fields[0].key {
        var k := Unsorted(fields[1..], i);
        assert fields[k + 1].key != fields[0].key;
      }
      InsertKeepsOrder(fields[0], rest);
    }
  }

  lemma SortedLength(fields: seq<Field>)
    ensures |SortFields(fields)| == |fields|
  {
    SortPermutes(fields);
    assert |multiset(SortFields(fields))| == |multiset(fields)|;
  }

  /** Where a sorted field was before sorting. */
  lemma Unsorted(fields: seq<Field>, i: nat) returns (k: nat)
    requires i < |SortFields(fields)|
    ensures k < |fields| && fields[k] == SortFields(fields)[i]
  {
    SortPermutes(fields);
    assert SortFields(fields)[i] in multiset(SortFields(fields));
    assert SortFields(fields)[i] in fields;
    k :| k < |fields| && fields[k] == SortFields(fields)[i];
  }

  /** Where a field is after sorting. */
  lemma AfterSorting(fields: seq<Field>, i: nat) returns (k: nat)
    requires i < |fields|
    ensures k < |SortFields(fields)| && SortFields(fields)[k] == fields[i]
  {
    SortPermutes(fields);
    assert fields[i] in multiset(fields);
    assert fields[i] in SortFields(fields);
    k :| k < |SortFields(fields)| && SortFields(fields)[k] == fields[i];
  }

  // ---------- encoding ----------

  function Tag(v: Value): (t: nat)
    ensures t < 24
  {
    match v
    case Null => 0
    case Bool(_) => 1
    case Int(_) => 2
    case Float => 2
    case Str(_) => 3
    case Arr(_) => 4
    case Obj(_) => 5
  }

  function Arity(v: Value): (n: nat)
    ensures n < 24
  {
    match v
    case Null => 1
    case Int(_) => 3
    case Float => 3
    case _ => 2
  }

  function Encoded(v: Value): seq<Byte>
    requires Integral(v)
    decreases v, 3, 0
  {
    Head(4, Arity(v)) + (Head(0, Tag(v)) + Payload(v))
  }

  function Magnitude(n: int): nat {
    if n < 0 then -n else n
  }

  function Payload(v: Value): seq<Byte>
    requires Integral(v)
    decreases v, 2, 0
  {
    match v
    case Null => []
    case Bool(b) => Head(0, if b then 1 else 0)
    case Int(n) => Head(0, if n < 0 then 1 else 0) + Head(0, Magnitude(n))
    case Str(text) => ByteString(text)
    case Arr(items) => Head(4, |items|) + ItemBytes(items)
    case Obj(fields) =>
      SortedWithin(fields);
      Head(4, |fields|) + FieldBytes(SortFields(fields), v)
  }

  function ItemBytes(items: seq<Value>): seq<Byte>
    requires forall i :: 0 <= i < |items| ==> Integral(items[i])
    decreases items, 0, 0
  {
    if |items| == 0 then [] else ItemBytes(items[..|items| - 1]) + Encoded(items[|items| - 1])
  }

  /** The fields lie inside the object `v`. */
  ghost predicate Within(fields: seq<Field>, v: Value) {
    forall i :: 0 <= i < |fields| ==> fields[i].value < v && Integral(fields[i].value)
  }

  function FieldBytes(fields: seq<Field>, ghost v: Value): seq<Byte>
    requires Within(fields, v)
    decreases v, 1, |fields|
  {
    if |fields| == 0 then [] else FieldBytes(fields[..|fields| - 1], v) + EntryBytes(fields[|fields| - 1], v)
  }

  function EntryBytes(f: Field, ghost v: Value): seq<Byte>
    requires f.value < v && Integral(f.value)
    decreases v, 0, 0
  {
    Head(4, 2) + (ByteString(f.key) + Encoded(f.value))
  }

  lemma SortedWithin(fields: seq<Field>)
    requires Integral(Obj(fields))
    ensures Within(SortFields(fields), Obj(fields))
  {
    SortedInside(fields);
    IntegralInOrder(fields);
  }

  // ---------- the encoder ----------

  class ByteVec {
    var data: seq<Byte>

    constructor ()
      ensures data == []
    {
      data := [];
    }

    method Push(b: Byte)
      modifies this
      ensures data == old(data) + [b]
    {
      data := data + [b];
    }

    method Extend(b: seq<Byte>)
      modifies this
      ensures data == old(data) + b
    {
      data := data + b;
    }
  }

  method WriteHead(out: ByteVec, major: nat, n: nat)
    requires major < 8 && n < WORD
    modifies out
    ensures out.data == old(out.data) + Head(major, n)
  {
    var prefix := major * 32;
    if n <= 23 {
      out.Push(prefix + n);
    } else if n <= 0xff {
      out.Extend([prefix + 24, n]);
      assert BigEndian(n, 1) == [n];
    } else if n <= 0xffff {
      out.Push(prefix + 25);
      out.Extend(BigEndian(n, 2));
    } else if n <= 0xffff_ffff {
      out.Push(prefix + 26);
      out.Extend(BigEndian(n, 4));
    } else {
      out.Push(prefix + 27);
      out.Extend(BigEndian(n, 8));
    }
  }

  method WriteBytes(out: ByteVec, text: Text)
    requires |text| < WORD
    modifies out
    ensures out.data == old(out.data) + ByteString(text)
  {
    WriteHead(out, 2, |text|);
    out.Extend(text);
  }

  lemma RegroupAll(a: seq<Byte>, b: seq<Byte>, c: seq<Byte>, d: seq<Byte>)
    ensures a + (b + c) + d == a + (b + (c + d))
  {
  }

  lemma Regroup3(a: seq<Byte>, b: seq<Byte>, c: seq<Byte>)
    ensures a + b + c == a + (b + c)
  {
  }

  lemma Regroup(a: seq<Byte>, b: seq<Byte>, c: seq<Byte>, d: seq<Byte>)
    ensures a + b + c + d == a + (b + (c + d))
  {
  }

  /** Appends the encoding of a value, or fails on the first floating-point number it meets. */
  method Encode(out: ByteVec, v: Value) returns (ok: bool)
    requires Document(v)
    modifies out
    ensures ok <==> Integral(v)
    ensures ok ==> out.data == old(out.data) + Encoded(v)
    decreases v, 2, 0
  {
    ghost var before := out.data;
    WriteHead(out, 4, Arity(v));
    WriteHead(out, 0, Tag(v));
    ok := EncodePayload(out, v);
    if ok {
      Regroup(before, Head(4, Arity(v)), Head(0, Tag(v)), Payload(v));
    }
  }

  method EncodePayload(out: ByteVec, v: Value) returns (ok: bool)
    requires Document(v)
    modifies out
    ensures ok <==> Integral(v)
    ensures ok ==> out.data == old(out.data) + Payload(v)
    decreases v, 1, 1
  {
    ok := true;
    match v
    case Null =>
    case Bool(b) => WriteHead(out, 0, if b then 1 else 0);
    case Int(n) => WriteInt(out, n);
    case Float => ok := false;
    case Str(text) => WriteBytes(out, text);
    case Arr(items) => ok := EncodeArray(out, items);
    case Obj(fields) => ok := EncodeObject(out, fields);
  }

  method WriteInt(out: ByteVec, n: int)
    requires Document(Int(n))
    modifies out
    ensures out.data == old(out.data) + Payload(Int(n))
  {
    ghost var before := out.data;
    if n >= 0 {
      WriteHead(out, 0, 0);
      WriteHead(out, 0, n);
      assert before + Head(0, 0) + Head(0, n) == before + (Head(0, 0) + Head(0, n));
    } else {
      WriteHead(out, 0, 1);
      WriteHead(out, 0, -n);
      assert before + Head(0, 1) + Head(0, -n) == before + (Head(0, 1) + Head(0, -n));
    }
  }

  method EncodeArray(out: ByteVec, items: seq<Value>) returns (ok: bool)
    requires Document(Arr(items))
    modifies out
    ensures ok <==> Integral(Arr(items))
    ensures ok ==> out.data == old(out.data) + Payload(Arr(items))
    decreases Arr(items), 1, 0
  {
    ghost var before := out.data;
    WriteHead(out, 4, |items|);
    ok := EncodeItems(out, items);
    if ok {
      Regroup3(before, Head(4, |items|), ItemBytes(items));
    }
  }

  method EncodeObject(out: ByteVec, fields: seq<Field>) returns (ok: bool)
    requires Document(Obj(fields))
    modifies out
    ensures ok <==> Integral(Obj(fields))
    ensures ok ==> out.data == old(out.data) + Payload(Obj(fields))
    decreases Obj(fields), 1, 0
  {
    ghost var before := out.data;
    WriteHead(out, 4, |fields|);
    ok := EncodeFields(out, fields);
    if ok {
      Regroup3(before, Head(4, |fields|), FieldBytes(SortFields(fields), Obj(fields)));
    }
  }

  method EncodeItems(out: ByteVec, items: seq<Value>) returns (ok: bool)
    requires Document(Arr(items))
    modifies out
    ensures ok <==> Integral(Arr(items))
    ensures ok ==> out.data == old(out.data) + ItemBytes(items)
    decreases items, 0, 0
  {
    var n := 0;
    while n < |items|
      invariant 0 <= n <= |items|
      invariant forall i :: 0 <= i < n ==> Integral(items[i])
      invariant out.data == old(out.data) + ItemBytes(items[..n])
    {
      ok := Encode(out, items[n]);
      if !ok {
        return;
      }
      assert items[..n + 1][..n] == items[..n];
      n := n + 1;
    }
    assert items[..n] == items;
    return true;
  }

  method EncodeFields(out: ByteVec, fields: seq<Field>) returns (ok: bool)
    requires Document(Obj(fields))
    modifies out
    ensures ok <==> Integral(Obj(fields))
    ensures ok ==> Within(SortFields(fields), Obj(fields))
    ensures ok ==> out.data == old(out.data) + FieldBytes(SortFields(fields), Obj(fields))
    decreases Obj(fields), 0, 2
  {
    SortedInside(fields);
    SortedDocument(fields);
    ok := EncodeSorted(out, SortFields(fields), Obj(fields));
    IntegralInOrder(fields);
  }

  method EncodeSorted(out: ByteVec, sorted: seq<Field>, ghost v: Value) returns (ok: bool)
    requires FieldDocuments(sorted) && Inside(sorted, v)
    modifies out
    ensures ok <==> AllIntegral(sorted)
    ensures ok ==> Within(sorted, v) && out.data == old(out.data) + FieldBytes(sorted, v)
    decreases v, 0, 1
  {
    ghost var before := out.data;
    var n: nat := 0;
    while n < |sorted|
      invariant n <= |sorted| && Written(before, out.data, sorted, n, v)
    {
      ghost var sofar := out.data;
      ok := EncodeEntry(out, sorted[n], v);
      if !ok {
        return;
      }
      WrittenStep(before, sofar, out.data, sorted, n, v);
      n := n + 1;
    }
    assert sorted[..n] == sorted;
    return true;
  }

  /** `data` is `before` followed by the first `n` fields. */
  ghost predicate Written(before: seq<Byte>, data: seq<Byte>, sorted: seq<Field>, n: nat, v: Value)
    requires n <= |sorted|
  {
    Within(sorted[..n], v) && data == before + FieldBytes(sorted[..n], v)
  }

  lemma WrittenStep(before: seq<Byte>, data: seq<Byte>, data': seq<Byte>, sorted: seq<Field>, n: nat, v: Value)
    requires n < |sorted| && Inside(sorted, v) && Written(before, data, sorted, n, v)
    requires sorted[n].value < v && Integral(sorted[n].value) && data' == data + EntryBytes(sorted[n], v)
    ensures Written(before, data', sorted, n + 1, v)
  {
    assert sorted[..n + 1][..n] == sorted[..n];
    Regroup3(before, FieldBytes(sorted[..n], v), EntryBytes(sorted[n], v));
  }

  ghost predicate AllIntegral(fields: seq<Field>) {
    forall i :: 0 <= i < |fields| ==> Integral(fields[i].value)
  }

  ghost predicate Inside(fields: seq<Field>, v: Value) {
    forall i :: 0 <= i < |fields| ==> fields[i].value < v
  }

  lemma SortedInside(fields: seq<Field>)
    ensures Inside(SortFields(fields), Obj(fields))
  {
    var sorted := SortFields(fields);
    forall i | 0 <= i < |sorted| ensures sorted[i].value < Obj(fields) {
      var k := Unsorted(fields, i);
      assert fields[k] < Obj(fields);
    }
  }

  lemma IntegralInOrder(fields: seq<Field>)
    ensures Integral(Obj(fields)) <==> AllIntegral(SortFields(fields))
  {
    var sorted := SortFields(fields);
    forall i | 0 <= i < |sorted| ensures Integral(Obj(fields)) ==> Integral(sorted[i].value) {
      var k := Unsorted(fields, i);
    }
    forall i | 0 <= i < |fields|
      ensures AllIntegral(sorted) ==> Integral(fields[i].value)
    {
      var k := AfterSorting(fields, i);
    }
  }

  method EncodeEntry(out: ByteVec, f: Field, ghost v: Value) returns (ok: bool)
    requires f.value < v && |f.key| < WORD && Document(f.value)
    modifies out
    ensures ok <==> Integral(f.value)
    ensures ok ==> out.data == old(out.data) + EntryBytes(f, v)
    decreases v, 0, 0
  {
    ghost var before := out.data;
    WriteHead(out, 4, 2);
    WriteBytes(out, f.key);
    ok := Encode(out, f.value);
    if ok {
      Regroup(before, Head(4, 2), ByteString(f.key), Encoded(f.value));
    }
  }

  // ---------- unique decoding ----------

  /** From the front of any bytes at most one value can be read, up to field order. */
  lemma {:induction false} EncodedBinds(a: Value, rest: seq<Byte>, b: Value, rest': seq<Byte>)
    requires Document(a) && Document(b) && Integral(a) && Integral(b)
    requires Encoded(a) + rest == Encoded(b) + rest'
    ensures Same(a, b) && rest == rest'
    decreases a, 3, 0
  {
    RegroupAll(Head(4, Arity(a)), Head(0, Tag(a)), Payload(a), rest);
    RegroupAll(Head(4, Arity(b)), Head(0, Tag(b)), Payload(b), rest');
    HeadBinds(4, Arity(a), Head(0, Tag(a)) + (Payload(a) + rest), 4, Arity(b), Head(0, Tag(b)) + (Payload(b) + rest'));
    HeadBinds(0, Tag(a), Payload(a) + rest, 0, Tag(b), Payload(b) + rest');
    PayloadBinds(a, rest, b, rest');
  }

  lemma {:induction false} PayloadBinds(a: Value, rest: seq<Byte>, b: Value, rest': seq<Byte>)
    requires Document(a) && Document(b) && Integral(a) && Integral(b) && Tag(a) == Tag(b)
    requires Payload(a) + rest == Payload(b) + rest'
    ensures Same(a, b) && rest == rest'
    decreases a, 2, 0
  {
    match a
    case Null =>
      assert Payload(a) + rest == rest && Payload(b) + rest' == rest';
    case Bool(x) => BoolBinds(x, rest, b.b, rest');
    case Int(n) => IntBinds(n, rest, b.n, rest');
    case Str(text) => ByteStringBinds(text, rest, b.text, rest');
    case Arr(items) => ArrayBinds(items, rest, b.items, rest');
    case Obj(fields) => ObjectBinds(fields, rest, b.fields, rest');
  }

  lemma BoolBinds(x: bool, rest: seq<Byte>, y: bool, rest': seq<Byte>)
    requires Payload(Bool(x)) + rest == Payload(Bool(y)) + rest'
    ensures x == y && rest == rest'
  {
    HeadBinds(0, if x then 1 else 0, rest, 0, if y then 1 else 0, rest');
  }

  lemma {:induction false} ArrayBinds(xs: seq<Value>, rest: seq<Byte>, ys: seq<Value>, rest': seq<Byte>)
    requires Document(Arr(xs)) && Document(Arr(ys)) && Integral(Arr(xs)) && Integral(Arr(ys))
    requires Payload(Arr(xs)) + rest == Payload(Arr(ys)) + rest'
    ensures Same(Arr(xs), Arr(ys)) && rest == rest'
    decreases Arr(xs), 1, 0
  {
    Regroup3(Head(4, |xs|), ItemBytes(xs), rest);
    Regroup3(Head(4, |ys|), ItemBytes(ys), rest');
    HeadBinds(4, |xs|, ItemBytes(xs) + rest, 4, |ys|, ItemBytes(ys) + rest');
    ItemsBind(xs, rest, ys, rest');
  }

  lemma {:induction false} ObjectBinds(fields: seq<Field>, rest: seq<Byte>, fields': seq<Field>, rest': seq<Byte>)
    requires Document(Obj(fields)) && Document(Obj(fields')) && Integral(Obj(fields)) && Integral(Obj(fields'))
    requires Payload(Obj(fields)) + rest == Payload(Obj(fields')) + rest'
    ensures Same(Obj(fields), Obj(fields')) && rest == rest'
    decreases Obj(fields), 1, 0
  {
    var a, b, fs, gs := Obj(fields), Obj(fields'), SortFields(fields), SortFields(fields');
    ObjectSplit(fields, rest);
    ObjectSplit(fields', rest');
    HeadBinds(4, |fields|, FieldBytes(fs, a) + rest, 4, |fields'|, FieldBytes(gs, b) + rest');
    FieldsBind(fs, a, rest, gs, b, rest');
    PairedAreSame(fields, fields');
  }

  lemma ObjectSplit(fields: seq<Field>, rest: seq<Byte>)
    requires Document(Obj(fields)) && Integral(Obj(fields))
    ensures var fs := SortFields(fields);
            && |fs| == |fields| < WORD && Within(fs, Obj(fields)) && FieldDocuments(fs)
            && Payload(Obj(fields)) + rest == Head(4, |fields|) + (FieldBytes(fs, Obj(fields)) + rest)
  {
    SortedWithin(fields);
    SortedLength(fields);
    SortedDocument(fields);
    Regroup3(Head(4, |fields|), FieldBytes(SortFields(fields), Obj(fields)), rest);
  }

  lemma IntBinds(n: int, rest: seq<Byte>, m: int, rest': seq<Byte>)
    requires Document(Int(n)) && Document(Int(m)) && Payload(Int(n)) + rest == Payload(Int(m)) + rest'
    ensures n == m && rest == rest'
  {
    var s, t := if n < 0 then 1 else 0, if m < 0 then 1 else 0;
    assert Payload(Int(n)) + rest == Head(0, s) + (Head(0, Magnitude(n)) + rest);
    assert Payload(Int(m)) + rest' == Head(0, t) + (Head(0, Magnitude(m)) + rest');
    HeadBinds(0, s, Head(0, Magnitude(n)) + rest, 0, t, Head(0, Magnitude(m)) + rest');
    HeadBinds(0, Magnitude(n), rest, 0, Magnitude(m), rest');
  }

  ghost predicate FieldDocuments(fields: seq<Field>) {
    forall i :: 0 <= i < |fields| ==> |fields[i].key| < WORD && Document(fields[i].value)
  }

  lemma SortedDocument(fields: seq<Field>)
    requires Document(Obj(fields))
    ensures FieldDocuments(SortFields(fields))
  {
    var sorted := SortFields(fields);
    forall i | 0 <= i < |sorted| ensures |sorted[i].key| < WORD && Document(sorted[i].value) {
      var k := Unsorted(fields, i);
    }
  }

  lemma {:induction false} ItemsBind(xs: seq<Value>, rest: seq<Byte>, ys: seq<Value>, rest': seq<Byte>)
    requires |xs| == |ys|
    requires forall i :: 0 <= i < |xs| ==> Document(xs[i]) && Integral(xs[i])
    requires forall i :: 0 <= i < |ys| ==> Document(ys[i]) && Integral(ys[i])
    requires ItemBytes(xs) + rest == ItemBytes(ys) + rest'
    ensures rest == rest' && forall i :: 0 <= i < |xs| ==> Same(xs[i], ys[i])
    decreases xs, 0, 0
  {
    if |xs| == 0 {
      assert ItemBytes(xs) + rest == rest && ItemBytes(ys) + rest' == rest';
    } else {
      var n := |xs| - 1;
      var r, s := Encoded(xs[n]) + rest, Encoded(ys[n]) + rest';
      Regroup3(ItemBytes(xs[..n]), Encoded(xs[n]), rest);
      Regroup3(ItemBytes(ys[..n]), Encoded(ys[n]), rest');
      ItemsBind(xs[..n], r, ys[..n], s);
      EncodedBinds(xs[n], rest, ys[n], rest');
      forall i | 0 <= i < |xs| ensures Same(xs[i], ys[i]) {
        assert i < n ==> Same(xs[..n][i], ys[..n][i]);
      }
    }
  }

  ghost predicate Paired(fs: seq<Field>, gs: seq<Field>) {
    |fs| == |gs| && forall i :: 0 <= i < |fs| ==> fs[i].key == gs[i].key && Same(fs[i].value, gs[i].value)
  }

  lemma {:induction false} FieldsBind(fs: seq<Field>, a: Value, rest: seq<Byte>,
                                      gs: seq<Field>, b: Value, rest': seq<Byte>)
    requires |fs| == |gs| && Within(fs, a) && Within(gs, b) && FieldDocuments(fs) && FieldDocuments(gs)
    requires FieldBytes(fs, a) + rest == FieldBytes(gs, b) + rest'
    ensures rest == rest' && Paired(fs, gs)
    decreases a, 0, |fs| + 1
  {
    if |fs| == 0 {
      assert FieldBytes(fs, a) + rest == rest && FieldBytes(gs, b) + rest' == rest';
    } else {
      var n := |fs| - 1;
      FieldsSplit(fs, a, rest);
      FieldsSplit(gs, b, rest');
      FieldsBind(fs[..n], a, EntryBytes(fs[n], a) + rest, gs[..n], b, EntryBytes(gs[n], b) + rest');
      EntryBinds(fs[n], a, rest, gs[n], b, rest');
      PairedSnoc(fs, gs);
    }
  }

  lemma FieldsSplit(fs: seq<Field>, v: Value, rest: seq<Byte>)
    requires |fs| > 0 && Within(fs, v) && FieldDocuments(fs)
    ensures var n := |fs| - 1;
            && fs[n].value < v && Integral(fs[n].value) && Within(fs[..n], v)
            && FieldDocuments([fs[n]]) && FieldDocuments(fs[..n])
            && FieldBytes(fs, v) + rest == FieldBytes(fs[..n], v) + (EntryBytes(fs[n], v) + rest)
  {
    var n := |fs| - 1;
    assert [fs[n]][0] == fs[n];
    Regroup3(FieldBytes(fs[..n], v), EntryBytes(fs[n], v), rest);
  }

  lemma PairedSnoc(fs: seq<Field>, gs: seq<Field>)
    requires |fs| == |gs| > 0 && Paired(fs[..|fs| - 1], gs[..|fs| - 1])
    requires fs[|fs| - 1].key == gs[|fs| - 1].key && Same(fs[|fs| - 1].value, gs[|fs| - 1].value)
    ensures Paired(fs, gs)
  {
    forall i | 0 <= i < |fs| - 1 ensures fs[i].key == gs[i].key && Same(fs[i].value, gs[i].value) {
      assert fs[i] == fs[..|fs| - 1][i] && gs[i] == gs[..|fs| - 1][i];
    }
  }

  lemma {:induction false} EntryBinds(f: Field, a: Value, rest: seq<Byte>, g: Field, b: Value, rest': seq<Byte>)
    requires f.value < a && g.value < b && FieldDocuments([f]) && FieldDocuments([g])
    requires Integral(f.value) && Integral(g.value) && EntryBytes(f, a) + rest == EntryBytes(g, b) + rest'
    ensures rest == rest' && f.key == g.key && Same(f.value, g.value)
    decreases a, 0, 0
  {
    assert [f][0] == f && [g][0] == g;
    var r, s := Encoded(f.value) + rest, Encoded(g.value) + rest';
    RegroupAll(Head(4, 2), ByteString(f.key), Encoded(f.value), rest);
    RegroupAll(Head(4, 2), ByteString(g.key), Encoded(g.value), rest');
    HeadBinds(4, 2, ByteString(f.key) + r, 4, 2, ByteString(g.key) + s);
    ByteStringBinds(f.key, r, g.key, s);
    EncodedBinds(f.value, rest, g.value, rest');
  }

  lemma PairedAreSame(fs: seq<Field>, gs: seq<Field>)
    requires |fs| == |gs| && Paired(SortFields(fs), SortFields(gs))
    ensures Same(Obj(fs), Obj(gs))
  {
    forall i | 0 <= i < |fs|
      ensures exists j :: 0 <= j < |gs| && fs[i].key == gs[j].key && Same(fs[i].value, gs[j].value)
    {
      var p := AfterSorting(fs, i);
      var j := Unsorted(gs, p);
      assert fs[i].key == gs[j].key && Same(fs[i].value, gs[j].value);
    }
  }

  // ---------- field order does not matter ----------

  /** Of two ordered lists of equal length, if every key of the first is in the second, the keys are the same. */
  lemma OrderedKeysAgree(fs: seq<Field>, gs: seq<Field>, at: seq<nat>)
    requires Ordered(fs) && Ordered(gs) && |fs| == |gs| == |at|
    requires forall i :: 0 <= i < |fs| ==> at[i] < |gs| && gs[at[i]].key == fs[i].key
    ensures forall i :: 0 <= i < |fs| ==> at[i] == i
  {
    forall i, j | 0 <= i < j < |at| ensures at[i] < at[j] {
      assert Less(fs[i].key, fs[j].key);
      LessTotal(fs[i].key, fs[j].key);
    }
    forall i | 0 <= i < |at| ensures at[i] == i {
      Climbs(at, i);
      Falls(at, |at|, i);
    }
  }

  lemma {:induction false} Climbs(at: seq<nat>, i: nat)
    requires i < |at| && forall j, k :: 0 <= j < k < |at| ==> at[j] < at[k]
    ensures at[i] >= i
  {
    if i > 0 {
      Climbs(at, i - 1);
    }
  }

  lemma {:induction false} Falls(at: seq<nat>, n: nat, i: nat)
    requires i < |at| <= n && forall j, k :: 0 <= j < k < |at| ==> at[j] < at[k]
    requires forall j :: 0 <= j < |at| ==> at[j] < n
    ensures at[i] + (|at| - 1 - i) < n
    decreases |at| - i
  {
    if i + 1 < |at| {
      Falls(at, n, i + 1);
    }
  }

  ghost predicate Partners(f: Field, g: Field) {
    f.key == g.key && Same(f.value, g.value)
  }

  /** The field of one object that corresponds to a field of another, after sorting. */
  lemma Partner(fs: seq<Field>, gs: seq<Field>, p: nat) returns (q: nat)
    requires Same(Obj(fs), Obj(gs)) && p < |SortFields(fs)|
    ensures q < |SortFields(gs)| && Partners(SortFields(fs)[p], SortFields(gs)[q])
  {
    var i := Unsorted(fs, p);
    var j :| 0 <= j < |gs| && fs[i].key == gs[j].key && Same(fs[i].value, gs[j].value);
    q := AfterSorting(gs, j);
  }

  lemma {:induction false} PartnersOfFirst(fs: seq<Field>, gs: seq<Field>, n: nat) returns (at: seq<nat>)
    requires Same(Obj(fs), Obj(gs)) && n <= |SortFields(fs)|
    ensures |at| == n
    ensures forall i :: 0 <= i < n ==> at[i] < |SortFields(gs)| && Partners(SortFields(fs)[i], SortFields(gs)[at[i]])
  {
    if n == 0 {
      at := [];
    } else {
      var start := PartnersOfFirst(fs, gs, n - 1);
      var q := Partner(fs, gs, n - 1);
      at := start + [q];
    }
  }

  lemma SameSortsAlike(fs: seq<Field>, gs: seq<Field>)
    requires UniqueKeys(fs) && UniqueKeys(gs) && Same(Obj(fs), Obj(gs))
    ensures Paired(SortFields(fs), SortFields(gs))
  {
    SortedLength(fs);
    SortedLength(gs);
    SortedIsOrdered(fs);
    SortedIsOrdered(gs);
    var at := PartnersOfFirst(fs, gs, |SortFields(fs)|);
    OrderedKeysAgree(SortFields(fs), SortFields(gs), at);
  }

  lemma {:induction false} SameEncodes(a: Value, b: Value)
    requires Document(a) && Document(b) && Integral(a) && Integral(b) && Same(a, b)
    ensures Encoded(a) == Encoded(b)
    decreases a, 2, 0
  {
    match a
    case Arr(items) => SameItemsEncode(items, b.items);
    case Obj(fields) => SameObjectsEncode(fields, b.fields);
    case _ =>
  }

  lemma {:induction false} SameItemsEncode(xs: seq<Value>, ys: seq<Value>)
    requires |xs| == |ys| && forall i :: 0 <= i < |xs| ==> Same(xs[i], ys[i])
    requires forall i :: 0 <= i < |xs| ==> Document(xs[i]) && Integral(xs[i])
    requires forall i :: 0 <= i < |ys| ==> Document(ys[i]) && Integral(ys[i])
    ensures ItemBytes(xs) == ItemBytes(ys)
    decreases xs, 0, 0
  {
    if |xs| > 0 {
      var n := |xs| - 1;
      SameItemsEncode(xs[..n], ys[..n]);
      SameEncodes(xs[n], ys[n]);
    }
  }

  lemma {:induction false} SameObjectsEncode(fs: seq<Field>, gs: seq<Field>)
    requires Document(Obj(fs)) && Document(Obj(gs)) && Integral(Obj(fs)) && Integral(Obj(gs))
    requires Same(Obj(fs), Obj(gs))
    ensures Encoded(Obj(fs)) == Encoded(Obj(gs))
    decreases Obj(fs), 1, 0
  {
    ObjectSplit(fs, []);
    ObjectSplit(gs, []);
    SameSortsAlike(fs, gs);
    SameFieldsEncode(SortFields(fs), Obj(fs), SortFields(gs), Obj(gs));
  }

  lemma {:induction false} SameFieldsEncode(fs: seq<Field>, a: Value, gs: seq<Field>, b: Value)
    requires Within(fs, a) && Within(gs, b) && FieldDocuments(fs) && FieldDocuments(gs) && Paired(fs, gs)
    ensures FieldBytes(fs, a) == FieldBytes(gs, b)
    decreases a, 0, |fs|
  {
    if |fs| > 0 {
      var n := |fs| - 1;
      FieldsSplit(fs, a, []);
      FieldsSplit(gs, b, []);
      SameFieldsEncode(fs[..n], a, gs[..n], b);
      SameEncodes(fs[n].value, gs[n].value);
    }
  }

  /** Two values have the same encoding exactly if they differ at most in the order of object fields. */
  lemma EncodingIdentifies(a: Value, b: Value)
    requires Document(a) && Document(b) && Integral(a) && Integral(b)
    ensures Encoded(a) == Encoded(b) <==> Same(a, b)
  {
    if Encoded(a) == Encoded(b) {
      EncodedBinds(a, [], b, []);
    }
    if Same(a, b) {
      SameEncodes(a, b);
    }
  }

  lemma Remainder(a: seq<Byte>, b: seq<Byte>) returns (rest: seq<Byte>)
    requires a <= b
    ensures a + rest == b + []
  {
    rest := b[|a|..];
  }

  /** No encoding is a proper prefix of another. */
  lemma EncodingIsPrefixFree(a: Value, b: Value)
    requires Document(a) && Document(b) && Integral(a) && Integral(b)
    ensures Encoded(a) <= Encoded(b) ==> Encoded(a) == Encoded(b)
  {
    if Encoded(a) <= Encoded(b) {
      var rest := Remainder(Encoded(a), Encoded(b));
      EncodedBinds(a, rest, b, []);
    }
  }

  // ---------- what is hashed ----------

  function MaterialBytes(domain: Text, v: Value): seq<Byte>
    requires Integral(v)
  {
    Head(4, 3) + (ByteString(domain) + (Head(0, 1) + Encoded(v)))
  }

  method Material(domain: Text, v: Value) returns (material: Option<seq<Byte>>)
    requires |domain| < WORD && Document(v)
    ensures material == if Integral(v) then Some(MaterialBytes(domain, v)) else None
  {
    var out := new ByteVec();
    WriteHead(out, 4, 3);
    WriteBytes(out, domain);
    WriteHead(out, 0, 1);
    var ok := Encode(out, v);
    if !ok {
      return None;
    }
    assert [] + Head(4, 3) == Head(4, 3);
    Regroup(Head(4, 3), ByteString(domain), Head(0, 1), Encoded(v));
    return Some(out.data);
  }

  /** Material is equal exactly if the domains are equal and the values are, up to the order of object fields. */
  lemma MaterialIdentifies(d: Text, a: Value, e: Text, b: Value)
    requires |d| < WORD && |e| < WORD && Document(a) && Document(b) && Integral(a) && Integral(b)
    ensures MaterialBytes(d, a) == MaterialBytes(e, b) <==> d == e && Same(a, b)
  {
    var x, y := Head(0, 1) + Encoded(a), Head(0, 1) + Encoded(b);
    if MaterialBytes(d, a) == MaterialBytes(e, b) {
      HeadBinds(4, 3, ByteString(d) + x, 4, 3, ByteString(e) + y);
      ByteStringBinds(d, x, e, y);
      HeadBinds(0, 1, Encoded(a), 0, 1, Encoded(b));
      EncodingIdentifies(a, b);
    }
    if d == e && Same(a, b) {
      EncodingIdentifies(a, b);
    }
  }

  /** Parsed documents whose materials agree are interchangeable: Same is an equivalence on them. */
  lemma SameIsEquivalence(a: Value, b: Value, c: Value)
    requires Document(a) && Document(b) && Document(c) && Integral(a) && Integral(b) && Integral(c)
    ensures Same(a, a) && (Same(a, b) ==> Same(b, a)) && (Same(a, b) && Same(b, c) ==> Same(a, c))
  {
    EncodingIdentifies(a, a);
    EncodingIdentifies(a, b);
    EncodingIdentifies(b, a);
    EncodingIdentifies(b, c);
    EncodingIdentifies(a, c);
  }
}
