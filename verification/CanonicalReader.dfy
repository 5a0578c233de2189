/** A reader for canonical bytes, written from the format alone: heads as in section 3 of RFC 8949, and a value as an
    array of its code and its content. What the encoder writes is read back, with the fields of objects in key order. */
module CanonicalReader {
  import opened Basics
  import opened BitArithmetic
  import opened Canonical

  // ---------- the reader ----------

  /** A number from its bytes, most significant first. */
  function Number(b: seq<Byte>): nat {
    if |b| == 0 then 0 else Number(b[..|b| - 1]) * 256 + b[|b| - 1]
  }

  /** Three bits of major type and five of information: small numbers are written in the first byte, larger ones in the
      1, 2, 4 or 8 bytes after it. */
  function ReadHead(b: seq<Byte>): (r: Option<(nat, nat, seq<Byte>)>)
    ensures r.Some? ==> |r.value.2| < |b|
  {
    if |b| == 0 || b[0] % 32 > 27 then None
    else if b[0] % 32 < 24 then Some((b[0] / 32, b[0] % 32, b[1..]))
    else
      var width := match b[0] % 32 case 24 => 1 case 25 => 2 case 26 => 4 case _ => 8;
      if |b| < 1 + width then None else Some((b[0] / 32, Number(b[1..1 + width]), b[1 + width..]))
  }

  function ReadText(b: seq<Byte>): (r: Option<(Text, seq<Byte>)>)
    ensures r.Some? ==> |r.value.1| < |b|
  {
    match ReadHead(b)
    case Some((2, n, rest)) => if n <= |rest| then Some((rest[..n], rest[n..])) else None
    case _ => None
  }

  /** The code of a value and what follows it. */
  function ReadValue(b: seq<Byte>): (r: Option<(Value, seq<Byte>)>)
    ensures r.Some? ==> |r.value.1| < |b|
    decreases |b|, 0, 0
  {
    match ReadHead(b)
    case Some((4, parts, rest)) =>
      (match ReadHead(rest)
       case Some((0, 0, content)) => if parts == 1 then Some((Null, content)) else None
       case Some((0, 1, content)) => if parts == 2 then ReadBool(content) else None
       case Some((0, 2, content)) => if parts == 3 then ReadInt(content) else None
       case Some((0, 3, content)) =>
         (match ReadText(content)
          case Some((text, after)) => if parts == 2 then Some((Str(text), after)) else None
          case None => None)
       case Some((0, 4, content)) => if parts == 2 then ReadArray(content) else None
       case Some((0, 5, content)) => if parts == 2 then ReadObject(content) else None
       case _ => None)
    case _ => None
  }

  function ReadBool(b: seq<Byte>): (r: Option<(Value, seq<Byte>)>)
    ensures r.Some? ==> |r.value.1| < |b|
  {
    match ReadHead(b)
    case Some((0, 0, rest)) => Some((Bool(false), rest))
    case Some((0, 1, rest)) => Some((Bool(true), rest))
    case _ => None
  }

  /** A sign, 1 for negative, and a magnitude. */
  function ReadInt(b: seq<Byte>): (r: Option<(Value, seq<Byte>)>)
    ensures r.Some? ==> |r.value.1| < |b|
  {
    match ReadHead(b)
    case Some((0, sign, rest)) =>
      (match ReadHead(rest)
       case Some((0, n, after)) =>
         if sign == 0 then Some((Int(n), after)) else if sign == 1 then Some((Int(0 - n), after)) else None
       case _ => None)
    case _ => None
  }

  function ReadArray(b: seq<Byte>): (r: Option<(Value, seq<Byte>)>)
    ensures r.Some? ==> |r.value.1| < |b|
    decreases |b|, 0, 0
  {
    match ReadHead(b)
    case Some((4, n, rest)) =>
      (match ReadItems(n, rest)
       case Some((items, after)) => Some((Arr(items), after))
       case None => None)
    case _ => None
  }

  function ReadItems(n: nat, b: seq<Byte>): (r: Option<(seq<Value>, seq<Byte>)>)
    ensures r.Some? ==> |r.value.1| <= |b|
    decreases |b|, 1, n
  {
    if n == 0 then Some(([], b))
    else
      match ReadItems(n - 1, b)
      case None => None
      case Some((items, rest)) =>
        match ReadValue(rest)
        case None => None
        case Some((v, after)) => Some((items + [v], after))
  }

  function ReadObject(b: seq<Byte>): (r: Option<(Value, seq<Byte>)>)
    ensures r.Some? ==> |r.value.1| < |b|
    decreases |b|, 0, 0
  {
    match ReadHead(b)
    case Some((4, n, rest)) =>
      (match ReadFields(n, rest)
       case Some((fields, after)) => Some((Obj(fields), after))
       case None => None)
    case _ => None
  }

  function ReadFields(n: nat, b: seq<Byte>): (r: Option<(seq<Field>, seq<Byte>)>)
    ensures r.Some? ==> |r.value.1| <= |b|
    decreases |b|, 2, n
  {
    if n == 0 then Some(([], b))
    else
      match ReadFields(n - 1, b)
      case None => None
      case Some((fields, rest)) =>
        match ReadField(rest)
        case None => None
        case Some((f, after)) => Some((fields + [f], after))
  }

  /** An array of key and value. */
  function ReadField(b: seq<Byte>): (r: Option<(Field, seq<Byte>)>)
    ensures r.Some? ==> |r.value.1| < |b|
    decreases |b|, 1, 0
  {
    match ReadHead(b)
    case Some((4, 2, rest)) =>
      (match ReadText(rest)
       case Some((key, content)) =>
         (match ReadValue(content)
          case Some((v, after)) => Some((Field(key, v), after))
          case None => None)
       case None => None)
    case _ => None
  }

  // ---------- what is read back ----------

  /** The value with the fields of every object in key order. */
  function InOrder(v: Value): Value
    decreases v, 1, 0
  {
    match v
    case Arr(items) => Arr(ItemsInOrder(items))
    case Obj(fields) =>
      SortedInside(fields);
      Obj(FieldsInOrder(SortFields(fields), v))
    case _ => v
  }

  function ItemsInOrder(items: seq<Value>): seq<Value>
    decreases items, 0, 0
  {
    if |items| == 0 then [] else ItemsInOrder(items[..|items| - 1]) + [InOrder(items[|items| - 1])]
  }

  function FieldsInOrder(fields: seq<Field>, ghost v: Value): seq<Field>
    requires Inside(fields, v)
    decreases v, 0, |fields|
  {
    if |fields| == 0 then []
    else
      var f := fields[|fields| - 1];
      FieldsInOrder(fields[..|fields| - 1], v) + [Field(f.key, InOrder(f.value))]
  }

  lemma {:induction false} NumberOfBigEndian(n: nat, width: nat)
    requires n < Pow(256, width)
    ensures Number(BigEndian(n, width)) == n
  {
    if width > 0 {
      NumberOfBigEndian(n / 256, width - 1);
      assert BigEndian(n, width)[..width - 1] == BigEndian(n / 256, width - 1);
    }
  }

  lemma HeadReadsBack(major: nat, n: nat, rest: seq<Byte>)
    requires major < 8 && n < WORD
    ensures ReadHead(Head(major, n) + rest) == Some((major, n, rest))
  {
    var b, w := Head(major, n) + rest, Width(n);
    assert b[0] == major * 32 + Info(n) && b[0] % 32 == Info(n) && b[0] / 32 == major;
    assert b[1..1 + w] == BigEndian(n, w) && b[1 + w..] == rest;
    if w > 0 {
      FitsWidth(n);
      NumberOfBigEndian(n, w);
    }
  }

  lemma TextReadsBack(text: Text, rest: seq<Byte>)
    requires |text| < WORD
    ensures ReadText(ByteString(text) + rest) == Some((text, rest))
  {
    Regroup3(Head(2, |text|), text, rest);
    HeadReadsBack(2, |text|, text + rest);
    assert (text + rest)[..|text|] == text && (text + rest)[|text|..] == rest;
  }

  /** Every value that is encoded is read back, from the front of whatever follows. */
  lemma {:induction false} EncodedReadsBack(v: Value, rest: seq<Byte>)
    requires Document(v) && Integral(v)
    ensures ReadValue(Encoded(v) + rest) == Some((InOrder(v), rest))
    decreases v, 3, 0
  {
    RegroupAll(Head(4, Arity(v)), Head(0, Tag(v)), Payload(v), rest);
    HeadReadsBack(4, Arity(v), Head(0, Tag(v)) + (Payload(v) + rest));
    HeadReadsBack(0, Tag(v), Payload(v) + rest);
    match v
    case Null => assert Payload(v) + rest == rest;
    case Bool(b) => HeadReadsBack(0, if b then 1 else 0, rest);
    case Int(n) => IntReadsBack(n, rest);
    case Str(text) => TextReadsBack(text, rest);
    case Arr(items) => ArrayReadsBack(items, rest);
    case Obj(fields) => ObjectReadsBack(fields, rest);
  }

  lemma IntReadsBack(n: int, rest: seq<Byte>)
    requires Document(Int(n))
    ensures ReadInt(Payload(Int(n)) + rest) == Some((Int(n), rest))
  {
    var sign := if n < 0 then 1 else 0;
    Regroup3(Head(0, sign), Head(0, Magnitude(n)), rest);
    HeadReadsBack(0, sign, Head(0, Magnitude(n)) + rest);
    HeadReadsBack(0, Magnitude(n), rest);
  }

  lemma {:induction false} ArrayReadsBack(items: seq<Value>, rest: seq<Byte>)
    requires Document(Arr(items)) && Integral(Arr(items))
    ensures ReadArray(Payload(Arr(items)) + rest) == Some((InOrder(Arr(items)), rest))
    decreases Arr(items), 2, 0
  {
    Regroup3(Head(4, |items|), ItemBytes(items), rest);
    HeadReadsBack(4, |items|, ItemBytes(items) + rest);
    ItemsReadBack(items, rest);
  }

  lemma {:induction false} ItemsReadBack(items: seq<Value>, rest: seq<Byte>)
    requires forall i :: 0 <= i < |items| ==> Document(items[i]) && Integral(items[i])
    ensures ReadItems(|items|, ItemBytes(items) + rest) == Some((ItemsInOrder(items), rest))
    decreases items, 0, 0
  {
    if |items| == 0 {
      assert ItemBytes(items) + rest == rest;
    } else {
      var n := |items| - 1;
      Regroup3(ItemBytes(items[..n]), Encoded(items[n]), rest);
      ItemsReadBack(items[..n], Encoded(items[n]) + rest);
      EncodedReadsBack(items[n], rest);
    }
  }

  lemma {:induction false} ObjectReadsBack(fields: seq<Field>, rest: seq<Byte>)
    requires Document(Obj(fields)) && Integral(Obj(fields))
    ensures ReadObject(Payload(Obj(fields)) + rest) == Some((InOrder(Obj(fields)), rest))
    decreases Obj(fields), 2, 0
  {
    ObjectSplit(fields, rest);
    SortedInside(fields);
    HeadReadsBack(4, |fields|, FieldBytes(SortFields(fields), Obj(fields)) + rest);
    FieldsReadBack(SortFields(fields), Obj(fields), rest);
  }

  lemma {:induction false} FieldsReadBack(fields: seq<Field>, v: Value, rest: seq<Byte>)
    requires Within(fields, v) && FieldDocuments(fields)
    ensures ReadFields(|fields|, FieldBytes(fields, v) + rest) == Some((FieldsInOrder(fields, v), rest))
    decreases v, 1, |fields|
  {
    if |fields| == 0 {
      assert FieldBytes(fields, v) + rest == rest;
    } else {
      var n := |fields| - 1;
      var more := EntryBytes(fields[n], v) + rest;
      FieldsSplit(fields, v, rest);
      FieldsReadBack(fields[..n], v, more);
      EntryReadsBack(fields[n], v, rest);
      OneMoreField(fields, v, FieldBytes(fields[..n], v) + more, more, rest);
    }
  }

  lemma OneMoreField(fields: seq<Field>, v: Value, b: seq<Byte>, more: seq<Byte>, rest: seq<Byte>)
    requires |fields| > 0 && Inside(fields, v)
    requires ReadFields(|fields| - 1, b) == Some((FieldsInOrder(fields[..|fields| - 1], v), more))
    requires ReadField(more) == Some((Field(fields[|fields| - 1].key, InOrder(fields[|fields| - 1].value)), rest))
    ensures ReadFields(|fields|, b) == Some((FieldsInOrder(fields, v), rest))
  {
  }

  lemma {:induction false} EntryReadsBack(f: Field, v: Value, rest: seq<Byte>)
    requires f.value < v && FieldDocuments([f]) && Integral(f.value)
    ensures ReadField(EntryBytes(f, v) + rest) == Some((Field(f.key, InOrder(f.value)), rest))
    decreases v, 0, 0
  {
    assert [f][0] == f;
    RegroupAll(Head(4, 2), ByteString(f.key), Encoded(f.value), rest);
    HeadReadsBack(4, 2, ByteString(f.key) + (Encoded(f.value) + rest));
    TextReadsBack(f.key, Encoded(f.value) + rest);
    EncodedReadsBack(f.value, rest);
  }

  // ---------- what is read is the value ----------

  /** Every object lists its fields in strict key order. */
  ghost predicate Arranged(v: Value) {
    match v
    case Arr(items) => forall i :: 0 <= i < |items| ==> Arranged(items[i])
    case Obj(fields) => Ordered(fields) && forall i :: 0 <= i < |fields| ==> Arranged(fields[i].value)
    case _ => true
  }

  lemma {:induction false} InOrderIsSame(v: Value)
    requires Document(v)
    ensures Same(v, InOrder(v)) && Arranged(InOrder(v))
    decreases v, 2, 0
  {
    match v
    case Arr(items) => ItemsAreSame(items);
    case Obj(fields) => ObjectIsSame(fields);
    case _ =>
  }

  lemma {:induction false} ItemsAreSame(items: seq<Value>)
    requires forall i :: 0 <= i < |items| ==> Document(items[i])
    ensures |ItemsInOrder(items)| == |items|
    ensures forall i :: 0 <= i < |items| ==> Same(items[i], ItemsInOrder(items)[i]) && Arranged(ItemsInOrder(items)[i])
    decreases items, 0, 0
  {
    if |items| > 0 {
      var n := |items| - 1;
      ItemsAreSame(items[..n]);
      InOrderIsSame(items[n]);
      forall i | 0 <= i < n ensures Same(items[i], ItemsInOrder(items)[i]) && Arranged(ItemsInOrder(items)[i]) {
        assert items[..n][i] == items[i] && ItemsInOrder(items)[i] == ItemsInOrder(items[..n])[i];
      }
    }
  }

  lemma {:induction false} ObjectIsSame(fields: seq<Field>)
    requires Document(Obj(fields))
    ensures Same(Obj(fields), InOrder(Obj(fields))) && Arranged(InOrder(Obj(fields)))
    decreases Obj(fields), 1, 0
  {
    SortedInside(fields);
    SortedLength(fields);
    SortedDocument(fields);
    SortedIsOrdered(fields);
    var sorted := SortFields(fields);
    FieldsInOrderAre(sorted, Obj(fields));
    FieldsAreSame(sorted, Obj(fields));
    forall i | 0 <= i < |fields|
      ensures exists j :: 0 <= j < |sorted| && Partners(fields[i], FieldsInOrder(sorted, Obj(fields))[j])
    {
      var j := AfterSorting(fields, i);
      assert Partners(sorted[j], FieldsInOrder(sorted, Obj(fields))[j]);
    }
    SameByPartners(fields, FieldsInOrder(sorted, Obj(fields)));
  }

  lemma SameByPartners(fs: seq<Field>, gs: seq<Field>)
    requires |fs| == |gs|
    requires forall i :: 0 <= i < |fs| ==> exists j :: 0 <= j < |gs| && Partners(fs[i], gs[j])
    ensures Same(Obj(fs), Obj(gs))
  {
    forall i | 0 <= i < |fs|
      ensures exists j :: 0 <= j < |gs| && fs[i].key == gs[j].key && Same(fs[i].value, gs[j].value)
    {
      var j :| 0 <= j < |gs| && Partners(fs[i], gs[j]);
      HasPartner(fs[i], gs, j);
    }
    var a, b := Obj(fs), Obj(gs);
    assert forall i :: 0 <= i < |a.fields| ==>
        exists j :: 0 <= j < |b.fields| && a.fields[i].key == b.fields[j].key
                    && Same(a.fields[i].value, b.fields[j].value);
  }

  lemma HasPartner(f: Field, gs: seq<Field>, j: nat)
    requires j < |gs| && Partners(f, gs[j])
    ensures exists k :: 0 <= k < |gs| && f.key == gs[k].key && Same(f.value, gs[k].value)
  {
  }

  /** A field keeps its place and its key. */
  lemma {:induction false} FieldsInOrderAre(fields: seq<Field>, v: Value)
    requires Inside(fields, v)
    ensures |FieldsInOrder(fields, v)| == |fields|
    ensures forall i :: 0 <= i < |fields| ==>
              FieldsInOrder(fields, v)[i] == Field(fields[i].key, InOrder(fields[i].value))
    decreases |fields|
  {
    if |fields| > 0 {
      FieldsInOrderAre(fields[..|fields| - 1], v);
    }
  }

  lemma {:induction false} FieldsAreSame(fields: seq<Field>, v: Value)
    requires Inside(fields, v) && FieldDocuments(fields)
    ensures forall i :: 0 <= i < |fields| ==>
              Same(fields[i].value, InOrder(fields[i].value)) && Arranged(InOrder(fields[i].value))
    decreases v, 0, 0
  {
    forall i | 0 <= i < |fields|
      ensures Same(fields[i].value, InOrder(fields[i].value)) && Arranged(InOrder(fields[i].value))
    {
      InOrderIsSame(fields[i].value);
    }
  }

  /** Round trip: for every value that can be encoded, reading its bytes gives back that value, with the fields of every
      object in strict key order, and leaves nothing over. */
  lemma WrittenReadsBack(v: Value)
    requires Document(v) && Integral(v)
    ensures ReadValue(Encoded(v)) == Some((InOrder(v), []))
    ensures Same(v, InOrder(v)) && Arranged(InOrder(v))
  {
    EncodedReadsBack(v, []);
    assert Encoded(v) + [] == Encoded(v);
    InOrderIsSame(v);
  }

  /** An array of three: the domain, the version 1, and the value. */
  function ReadMaterial(b: seq<Byte>): Option<(Text, Value)> {
    match ReadHead(b)
    case Some((4, 3, parts)) =>
      (match ReadText(parts)
       case Some((domain, rest)) =>
         (match ReadHead(rest)
          case Some((0, 1, value)) =>
            (match ReadValue(value)
             case Some((v, after)) => if after == [] then Some((domain, v)) else None
             case None => None)
          case _ => None)
       case None => None)
    case _ => None
  }

  lemma MaterialReadsBack(domain: Text, v: Value)
    requires |domain| < WORD && Document(v) && Integral(v)
    ensures ReadMaterial(MaterialBytes(domain, v)) == Some((domain, InOrder(v)))
  {
    HeadReadsBack(4, 3, ByteString(domain) + (Head(0, 1) + Encoded(v)));
    TextReadsBack(domain, Head(0, 1) + Encoded(v));
    HeadReadsBack(0, 1, Encoded(v));
    WrittenReadsBack(v);
  }
}
