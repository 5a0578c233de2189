/** Bundle v1: validation of a descriptor over one arena of bytes, lookup in a validated table, and the owned copy. */
module BundleV1 {
  import opened Basics
  import opened BitArithmetic
  import opened LittleEndian

  type Status = U32

  const OK: Status := 0
  const INVALID_ARGUMENT: Status := 1
  const INCOMPATIBLE_SCHEMA: Status := 2
  const MALFORMED_DESCRIPTOR: Status := 3
  const REGION_BOUNDS: Status := 4
  const REGION_LAYOUT: Status := 5
  const UNSORTED_TABLE: Status := 6
  const DUPLICATE_KEY: Status := 7
  const NOT_FOUND: Status := 8
  const OUT_OF_MEMORY: Status := 9

  const ARENA_ALIGNMENT: nat := 64
  const ENTRY_ALIGNMENT: nat := 8

  const SYMBOL_BYTES: nat := 32
  const COMPONENT_BYTES: nat := 200
  const EDGE_BYTES: nat := 80
  const EVIDENCE_BYTES: nat := 96

  datatype CompactId = CompactId(high: U64, low: U64)

  datatype Region = Region(offset: U64, length: U64, stride: U32, alignment: U32)

  datatype Symbol = Symbol(id: CompactId, byteOffset: U64, byteLength: U64, flags: nat)

  /** The columns of a component row that are checked or searched by. */
  datatype Component = Component(caseId: CompactId, componentId: CompactId, flags: nat, reserved0: nat, reserved1: nat)

  datatype Edge = Edge(
    caseId: CompactId, source: CompactId, target: CompactId, relation: CompactId, order: U64, flags: nat,
    reserved0: nat)

  datatype Evidence = Evidence(caseId: CompactId, obligation: CompactId, flags: nat, reserved0: nat)

  datatype Descriptor = Descriptor(
    structSize: U32, flags: U32, schemaMajor: nat, schemaMinor: nat, reserved0: U32, digest: Bytes32, arenaBytes: U64,
    symbols: Region, components: Region, edges: Region, evidence: Region, metadata: Region, reserved: seq<U64>)

  /** Bytes at an address. They end inside the address space, so adding an offset to the address does not wrap. */
  datatype Arena = Arena(address: U64, bytes: seq<Byte>)

  // ---------- regions ----------

  predicate InBounds(r: Region, bytes: nat) {
    r.offset <= bytes && r.length <= bytes - r.offset
  }

  /** The test the code makes for powers of two. */
  predicate IsPowerOfTwo(v: U32) {
    v != 0 && And(v, v - 1, 32) == 0
  }

  predicate Aligned(r: Region, address: U64, minimum: nat) {
    && IsPowerOfTwo(r.alignment) && r.alignment >= minimum && r.offset % r.alignment == 0
    && (address + r.offset) % r.alignment == 0
  }

  function RegionStatus(r: Region, a: Arena, stride: nat, minimum: nat): Status {
    if !InBounds(r, |a.bytes|) then REGION_BOUNDS
    else if !Aligned(r, a.address, minimum) then REGION_LAYOUT
    else if stride == 0 then (if r.stride != 1 then REGION_LAYOUT else OK)
    else if r.stride != stride || r.length % stride != 0 then REGION_LAYOUT
    else OK
  }

  // ---------- rows ----------

  function IdAt(b: seq<Byte>, at: nat): CompactId
    requires at + 16 <= |b|
  {
    CompactId(ReadU64(b[at..at + 8]), ReadU64(b[at + 8..at + 16]))
  }

  function SymbolAt(b: seq<Byte>, at: nat): Symbol
    requires at + SYMBOL_BYTES <= |b|
  {
    Symbol(IdAt(b, at), ReadU64(b[at + 16..at + 24]), ReadU32(b[at + 24..at + 28]), Word(b[at + 30..at + 32]))
  }

  function ComponentAt(b: seq<Byte>, at: nat): Component
    requires at + COMPONENT_BYTES <= |b|
  {
    Component(IdAt(b, at), IdAt(b, at + 16), ReadU32(b[at + 184..at + 188]), ReadU32(b[at + 188..at + 192]),
              ReadU64(b[at + 192..at + 200]))
  }

  function EdgeAt(b: seq<Byte>, at: nat): Edge
    requires at + EDGE_BYTES <= |b|
  {
    Edge(IdAt(b, at), IdAt(b, at + 16), IdAt(b, at + 32), IdAt(b, at + 48), ReadU64(b[at + 64..at + 72]),
         ReadU32(b[at + 72..at + 76]), ReadU32(b[at + 76..at + 80]))
  }

  function EvidenceAt(b: seq<Byte>, at: nat): Evidence
    requires at + EVIDENCE_BYTES <= |b|
  {
    Evidence(IdAt(b, at), IdAt(b, at + 16), ReadU32(b[at + 88..at + 92]), ReadU32(b[at + 92..at + 96]))
  }

  function Rows(r: Region, size: nat): nat
    requires size > 0
  {
    r.length / size
  }

  function Symbols(b: seq<Byte>, r: Region): (t: seq<Symbol>)
    requires InBounds(r, |b|)
    ensures |t| == Rows(r, SYMBOL_BYTES)
  {
    seq(r.length / SYMBOL_BYTES,
        i requires 0 <= i < r.length / SYMBOL_BYTES => SymbolAt(b, r.offset + SYMBOL_BYTES * i))
  }

  function Components(b: seq<Byte>, r: Region): (t: seq<Component>)
    requires InBounds(r, |b|)
    ensures |t| == Rows(r, COMPONENT_BYTES)
  {
    seq(r.length / COMPONENT_BYTES, i requires 0 <= i < r.length / COMPONENT_BYTES =>
      ComponentAt(b, r.offset + COMPONENT_BYTES * i))
  }

  function Edges(b: seq<Byte>, r: Region): (t: seq<Edge>)
    requires InBounds(r, |b|)
    ensures |t| == Rows(r, EDGE_BYTES)
  {
    seq(r.length / EDGE_BYTES, i requires 0 <= i < r.length / EDGE_BYTES => EdgeAt(b, r.offset + EDGE_BYTES * i))
  }

  function EvidenceRows(b: seq<Byte>, r: Region): (t: seq<Evidence>)
    requires InBounds(r, |b|)
    ensures |t| == Rows(r, EVIDENCE_BYTES)
  {
    seq(r.length / EVIDENCE_BYTES, i requires 0 <= i < r.length / EVIDENCE_BYTES =>
      EvidenceAt(b, r.offset + EVIDENCE_BYTES * i))
  }

  // ---------- order ----------

  type Key = seq<U64>

  function SymbolKey(s: Symbol): Key {
    [s.id.high, s.id.low]
  }

  function ComponentKey(c: Component): Key {
    [c.caseId.high, c.caseId.low, c.componentId.high, c.componentId.low]
  }

  function EdgeKey(e: Edge): Key {
    [e.caseId.high, e.caseId.low, e.source.high, e.source.low, e.order, e.target.high, e.target.low,
     e.relation.high, e.relation.low]
  }

  function EvidenceKey(e: Evidence): Key {
    [e.caseId.high, e.caseId.low, e.obligation.high, e.obligation.low]
  }

  /** Lexicographic comparison of keys of the same table: negative, zero or positive. */
  function Compare(a: Key, b: Key): int
    requires |a| == |b|
  {
    if |a| == 0 then 0
    else if a[0] < b[0] then -1
    else if a[0] > b[0] then 1
    else Compare(a[1..], b[1..])
  }

  lemma {:induction false} CompareIsZeroIff(a: Key, b: Key)
    requires |a| == |b|
    ensures Compare(a, b) == 0 <==> a == b
    ensures Compare(a, b) == -Compare(b, a)
  {
    if |a| > 0 {
      CompareIsZeroIff(a[1..], b[1..]);
      assert a == [a[0]] + a[1..] && b == [b[0]] + b[1..];
    }
  }

  lemma {:induction false} CompareTransitive(a: Key, b: Key, c: Key)
    requires |a| == |b| == |c| && Compare(a, b) < 0 && Compare(b, c) <= 0
    ensures Compare(a, c) < 0
  {
    if a[0] == b[0] && b[0] == c[0] {
      CompareTransitive(a[1..], b[1..], c[1..]);
    }
  }

  function CompareIds(a: CompactId, b: CompactId): int {
    if a.high < b.high then -1
    else if a.high > b.high then 1
    else if a.low < b.low then -1
    else if a.low > b.low then 1
    else 0
  }

  function OrderStatus(order: int): Status {
    if order > 0 then UNSORTED_TABLE else if order == 0 then DUPLICATE_KEY else OK
  }

  predicate SameWidth(keys: seq<Key>) {
    forall i, j :: 0 <= i < j < |keys| ==> |keys[i]| == |keys[j]|
  }

  /** The complaint about row `n` alone: it is checked by itself, then against the row before it. */
  function RowComplaint(row: seq<Status>, keys: seq<Key>, n: nat): Status
    requires n < |row| == |keys| && SameWidth(keys)
  {
    if row[n] != OK then row[n] else if n == 0 then OK else OrderStatus(Compare(keys[n - 1], keys[n]))
  }

  /** The first complaint about the first `n` rows of a table. */
  function FirstComplaint(row: seq<Status>, keys: seq<Key>, n: nat): Status
    requires n <= |row| == |keys| && SameWidth(keys)
  {
    if n == 0 then OK
    else if FirstComplaint(row, keys, n - 1) != OK then FirstComplaint(row, keys, n - 1)
    else RowComplaint(row, keys, n - 1)
  }

  function TableStatus(row: seq<Status>, keys: seq<Key>): Status
    requires |row| == |keys| && SameWidth(keys)
  {
    FirstComplaint(row, keys, |row|)
  }

  ghost predicate StrictlyOrdered(keys: seq<Key>)
    requires SameWidth(keys)
  {
    OrderedTo(keys, |keys|)
  }

  ghost predicate OrderedTo(keys: seq<Key>, n: nat)
    requires n <= |keys| && SameWidth(keys)
  {
    forall i, j :: 0 <= i < j < n ==> Compare(keys[i], keys[j]) < 0
  }

  /** A table passes exactly if each row does and all its keys, not only neighbours, are strictly ordered. */
  lemma TablePassesIff(row: seq<Status>, keys: seq<Key>)
    requires |row| == |keys| && SameWidth(keys)
    ensures TableStatus(row, keys) == OK <==> (forall i :: 0 <= i < |row| ==> row[i] == OK) && StrictlyOrdered(keys)
  {
    RowsPassIff(row, keys, |row|);
  }

  lemma {:induction false} RowsPassIff(row: seq<Status>, keys: seq<Key>, n: nat)
    requires n <= |row| == |keys| && SameWidth(keys)
    ensures FirstComplaint(row, keys, n) == OK <==> (forall i :: 0 <= i < n ==> row[i] == OK) && OrderedTo(keys, n)
  {
    if n > 0 {
      RowsPassIff(row, keys, n - 1);
      if FirstComplaint(row, keys, n) == OK {
        forall i | 0 <= i < n - 1 ensures Compare(keys[i], keys[n - 1]) < 0 {
          if i < n - 2 {
            CompareTransitive(keys[i], keys[n - 2], keys[n - 1]);
          }
        }
      }
    }
  }

  // ---------- the four tables ----------

  function SymbolStatus(s: Symbol, metadata: U64): Status {
    if s.flags != 0 || s.byteOffset > metadata || s.byteLength > metadata - s.byteOffset then REGION_BOUNDS else OK
  }

  /** One flag is known: bit 0. */
  function ComponentStatus(c: Component): Status {
    if c.flags > 1 || c.reserved0 != 0 || c.reserved1 != 0 then MALFORMED_DESCRIPTOR else OK
  }

  function EdgeStatus(e: Edge): Status {
    if e.flags != 0 || e.reserved0 != 0 then MALFORMED_DESCRIPTOR else OK
  }

  function EvidenceStatus(e: Evidence): Status {
    if e.flags != 0 || e.reserved0 != 0 then MALFORMED_DESCRIPTOR else OK
  }

  function SymbolKeys(t: seq<Symbol>): (keys: seq<Key>)
    ensures |keys| == |t| && forall i :: 0 <= i < |keys| ==> keys[i] == SymbolKey(t[i])
  {
    seq(|t|, i requires 0 <= i < |t| => SymbolKey(t[i]))
  }

  function ComponentKeys(t: seq<Component>): (keys: seq<Key>)
    ensures |keys| == |t| && forall i :: 0 <= i < |keys| ==> keys[i] == ComponentKey(t[i])
  {
    seq(|t|, i requires 0 <= i < |t| => ComponentKey(t[i]))
  }

  function EdgeKeys(t: seq<Edge>): (keys: seq<Key>)
    ensures |keys| == |t| && forall i :: 0 <= i < |keys| ==> keys[i] == EdgeKey(t[i])
  {
    seq(|t|, i requires 0 <= i < |t| => EdgeKey(t[i]))
  }

  function EvidenceKeys(t: seq<Evidence>): (keys: seq<Key>)
    ensures |keys| == |t| && forall i :: 0 <= i < |keys| ==> keys[i] == EvidenceKey(t[i])
  {
    seq(|t|, i requires 0 <= i < |t| => EvidenceKey(t[i]))
  }

  /** The complaint about each row by itself. */
  function Statuses<T>(t: seq<T>, status: T -> Status): (row: seq<Status>)
    ensures |row| == |t| && forall i :: 0 <= i < |t| ==> row[i] == status(t[i])
  {
    seq(|t|, i requires 0 <= i < |t| => status(t[i]))
  }

  function SymbolTable(t: seq<Symbol>, metadata: U64): Status {
    TableStatus(Statuses(t, (e: Symbol) => SymbolStatus(e, metadata)), SymbolKeys(t))
  }

  function ComponentTable(t: seq<Component>): Status {
    TableStatus(Statuses(t, ComponentStatus), ComponentKeys(t))
  }

  function EdgeTable(t: seq<Edge>): Status {
    TableStatus(Statuses(t, EdgeStatus), EdgeKeys(t))
  }

  function EvidenceTable(t: seq<Evidence>): Status {
    TableStatus(Statuses(t, EvidenceStatus), EvidenceKeys(t))
  }

  /** The first complaint is the table's. */
  lemma {:induction false} ComplaintSticks(row: seq<Status>, keys: seq<Key>, n: nat, m: nat)
    requires n <= m <= |row| == |keys| && SameWidth(keys) && FirstComplaint(row, keys, n) != OK
    ensures FirstComplaint(row, keys, m) == FirstComplaint(row, keys, n)
  {
    if n < m {
      ComplaintSticks(row, keys, n, m - 1);
    }
  }

  /** Comparing key after key is comparing the joined keys. */
  lemma {:induction false} CompareJoined(a: Key, b: Key, c: Key, d: Key)
    requires |a| == |b| && |c| == |d|
    ensures Compare(a + c, b + d) == if Compare(a, b) != 0 then Compare(a, b) else Compare(c, d)
  {
    if |a| == 0 {
      assert a + c == c && b + d == d;
    } else {
      assert (a + c)[1..] == a[1..] + c && (b + d)[1..] == b[1..] + d;
      CompareJoined(a[1..], b[1..], c, d);
    }
  }

  lemma CompareIdsIs(a: CompactId, b: CompactId)
    ensures CompareIds(a, b) == Compare([a.high, a.low], [b.high, b.low])
  {
    assert [a.high, a.low][1..] == [a.low] && [b.high, b.low][1..] == [b.low];
    assert Compare([a.low], [b.low]) == if a.low < b.low then -1 else if a.low > b.low then 1 else Compare([], []) by {
      assert [a.low][1..] == [] && [b.low][1..] == [];
    }
  }

  method ValidateSymbols(t: seq<Symbol>, metadata: U64) returns (status: Status)
    ensures status == SymbolTable(t, metadata)
  {
    ghost var row, keys := Statuses(t, (e: Symbol) => SymbolStatus(e, metadata)), SymbolKeys(t);
    for n := 0 to |t|
      invariant FirstComplaint(row, keys, n) == OK
    {
      status := CheckSymbol(t, n, metadata);
      if status != OK {
        ComplaintSticks(row, keys, n + 1, |t|);
        return;
      }
    }
    return OK;
  }

  /** Row `n` by itself and against the row before it. */
  method CheckSymbol(t: seq<Symbol>, n: nat, metadata: U64) returns (status: Status)
    requires n < |t|
    ensures status == RowComplaint(Statuses(t, (e: Symbol) => SymbolStatus(e, metadata)), SymbolKeys(t), n)
  {
    var entry := t[n];
    if entry.flags != 0 || entry.byteOffset > metadata || entry.byteLength > metadata - entry.byteOffset {
      return REGION_BOUNDS;
    }
    if n != 0 {
      CompareIdsIs(t[n - 1].id, entry.id);
      var order := CompareIds(t[n - 1].id, entry.id);
      if order > 0 {
        return UNSORTED_TABLE;
      }
      if order == 0 {
        return DUPLICATE_KEY;
      }
    }
    return OK;
  }

  method CompareComponents(a: Component, b: Component) returns (order: int)
    ensures order == Compare(ComponentKey(a), ComponentKey(b))
  {
    order := CompareIds(a.caseId, b.caseId);
    if order == 0 {
      order := CompareIds(a.componentId, b.componentId);
    }
    CompareIdsIs(a.caseId, b.caseId);
    CompareIdsIs(a.componentId, b.componentId);
    var x, y := [a.caseId.high, a.caseId.low], [b.caseId.high, b.caseId.low];
    var z, w := [a.componentId.high, a.componentId.low], [b.componentId.high, b.componentId.low];
    assert ComponentKey(a) == x + z && ComponentKey(b) == y + w;
    CompareJoined(x, y, z, w);
  }

  method ValidateComponents(t: seq<Component>) returns (status: Status)
    ensures status == ComponentTable(t)
  {
    ghost var row, keys := Statuses(t, ComponentStatus), ComponentKeys(t);
    for n := 0 to |t|
      invariant FirstComplaint(row, keys, n) == OK
    {
      status := CheckComponent(t, n);
      if status != OK {
        ComplaintSticks(row, keys, n + 1, |t|);
        return;
      }
    }
    return OK;
  }

  /** Row `n` by itself and against the row before it. */
  method CheckComponent(t: seq<Component>, n: nat) returns (status: Status)
    requires n < |t|
    ensures status == RowComplaint(Statuses(t, ComponentStatus), ComponentKeys(t), n)
  {
    var entry := t[n];
    if entry.flags > 1 || entry.reserved0 != 0 || entry.reserved1 != 0 {
      return MALFORMED_DESCRIPTOR;
    }
    if n != 0 {
      var order := CompareComponents(t[n - 1], entry);
      if order > 0 {
        return UNSORTED_TABLE;
      }
      if order == 0 {
        return DUPLICATE_KEY;
      }
    }
    return OK;
  }

  method CompareEdges(a: Edge, b: Edge) returns (order: int)
    ensures order == Compare(EdgeKey(a), EdgeKey(b))
  {
    order := CompareIds(a.caseId, b.caseId);
    if order == 0 {
      order := CompareIds(a.source, b.source);
    }
    if order == 0 && a.order < b.order {
      order := -1;
    } else if order == 0 && a.order > b.order {
      order := 1;
    }
    if order == 0 {
      order := CompareIds(a.target, b.target);
    }
    if order == 0 {
      order := CompareIds(a.relation, b.relation);
    }
    EdgeOrderIs(a, b);
  }

  lemma EdgeOrderIs(a: Edge, b: Edge)
    ensures Compare(EdgeKey(a), EdgeKey(b))
         == if CompareIds(a.caseId, b.caseId) != 0 then CompareIds(a.caseId, b.caseId)
            else if CompareIds(a.source, b.source) != 0 then CompareIds(a.source, b.source)
            else if a.order != b.order then (if a.order < b.order then -1 else 1)
            else if CompareIds(a.target, b.target) != 0 then CompareIds(a.target, b.target)
            else CompareIds(a.relation, b.relation)
  {
    CompareIdsIs(a.caseId, b.caseId);
    CompareIdsIs(a.source, b.source);
    CompareIdsIs(a.target, b.target);
    CompareIdsIs(a.relation, b.relation);
    var r, r' := [a.relation.high, a.relation.low], [b.relation.high, b.relation.low];
    var t, t' := [a.target.high, a.target.low] + r, [b.target.high, b.target.low] + r';
    var o, o' := [a.order] + t, [b.order] + t';
    var s, s' := [a.source.high, a.source.low] + o, [b.source.high, b.source.low] + o';
    assert EdgeKey(a) == [a.caseId.high, a.caseId.low] + s && EdgeKey(b) == [b.caseId.high, b.caseId.low] + s';
    CompareJoined([a.caseId.high, a.caseId.low], [b.caseId.high, b.caseId.low], s, s');
    CompareJoined([a.source.high, a.source.low], [b.source.high, b.source.low], o, o');
    assert o[1..] == t && o'[1..] == t';
    CompareJoined([a.target.high, a.target.low], [b.target.high, b.target.low], r, r');
  }

  method ValidateEdges(t: seq<Edge>) returns (status: Status)
    ensures status == EdgeTable(t)
  {
    ghost var row, keys := Statuses(t, EdgeStatus), EdgeKeys(t);
    for n := 0 to |t|
      invariant FirstComplaint(row, keys, n) == OK
    {
      status := CheckEdge(t, n);
      if status != OK {
        ComplaintSticks(row, keys, n + 1, |t|);
        return;
      }
    }
    return OK;
  }

  /** Row `n` by itself and against the row before it. */
  method CheckEdge(t: seq<Edge>, n: nat) returns (status: Status)
    requires n < |t|
    ensures status == RowComplaint(Statuses(t, EdgeStatus), EdgeKeys(t), n)
  {
    var entry := t[n];
    if entry.flags != 0 || entry.reserved0 != 0 {
      return MALFORMED_DESCRIPTOR;
    }
    if n != 0 {
      var order := CompareEdges(t[n - 1], entry);
      if order > 0 {
        return UNSORTED_TABLE;
      }
      if order == 0 {
        return DUPLICATE_KEY;
      }
    }
    return OK;
  }

  method ValidateEvidence(t: seq<Evidence>) returns (status: Status)
    ensures status == EvidenceTable(t)
  {
    ghost var row, keys := Statuses(t, EvidenceStatus), EvidenceKeys(t);
    for n := 0 to |t|
      invariant FirstComplaint(row, keys, n) == OK
    {
      status := CheckEvidence(t, n);
      if status != OK {
        ComplaintSticks(row, keys, n + 1, |t|);
        return;
      }
    }
    return OK;
  }

  /** Row `n` by itself and against the row before it. */
  method CheckEvidence(t: seq<Evidence>, n: nat) returns (status: Status)
    requires n < |t|
    ensures status == RowComplaint(Statuses(t, EvidenceStatus), EvidenceKeys(t), n)
  {
    var entry := t[n];
    if entry.flags != 0 || entry.reserved0 != 0 {
      return MALFORMED_DESCRIPTOR;
    }
    if n != 0 {
      var previous := t[n - 1];
      var order := CompareIds(previous.caseId, entry.caseId);
      if order == 0 {
        order := CompareIds(previous.obligation, entry.obligation);
      }
      EvidenceOrderIs(previous, entry);
      if order > 0 {
        return UNSORTED_TABLE;
      }
      if order == 0 {
        return DUPLICATE_KEY;
      }
    }
    return OK;
  }

  lemma EvidenceOrderIs(a: Evidence, b: Evidence)
    ensures Compare(EvidenceKey(a), EvidenceKey(b))
         == if CompareIds(a.caseId, b.caseId) != 0 then CompareIds(a.caseId, b.caseId)
            else CompareIds(a.obligation, b.obligation)
  {
    CompareIdsIs(a.caseId, b.caseId);
    CompareIdsIs(a.obligation, b.obligation);
    var x, y := [a.caseId.high, a.caseId.low], [b.caseId.high, b.caseId.low];
    var z, w := [a.obligation.high, a.obligation.low], [b.obligation.high, b.obligation.low];
    assert EvidenceKey(a) == x + z && EvidenceKey(b) == y + w;
    CompareJoined(x, y, z, w);
  }

  // ---------- the descriptor ----------

  function HeaderStatus(d: Descriptor, bytes: nat): Status {
    if d.structSize < 256 || d.schemaMajor != 1 || d.schemaMinor > 0 then INCOMPATIBLE_SCHEMA
    else if d.flags % 4 != 3 || d.reserved0 != 0 || d.arenaBytes != bytes then MALFORMED_DESCRIPTOR
    else if exists i :: 0 <= i < |d.reserved| && d.reserved[i] != 0 then MALFORMED_DESCRIPTOR
    else if d.digest == ZERO_BYTES then MALFORMED_DESCRIPTOR
    else OK
  }

  function RegionsStatus(d: Descriptor, a: Arena): Status {
    if RegionStatus(d.symbols, a, SYMBOL_BYTES, ENTRY_ALIGNMENT) != OK
    then RegionStatus(d.symbols, a, SYMBOL_BYTES, ENTRY_ALIGNMENT)
    else if RegionStatus(d.components, a, COMPONENT_BYTES, ENTRY_ALIGNMENT) != OK
    then RegionStatus(d.components, a, COMPONENT_BYTES, ENTRY_ALIGNMENT)
    else if RegionStatus(d.edges, a, EDGE_BYTES, ENTRY_ALIGNMENT) != OK
    then RegionStatus(d.edges, a, EDGE_BYTES, ENTRY_ALIGNMENT)
    else if RegionStatus(d.evidence, a, EVIDENCE_BYTES, ENTRY_ALIGNMENT) != OK
    then RegionStatus(d.evidence, a, EVIDENCE_BYTES, ENTRY_ALIGNMENT)
    else RegionStatus(d.metadata, a, 0, 1)
  }

  predicate RegionsInBounds(d: Descriptor, bytes: nat) {
    && InBounds(d.symbols, bytes) && InBounds(d.components, bytes) && InBounds(d.edges, bytes)
    && InBounds(d.evidence, bytes) && InBounds(d.metadata, bytes)
  }

  function TablesStatus(d: Descriptor, b: seq<Byte>): Status
    requires RegionsInBounds(d, |b|)
  {
    if SymbolTable(Symbols(b, d.symbols), d.metadata.length) != OK
    then SymbolTable(Symbols(b, d.symbols), d.metadata.length)
    else if ComponentTable(Components(b, d.components)) != OK then ComponentTable(Components(b, d.components))
    else if EdgeTable(Edges(b, d.edges)) != OK then EdgeTable(Edges(b, d.edges))
    else EvidenceTable(EvidenceRows(b, d.evidence))
  }

  function ValidationStatus(d: Descriptor, a: Arena): Status {
    if HeaderStatus(d, |a.bytes|) != OK then HeaderStatus(d, |a.bytes|)
    else if RegionsStatus(d, a) != OK then RegionsStatus(d, a)
    else TablesStatus(d, a.bytes)
  }

  method Validate(d: Descriptor, a: Arena) returns (status: Status)
    ensures status == ValidationStatus(d, a)
  {
    status := HeaderStatus(d, |a.bytes|);
    if status != OK {
      return;
    }
    status := RegionsStatus(d, a);
    if status != OK {
      return;
    }
    status := ValidateSymbols(Symbols(a.bytes, d.symbols), d.metadata.length);
    if status != OK {
      return;
    }
    status := ValidateComponents(Components(a.bytes, d.components));
    if status != OK {
      return;
    }
    status := ValidateEdges(Edges(a.bytes, d.edges));
    if status != OK {
      return;
    }
    status := ValidateEvidence(EvidenceRows(a.bytes, d.evidence));
  }

  /** In a bundle that validates, every table is strictly ordered by its whole key. */
  lemma ValidBundleIsOrdered(d: Descriptor, a: Arena)
    ensures ValidationStatus(d, a) == OK ==>
              && StrictlyOrdered(SymbolKeys(Symbols(a.bytes, d.symbols)))
              && StrictlyOrdered(ComponentKeys(Components(a.bytes, d.components)))
              && StrictlyOrdered(EdgeKeys(Edges(a.bytes, d.edges)))
              && StrictlyOrdered(EvidenceKeys(EvidenceRows(a.bytes, d.evidence)))
  {
    if ValidationStatus(d, a) == OK {
      SymbolTablePassesIff(Symbols(a.bytes, d.symbols), d.metadata.length);
      ComponentTablePassesIff(Components(a.bytes, d.components));
      EdgeTablePassesIff(Edges(a.bytes, d.edges));
      EvidenceTablePassesIff(EvidenceRows(a.bytes, d.evidence));
    }
  }

  lemma SymbolTablePassesIff(t: seq<Symbol>, metadata: U64)
    ensures SymbolTable(t, metadata) == OK
       <==> (forall i :: 0 <= i < |t| ==> SymbolStatus(t[i], metadata) == OK) && StrictlyOrdered(SymbolKeys(t))
  {
    var row := Statuses(t, (e: Symbol) => SymbolStatus(e, metadata));
    TablePassesIff(row, SymbolKeys(t));
    assert forall i :: 0 <= i < |t| ==> row[i] == SymbolStatus(t[i], metadata);
  }

  lemma ComponentTablePassesIff(t: seq<Component>)
    ensures ComponentTable(t) == OK
       <==> (forall i :: 0 <= i < |t| ==> ComponentStatus(t[i]) == OK) && StrictlyOrdered(ComponentKeys(t))
  {
    var row := Statuses(t, ComponentStatus);
    TablePassesIff(row, ComponentKeys(t));
    assert forall i :: 0 <= i < |t| ==> row[i] == ComponentStatus(t[i]);
  }

  lemma EdgeTablePassesIff(t: seq<Edge>)
    ensures EdgeTable(t) == OK
       <==> (forall i :: 0 <= i < |t| ==> EdgeStatus(t[i]) == OK) && StrictlyOrdered(EdgeKeys(t))
  {
    var row := Statuses(t, EdgeStatus);
    TablePassesIff(row, EdgeKeys(t));
    assert forall i :: 0 <= i < |t| ==> row[i] == EdgeStatus(t[i]);
  }

  lemma EvidenceTablePassesIff(t: seq<Evidence>)
    ensures EvidenceTable(t) == OK
       <==> (forall i :: 0 <= i < |t| ==> EvidenceStatus(t[i]) == OK) && StrictlyOrdered(EvidenceKeys(t))
  {
    var row := Statuses(t, EvidenceStatus);
    TablePassesIff(row, EvidenceKeys(t));
    assert forall i :: 0 <= i < |t| ==> row[i] == EvidenceStatus(t[i]);
  }

  // ---------- lookup ----------

  function SearchKey(caseId: CompactId, componentId: CompactId): Key {
    [caseId.high, caseId.low, componentId.high, componentId.low]
  }

  predicate Searchable(d: Descriptor) {
    && d.components.stride == COMPONENT_BYTES && d.components.length % COMPONENT_BYTES == 0
    && InBounds(d.components, d.arenaBytes)
  }

  /** `find_component`: over an ordered table it finds a row exactly if one has the key. */
  method FindComponent(d: Descriptor, bytes: seq<Byte>, caseId: CompactId, componentId: CompactId)
    returns (status: Status, row: nat)
    requires |bytes| == d.arenaBytes
    ensures !Searchable(d) <==> status == MALFORMED_DESCRIPTOR
    ensures Searchable(d) ==> status == OK || status == NOT_FOUND
    ensures status == OK ==>
              && row < |Components(bytes, d.components)|
              && ComponentKey(Components(bytes, d.components)[row]) == SearchKey(caseId, componentId)
    ensures Searchable(d) && StrictlyOrdered(ComponentKeys(Components(bytes, d.components))) ==>
              (status == OK <==> SearchKey(caseId, componentId) in ComponentKeys(Components(bytes, d.components)))
  {
    row := 0;
    if d.components.stride != COMPONENT_BYTES || d.components.length % COMPONENT_BYTES != 0
       || d.components.offset > d.arenaBytes || d.components.length > d.arenaBytes - d.components.offset {
      return MALFORMED_DESCRIPTOR, 0;
    }
    var entries := Components(bytes, d.components);
    ghost var keys, key := ComponentKeys(entries), SearchKey(caseId, componentId);
    var low: nat, high: nat := 0, |entries|;
    while low < high
      invariant low <= high <= |entries|
      invariant StrictlyOrdered(keys) ==> Brackets(keys, low, high, key)
    {
      var middle := low + (high - low) / 2;
      var order := CompareKey(entries[middle], caseId, componentId);
      BelowAndAbove(keys, middle, key);
      if order < 0 {
        low := middle + 1;
      } else {
        high := middle;
      }
    }
    if low < |entries| {
      var order := CompareKey(entries[low], caseId, componentId);
      CompareIsZeroIff(keys[low], key);
      if order == 0 {
        assert keys[low] in keys;
        return OK, low;
      }
    }
    if StrictlyOrdered(keys) {
      NotBracketed(keys, low, key);
    }
    return NOT_FOUND, 0;
  }

  method CompareKey(c: Component, caseId: CompactId, componentId: CompactId) returns (order: int)
    ensures order == Compare(ComponentKey(c), SearchKey(caseId, componentId))
  {
    order := CompareComponents(c, Component(caseId, componentId, 0, 0, 0));
  }

  /** Everything before `low` is below the key, everything from `high` on is not. */
  ghost predicate Brackets(keys: seq<Key>, low: nat, high: nat, key: Key)
    requires |key| == 4 && forall i :: 0 <= i < |keys| ==> |keys[i]| == 4
  {
    && low <= high <= |keys|
    && (forall i :: 0 <= i < low ==> Compare(keys[i], key) < 0)
    && (forall i :: high <= i < |keys| ==> Compare(keys[i], key) >= 0)
  }

  lemma NotBracketed(keys: seq<Key>, low: nat, key: Key)
    requires |key| == 4 && forall i :: 0 <= i < |keys| ==> |keys[i]| == 4
    requires StrictlyOrdered(keys) && Brackets(keys, low, low, key)
    requires low < |keys| ==> keys[low] != key
    ensures key !in keys
  {
    forall i | 0 <= i < |keys| ensures keys[i] != key {
      CompareIsZeroIff(keys[i], key);
      if low < |keys| {
        BelowAndAbove(keys, low, key);
      }
    }
  }

  /** Where one key of an ordered table stands decides for all before or after it. */
  lemma BelowAndAbove(keys: seq<Key>, m: nat, key: Key)
    requires m < |keys| && |key| == 4 && forall i :: 0 <= i < |keys| ==> |keys[i]| == 4
    ensures StrictlyOrdered(keys) && Compare(keys[m], key) < 0 ==> forall i :: 0 <= i <= m ==> Compare(keys[i], key) < 0
    ensures StrictlyOrdered(keys) && Compare(keys[m], key) >= 0 ==>
              forall i :: m < i < |keys| ==> Compare(keys[i], key) > 0
  {
    if StrictlyOrdered(keys) {
      forall i | 0 <= i < m && Compare(keys[m], key) < 0 ensures Compare(keys[i], key) < 0 {
        CompareTransitive(keys[i], keys[m], key);
      }
      forall i | m < i < |keys| && Compare(keys[m], key) >= 0 ensures Compare(keys[i], key) > 0 {
        CompareIsZeroIff(keys[m], key);
        CompareIsZeroIff(keys[i], keys[m]);
        CompareIsZeroIff(keys[i], key);
        CompareReverse(key, keys[m], keys[i]);
      }
    }
  }

  lemma CompareReverse(a: Key, b: Key, c: Key)
    requires |a| == |b| == |c| && Compare(a, b) <= 0 && Compare(b, c) < 0
    ensures Compare(a, c) < 0
  {
    CompareIsZeroIff(a, b);
    if a != b {
      CompareTransitive(a, b, c);
    }
  }

  /** No key occurs in two rows of an ordered table. */
  lemma KeysAreUnique(keys: seq<Key>, i: nat, j: nat)
    requires SameWidth(keys)
    requires StrictlyOrdered(keys) && i < |keys| && j < |keys| && keys[i] == keys[j]
    ensures i == j
  {
    CompareIsZeroIff(keys[i], keys[j]);
  }

  // ---------- the owned copy ----------

  function AllocationBytes(arenaBytes: U64): nat
    requires arenaBytes + (ARENA_ALIGNMENT - 1) < WORD
  {
    var rounded := And(arenaBytes + (ARENA_ALIGNMENT - 1), WORD - ARENA_ALIGNMENT, 64);
    if rounded == 0 then ARENA_ALIGNMENT else rounded
  }

  /** The allocation is a positive multiple of 64, fits a word, and holds the arena with less than 64 bytes to spare
      (unless the arena is empty). */
  lemma AllocationFits(arenaBytes: U64)
    requires arenaBytes + (ARENA_ALIGNMENT - 1) < WORD
    ensures var n := AllocationBytes(arenaBytes);
            && 0 < n < WORD && n % ARENA_ALIGNMENT == 0 && arenaBytes <= n
            && (arenaBytes > 0 ==> n < arenaBytes + ARENA_ALIGNMENT)
  {
    ClearLowBits(arenaBytes + (ARENA_ALIGNMENT - 1));
  }

  /** `arena_create`; `address` is where the allocator puts the copy, None if it has no memory left. */
  method ArenaCreate(d: Descriptor, a: Arena, address: Option<U64>) returns (status: Status, owned: Option<Arena>)
    requires |a.bytes| < WORD
    requires address.Some? ==> address.value % ARENA_ALIGNMENT == 0
    ensures |a.bytes| > WORD - 1 - (ARENA_ALIGNMENT - 1) ==> status == INVALID_ARGUMENT
    ensures |a.bytes| <= WORD - 1 - (ARENA_ALIGNMENT - 1) ==>
              status == if ValidationStatus(d, a) != OK then ValidationStatus(d, a)
                        else if address.None? then OUT_OF_MEMORY
                        else ValidationStatus(d, Arena(address.value, a.bytes))
    ensures owned == if status == OK && address.Some? then Some(Arena(address.value, a.bytes)) else None
    ensures owned.Some? ==> ValidationStatus(d, owned.value) == OK
  {
    if |a.bytes| > WORD - 1 - (ARENA_ALIGNMENT - 1) {
      return INVALID_ARGUMENT, None;
    }
    status := Validate(d, a);
    if status != OK {
      return status, None;
    }
    var allocation := AllocationBytes(|a.bytes|);
    AllocationFits(|a.bytes|);
    if address.None? {
      return OUT_OF_MEMORY, None;
    }
    var copy := Arena(address.value, a.bytes);
    status := Validate(d, copy);
    if status != OK {
      return status, None;
    }
    return OK, Some(copy);
  }

  // ---------- the copy validates again ----------

  ghost predicate Divides(alignment: nat, address: nat) {
    alignment != 0 && address % alignment == 0
  }

  ghost predicate AlignsAll(d: Descriptor, address: U64) {
    && Divides(d.symbols.alignment, address) && Divides(d.components.alignment, address)
    && Divides(d.edges.alignment, address) && Divides(d.evidence.alignment, address)
    && Divides(d.metadata.alignment, address)
  }

  /** Adding an aligned offset leaves alignment as it is. */
  lemma AlignmentIsOfAddress(address: nat, offset: nat, v: nat)
    requires v > 0 && offset % v == 0
    ensures (address + offset) % v == 0 <==> address % v == 0
  {
    Euclid(address, v);
    Euclid(offset, v);
    Euclid(address + offset, v);
    if address % v == 0 {
      CombinedDivides(address / v, offset / v, 0, v, address + offset);
    }
    if (address + offset) % v == 0 {
      CombinedDivides((address + offset) / v, 0, offset / v, v, address);
    }
  }

  lemma RegionCopies(r: Region, a: Arena, address: U64, stride: nat, minimum: nat)
    ensures RegionStatus(r, a, stride, minimum) == OK ==>
              (RegionStatus(r, Arena(address, a.bytes), stride, minimum) == OK <==> Divides(r.alignment, address))
  {
    if IsPowerOfTwo(r.alignment) && r.offset % r.alignment == 0 {
      AlignmentIsOfAddress(address, r.offset, r.alignment);
    }
  }

  /** The copy of a bundle that validates does too, exactly if its address suits every region. */
  lemma CopyValidatesIff(d: Descriptor, a: Arena, address: U64)
    ensures ValidationStatus(d, a) == OK ==>
              (ValidationStatus(d, Arena(address, a.bytes)) == OK <==> AlignsAll(d, address))
  {
    RegionCopies(d.symbols, a, address, SYMBOL_BYTES, ENTRY_ALIGNMENT);
    RegionCopies(d.components, a, address, COMPONENT_BYTES, ENTRY_ALIGNMENT);
    RegionCopies(d.edges, a, address, EDGE_BYTES, ENTRY_ALIGNMENT);
    RegionCopies(d.evidence, a, address, EVIDENCE_BYTES, ENTRY_ALIGNMENT);
    RegionCopies(d.metadata, a, address, 0, 1);
  }

  /** All regions are aligned to at most 64 bytes, which is what the allocator promises. */
  predicate ModestAlignments(d: Descriptor) {
    && d.symbols.alignment <= ARENA_ALIGNMENT && d.components.alignment <= ARENA_ALIGNMENT
    && d.edges.alignment <= ARENA_ALIGNMENT && d.evidence.alignment <= ARENA_ALIGNMENT
    && d.metadata.alignment <= ARENA_ALIGNMENT
  }

  /** With regions aligned to at most 64 any copy at a multiple of 64 validates. */
  lemma ModestAlignmentsCopy(d: Descriptor, a: Arena, address: U64)
    requires address % ARENA_ALIGNMENT == 0 && ModestAlignments(d)
    ensures ValidationStatus(d, a) == OK ==> ValidationStatus(d, Arena(address, a.bytes)) == OK
  {
    if ValidationStatus(d, a) == OK {
      CopyValidatesIff(d, a, address);
      SmallAlignment(d.symbols.alignment, address);
      SmallAlignment(d.components.alignment, address);
      SmallAlignment(d.edges.alignment, address);
      SmallAlignment(d.evidence.alignment, address);
      SmallAlignment(d.metadata.alignment, address);
    }
  }

  /** A bundle that is valid where it is can be copied to whatever address the allocator gives exactly if no region is
      aligned to more than 64 bytes. */
  lemma EveryCopyValidatesIff(d: Descriptor, a: Arena)
    ensures ValidationStatus(d, a) == OK ==>
              (ValidEverywhere(d, a.bytes) <==> ModestAlignments(d))
  {
    if ValidationStatus(d, a) == OK {
      if ModestAlignments(d) {
        forall address: U64 | address % ARENA_ALIGNMENT == 0
          ensures ValidationStatus(d, Arena(address, a.bytes)) == OK
        {
          ModestAlignmentsCopy(d, a, address);
        }
      } else {
        CopyFailsAt(d, a, ARENA_ALIGNMENT);
        assert ARENA_ALIGNMENT % ARENA_ALIGNMENT == 0;
      }
    }
  }

  /** The bytes are a valid bundle at every address the allocator can give. */
  ghost predicate ValidEverywhere(d: Descriptor, bytes: seq<Byte>) {
    forall address: U64 :: address % ARENA_ALIGNMENT == 0 ==> ValidationStatus(d, Arena(address, bytes)) == OK
  }

  /** A bundle without rows whose symbols are aligned to 128 bytes, in an arena at address 128. */
  function WideBundle(): Descriptor {
    var table := Region(0, 0, SYMBOL_BYTES, 128);
    Descriptor(256, 3, 1, 0, 0, ZERO_BYTES[0 := 1], 0, table, Region(0, 0, COMPONENT_BYTES, 16),
               Region(0, 0, EDGE_BYTES, 16), Region(0, 0, EVIDENCE_BYTES, 16), Region(0, 0, 1, 1), [])
  }

  /** It is valid where it is, and invalid as a copy at address 64. */
  lemma WideBundleFailsAsCopy()
    ensures ValidationStatus(WideBundle(), Arena(128, [])) == OK
    ensures ValidationStatus(WideBundle(), Arena(64, [])) != OK
  {
    Pow2Is();
    NoCommonBitsIff(128, 32);
    NoCommonBitsIff(16, 32);
    NoCommonBitsIff(1, 32);
    assert PowerOfTwo(16) && PowerOfTwo(128);
    var d := WideBundle();
    assert d.digest[0] != ZERO_BYTES[0];
    assert HeaderStatus(d, 0) == OK;
    assert RegionsStatus(d, Arena(128, [])) == OK;
    assert Symbols([], d.symbols) == [] && Components([], d.components) == [];
    assert Edges([], d.edges) == [] && EvidenceRows([], d.evidence) == [];
    CopyFailsAt(d, Arena(128, []), 64);
  }

  function WidestAlignment(d: Descriptor): int {
    Max(d.symbols.alignment, Max(d.components.alignment, Max(d.edges.alignment,
        Max(d.evidence.alignment, d.metadata.alignment))))
  }

  /** At an address below one of its alignments a copy is invalid. */
  lemma CopyFailsAt(d: Descriptor, a: Arena, address: U64)
    requires 0 < address < WidestAlignment(d)
    ensures ValidationStatus(d, a) == OK ==> ValidationStatus(d, Arena(address, a.bytes)) != OK
  {
    CopyValidatesIff(d, a, address);
    NotBelow(address, d.symbols.alignment);
    NotBelow(address, d.components.alignment);
    NotBelow(address, d.edges.alignment);
    NotBelow(address, d.evidence.alignment);
    NotBelow(address, d.metadata.alignment);
  }

  lemma NotBelow(address: nat, v: nat)
    requires address > 0
    ensures v > address ==> !Divides(v, address)
  {
  }

  lemma SmallAlignment(v: U32, address: U64)
    requires IsPowerOfTwo(v) && v <= 64 && address % 64 == 0
    ensures Divides(v, address)
  {
    Pow2Is();
    NoCommonBitsIff(v, 32);
    SmallPowersDivide(v);
    DividesThrough(v, 64, address);
  }

  lemma DividesThrough(v: nat, w: nat, x: nat)
    requires v > 0 && w > 0 && w % v == 0 && x % w == 0
    ensures x % v == 0
  {
    Euclid(w, v);
    Euclid(x, w);
    Associate(x / w, w / v, v);
    MultipleDivides((x / w) * (w / v), v, x);
  }

}
