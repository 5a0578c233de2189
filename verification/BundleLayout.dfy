/** What a valid bundle is, in terms of its bytes: where each column of a row lies, what every part must satisfy, and
    that validation accepts exactly the bundles that satisfy it. */
module BundleLayout {
  import opened Basics
  import opened BitArithmetic
  import opened LittleEndian
  import opened BundleV1

  // ---------- rows ----------

  function IdBytes(id: CompactId): (b: seq<Byte>)
    ensures |b| == 16
  {
    Bytes(id.high, 8) + Bytes(id.low, 8)
  }

  /** A symbol row; `kind` is a column that validation does not look at. */
  function SymbolRow(s: Symbol, kind: seq<Byte>): seq<Byte> {
    IdBytes(s.id) + (Bytes(s.byteOffset, 8) + (Bytes(s.byteLength, 4) + (kind + Bytes(s.flags, 2))))
  }

  /** A component row; between its key and its flags are nine more ids and the composition order. */
  function ComponentRow(c: Component, columns: seq<Byte>): seq<Byte> {
    IdBytes(c.caseId) + (IdBytes(c.componentId)
                         + (columns + (Bytes(c.flags, 4) + (Bytes(c.reserved0, 4) + Bytes(c.reserved1, 8)))))
  }

  function EdgeRow(e: Edge): seq<Byte> {
    IdBytes(e.caseId) + (IdBytes(e.source) + (IdBytes(e.target) + (IdBytes(e.relation) + EdgeTail(e))))
  }

  function EdgeTail(e: Edge): (b: seq<Byte>)
    ensures |b| == 16
  {
    Bytes(e.order, 8) + (Bytes(e.flags, 4) + Bytes(e.reserved0, 4))
  }

  /** An evidence row; between its key and its flags are three more ids and the composition order. */
  function EvidenceRow(e: Evidence, columns: seq<Byte>): seq<Byte> {
    IdBytes(e.caseId) + (IdBytes(e.obligation) + (columns + (Bytes(e.flags, 4) + Bytes(e.reserved0, 4))))
  }

  /** `b` has `piece` at position `at`. */
  ghost predicate Has(b: seq<Byte>, at: nat, piece: seq<Byte>) {
    at + |piece| <= |b| && b[at..at + |piece|] == piece
  }

  lemma HasParts(b: seq<Byte>, at: nat, piece: seq<Byte>, rest: seq<Byte>)
    requires Has(b, at, piece + rest)
    ensures Has(b, at, piece) && Has(b, at + |piece|, rest)
  {
    var n := |piece|;
    var whole := b[at..at + |piece + rest|];
    assert whole[..n] == piece && whole[n..] == rest;
    assert whole[..n] == b[at..at + n] && whole[n..] == b[at + n..at + n + |rest|];
  }

  lemma WordsRead()
    ensures forall v: U64 :: ReadU64(Bytes(v, 8)) == v
    ensures forall v: U32 :: ReadU32(Bytes(v, 4)) == v
    ensures forall v: nat :: v < 0x1_0000 ==> Word(Bytes(v, 2)) == v
  {
    assert Pow(256, 2) == 0x1_0000;
    assert Pow(256, 4) == 0x1_0000_0000;
    assert Pow(256, 8) == WORD;
    forall v: U64 ensures ReadU64(Bytes(v, 8)) == v {
      WordOfBytes(v, 8);
    }
    forall v: U32 ensures ReadU32(Bytes(v, 4)) == v {
      WordOfBytes(v, 4);
    }
    forall v: nat | v < 0x1_0000 ensures Word(Bytes(v, 2)) == v {
      WordOfBytes(v, 2);
    }
  }

  /** The id at the front of a piece, and what follows it. */
  lemma IdReadsBack(b: seq<Byte>, at: nat, id: CompactId, rest: seq<Byte>)
    requires Has(b, at, IdBytes(id) + rest)
    ensures at + 16 <= |b| && IdAt(b, at) == id && Has(b, at + 16, rest)
  {
    WordsRead();
    HasParts(b, at, IdBytes(id), rest);
    HasParts(b, at, Bytes(id.high, 8), Bytes(id.low, 8));
  }

  /** Every column is read from its place in the row. */
  lemma SymbolReadsBack(b: seq<Byte>, at: nat, s: Symbol, kind: seq<Byte>)
    requires |kind| == 2 && s.byteLength < 0x1_0000_0000 && s.flags < 0x1_0000
    requires Has(b, at, SymbolRow(s, kind))
    ensures |SymbolRow(s, kind)| == 32 && SymbolAt(b, at) == s
  {
    WordsRead();
    IdReadsBack(b, at, s.id, Bytes(s.byteOffset, 8) + (Bytes(s.byteLength, 4) + (kind + Bytes(s.flags, 2))));
    HasParts(b, at + 16, Bytes(s.byteOffset, 8), Bytes(s.byteLength, 4) + (kind + Bytes(s.flags, 2)));
    HasParts(b, at + 24, Bytes(s.byteLength, 4), kind + Bytes(s.flags, 2));
    HasParts(b, at + 28, kind, Bytes(s.flags, 2));
  }

  lemma ComponentReadsBack(b: seq<Byte>, at: nat, c: Component, columns: seq<Byte>)
    requires |columns| == 9 * 16 + 8 && c.flags < 0x1_0000_0000 && c.reserved0 < 0x1_0000_0000 && c.reserved1 < WORD
    requires Has(b, at, ComponentRow(c, columns))
    ensures |ComponentRow(c, columns)| == 200 && ComponentAt(b, at) == c
  {
    WordsRead();
    var last := Bytes(c.reserved0, 4) + Bytes(c.reserved1, 8);
    IdReadsBack(b, at, c.caseId, IdBytes(c.componentId) + (columns + (Bytes(c.flags, 4) + last)));
    IdReadsBack(b, at + 16, c.componentId, columns + (Bytes(c.flags, 4) + last));
    HasParts(b, at + 32, columns, Bytes(c.flags, 4) + last);
    HasParts(b, at + 184, Bytes(c.flags, 4), last);
    HasParts(b, at + 188, Bytes(c.reserved0, 4), Bytes(c.reserved1, 8));
  }

  lemma EdgeReadsBack(b: seq<Byte>, at: nat, e: Edge)
    requires e.flags < 0x1_0000_0000 && e.reserved0 < 0x1_0000_0000
    requires Has(b, at, EdgeRow(e))
    ensures |EdgeRow(e)| == 80 && EdgeAt(b, at) == e
  {
    WordsRead();
    IdReadsBack(b, at, e.caseId, IdBytes(e.source) + (IdBytes(e.target) + (IdBytes(e.relation) + EdgeTail(e))));
    IdReadsBack(b, at + 16, e.source, IdBytes(e.target) + (IdBytes(e.relation) + EdgeTail(e)));
    IdReadsBack(b, at + 32, e.target, IdBytes(e.relation) + EdgeTail(e));
    IdReadsBack(b, at + 48, e.relation, EdgeTail(e));
    HasParts(b, at + 64, Bytes(e.order, 8), Bytes(e.flags, 4) + Bytes(e.reserved0, 4));
    HasParts(b, at + 72, Bytes(e.flags, 4), Bytes(e.reserved0, 4));
  }

  lemma EvidenceReadsBack(b: seq<Byte>, at: nat, e: Evidence, columns: seq<Byte>)
    requires |columns| == 3 * 16 + 8 && e.flags < 0x1_0000_0000 && e.reserved0 < 0x1_0000_0000
    requires Has(b, at, EvidenceRow(e, columns))
    ensures |EvidenceRow(e, columns)| == 96 && EvidenceAt(b, at) == e
  {
    WordsRead();
    var last := Bytes(e.flags, 4) + Bytes(e.reserved0, 4);
    IdReadsBack(b, at, e.caseId, IdBytes(e.obligation) + (columns + last));
    IdReadsBack(b, at + 16, e.obligation, columns + last);
    HasParts(b, at + 32, columns, last);
    HasParts(b, at + 88, Bytes(e.flags, 4), Bytes(e.reserved0, 4));
  }

  // ---------- the parts of a bundle ----------

  /** The region lies in the arena, and its offset and its address are multiples of its alignment, a power of two that
      is not too small. A table is made of whole rows; bytes have stride 1. */
  ghost predicate Lies(r: Region, a: Arena, rowBytes: nat, minimum: nat) {
    && r.offset + r.length <= |a.bytes|
    && r.alignment >= minimum && PowerOfTwo(r.alignment)
    && r.offset % r.alignment == 0 && (a.address + r.offset) % r.alignment == 0
    && if rowBytes == 0 then r.stride == 1 else r.stride == rowBytes && r.length % rowBytes == 0
  }

  lemma RegionIs(r: Region, a: Arena, rowBytes: nat, minimum: nat)
    ensures RegionStatus(r, a, rowBytes, minimum) == OK <==> Lies(r, a, rowBytes, minimum)
    ensures RegionStatus(r, a, rowBytes, minimum) == REGION_BOUNDS <==> r.offset + r.length > |a.bytes|
    ensures RegionStatus(r, a, rowBytes, minimum) in {OK, REGION_BOUNDS, REGION_LAYOUT}
  {
    if r.alignment > 0 {
      Pow2Is();
      NoCommonBitsIff(r.alignment, 32);
    }
  }

  /** A descriptor of schema 1.0 with the two required flags, nothing in its reserved fields, the length of the arena
      and a digest. */
  ghost predicate Headed(d: Descriptor, bytes: nat) {
    && Schema(d)
    && d.flags % 2 == 1 && d.flags / 2 % 2 == 1 && d.arenaBytes == bytes
    && d.reserved0 == 0 && (forall i :: 0 <= i < |d.reserved| ==> d.reserved[i] == 0)
    && exists i :: 0 <= i < 32 && d.digest[i] != 0
  }

  ghost predicate Schema(d: Descriptor) {
    d.structSize >= 256 && d.schemaMajor == 1 && d.schemaMinor == 0
  }

  lemma HeaderIs(d: Descriptor, bytes: nat)
    ensures HeaderStatus(d, bytes) == OK <==> Headed(d, bytes)
    ensures HeaderStatus(d, bytes) == INCOMPATIBLE_SCHEMA <==> !Schema(d)
    ensures HeaderStatus(d, bytes) in {OK, INCOMPATIBLE_SCHEMA, MALFORMED_DESCRIPTOR}
  {
    assert forall i :: 0 <= i < 32 ==> ZERO_BYTES[i] == 0;
    if forall i :: 0 <= i < 32 ==> d.digest[i] == 0 {
      assert d.digest == ZERO_BYTES;
    }
  }

  // ---------- order ----------

  /** Keys are ordered by the first column in which they differ. */
  ghost predicate Below(a: Key, b: Key) {
    exists i :: 0 <= i < |a| && i < |b| && a[..i] == b[..i] && a[i] < b[i]
  }

  lemma {:induction false} CompareIs(a: Key, b: Key)
    requires |a| == |b|
    ensures Compare(a, b) < 0 <==> Below(a, b)
  {
    if |a| > 0 {
      CompareIs(a[1..], b[1..]);
      if a[0] == b[0] && Below(a[1..], b[1..]) {
        var i :| 0 <= i < |a| - 1 && a[1..][..i] == b[1..][..i] && a[1..][i] < b[1..][i];
        assert a[..i + 1] == [a[0]] + a[1..][..i] && b[..i + 1] == [b[0]] + b[1..][..i];
        assert a[i + 1] < b[i + 1];
      }
      if Below(a, b) {
        var i :| 0 <= i < |a| && a[..i] == b[..i] && a[i] < b[i];
        if i == 0 {
          assert Compare(a, b) == -1;
        } else {
          assert a[0] == a[..i][0] == b[..i][0] == b[0];
          assert a[1..][..i - 1] == a[..i][1..] == b[..i][1..] == b[1..][..i - 1];
          assert a[1..][i - 1] < b[1..][i - 1];
        }
      }
    }
  }

  /** The first bad row of a table decides: by itself, or because its key repeats or falls below the one before. */
  lemma TableStatusIs(row: seq<Status>, keys: seq<Key>) returns (n: nat)
    requires |row| == |keys| && SameWidth(keys) && TableStatus(row, keys) != OK
    ensures n < |row| && (forall i :: 0 <= i < n ==> row[i] == OK) && OrderedTo(keys, n)
    ensures row[n] != OK ==> TableStatus(row, keys) == row[n]
    ensures row[n] == OK ==> n > 0 && !Below(keys[n - 1], keys[n])
    ensures row[n] == OK ==>
              TableStatus(row, keys) == if keys[n - 1] == keys[n] then DUPLICATE_KEY else UNSORTED_TABLE
  {
    n := FirstBad(row, keys, |row|);
    RowsPassIff(row, keys, n);
    if n > 0 {
      CompareIs(keys[n - 1], keys[n]);
      CompareIsZeroIff(keys[n - 1], keys[n]);
    }
  }

  lemma {:induction false} FirstBad(row: seq<Status>, keys: seq<Key>, m: nat) returns (n: nat)
    requires m <= |row| == |keys| && SameWidth(keys) && FirstComplaint(row, keys, m) != OK
    ensures n < m && FirstComplaint(row, keys, n) == OK
    ensures FirstComplaint(row, keys, m) == RowComplaint(row, keys, n) != OK
  {
    if FirstComplaint(row, keys, m - 1) == OK {
      n := m - 1;
    } else {
      n := FirstBad(row, keys, m - 1);
    }
  }

  // ---------- valid bundles ----------

  ghost predicate SymbolFits(s: Symbol, metadata: nat) {
    s.flags == 0 && s.byteOffset + s.byteLength <= metadata
  }

  ghost predicate ComponentFits(c: Component) {
    c.flags in {0, 1} && c.reserved0 == 0 && c.reserved1 == 0
  }

  lemma RowStatusesAre(s: Symbol, metadata: U64, c: Component, e: Edge, v: Evidence)
    ensures SymbolStatus(s, metadata) == if SymbolFits(s, metadata) then OK else REGION_BOUNDS
    ensures ComponentStatus(c) == if ComponentFits(c) then OK else MALFORMED_DESCRIPTOR
    ensures EdgeStatus(e) == if e.flags == e.reserved0 == 0 then OK else MALFORMED_DESCRIPTOR
    ensures EvidenceStatus(v) == if v.flags == v.reserved0 == 0 then OK else MALFORMED_DESCRIPTOR
  {
  }

  /** Keys are below each other in row order, whatever their distance. */
  ghost predicate Ascends(keys: seq<Key>) {
    forall i, j :: 0 <= i < j < |keys| ==> Below(keys[i], keys[j])
  }

  lemma AscendsIff(keys: seq<Key>)
    requires SameWidth(keys)
    ensures StrictlyOrdered(keys) <==> Ascends(keys)
  {
    forall i, j | 0 <= i < j < |keys| ensures Compare(keys[i], keys[j]) < 0 <==> Below(keys[i], keys[j]) {
      CompareIs(keys[i], keys[j]);
    }
  }

  ghost predicate RegionsLie(d: Descriptor, a: Arena) {
    && Lies(d.symbols, a, 32, 8) && Lies(d.components, a, 200, 8) && Lies(d.edges, a, 80, 8)
    && Lies(d.evidence, a, 96, 8) && Lies(d.metadata, a, 0, 1)
  }

  ghost predicate RowsFit(d: Descriptor, b: seq<Byte>)
    requires RegionsInBounds(d, |b|)
  {
    && (forall s :: s in Symbols(b, d.symbols) ==> SymbolFits(s, d.metadata.length))
    && (forall c :: c in Components(b, d.components) ==> ComponentFits(c))
    && (forall e :: e in Edges(b, d.edges) ==> e.flags == e.reserved0 == 0)
    && (forall e :: e in EvidenceRows(b, d.evidence) ==> e.flags == e.reserved0 == 0)
  }

  ghost predicate TablesAscend(d: Descriptor, b: seq<Byte>)
    requires RegionsInBounds(d, |b|)
  {
    && Ascends(SymbolKeys(Symbols(b, d.symbols))) && Ascends(ComponentKeys(Components(b, d.components)))
    && Ascends(EdgeKeys(Edges(b, d.edges))) && Ascends(EvidenceKeys(EvidenceRows(b, d.evidence)))
  }

  lemma RegionsAre(d: Descriptor, a: Arena)
    ensures RegionsStatus(d, a) == OK <==> RegionsLie(d, a)
    ensures RegionsLie(d, a) ==> RegionsInBounds(d, |a.bytes|)
  {
    RegionIs(d.symbols, a, 32, 8);
    RegionIs(d.components, a, 200, 8);
    RegionIs(d.edges, a, 80, 8);
    RegionIs(d.evidence, a, 96, 8);
    RegionIs(d.metadata, a, 0, 1);
  }

  lemma TablesAre(d: Descriptor, b: seq<Byte>)
    requires RegionsInBounds(d, |b|)
    ensures TablesStatus(d, b) == OK <==> RowsFit(d, b) && TablesAscend(d, b)
  {
    SymbolsAre(Symbols(b, d.symbols), d.metadata.length);
    ComponentsAre(Components(b, d.components));
    EdgesAre(Edges(b, d.edges));
    EvidenceAre(EvidenceRows(b, d.evidence));
  }

  lemma SymbolsAre(t: seq<Symbol>, metadata: U64)
    ensures SymbolTable(t, metadata) == OK
       <==> (forall s :: s in t ==> SymbolFits(s, metadata)) && Ascends(SymbolKeys(t))
  {
    SymbolTablePassesIff(t, metadata);
    AscendsIff(SymbolKeys(t));
    forall s | s in t ensures SymbolStatus(s, metadata) == OK <==> SymbolFits(s, metadata) {
    }
  }

  lemma ComponentsAre(t: seq<Component>)
    ensures ComponentTable(t) == OK <==> (forall c :: c in t ==> ComponentFits(c)) && Ascends(ComponentKeys(t))
  {
    ComponentTablePassesIff(t);
    AscendsIff(ComponentKeys(t));
    forall c | c in t ensures ComponentStatus(c) == OK <==> ComponentFits(c) {
    }
  }

  lemma EdgesAre(t: seq<Edge>)
    ensures EdgeTable(t) == OK <==> (forall e :: e in t ==> e.flags == e.reserved0 == 0) && Ascends(EdgeKeys(t))
  {
    EdgeTablePassesIff(t);
    AscendsIff(EdgeKeys(t));
    forall e | e in t ensures EdgeStatus(e) == OK <==> e.flags == e.reserved0 == 0 {
    }
  }

  lemma EvidenceAre(t: seq<Evidence>)
    ensures EvidenceTable(t) == OK
       <==> (forall e :: e in t ==> e.flags == e.reserved0 == 0) && Ascends(EvidenceKeys(t))
  {
    EvidenceTablePassesIff(t);
    AscendsIff(EvidenceKeys(t));
    forall e | e in t ensures EvidenceStatus(e) == OK <==> e.flags == e.reserved0 == 0 {
    }
  }

  /** Validation accepts exactly the bundles whose header, regions, rows and tables are as they should be. */
  lemma ValidIff(d: Descriptor, a: Arena)
    ensures ValidationStatus(d, a) == OK
       <==> Headed(d, |a.bytes|) && RegionsLie(d, a) && RowsFit(d, a.bytes) && TablesAscend(d, a.bytes)
  {
    HeaderIs(d, |a.bytes|);
    RegionsAre(d, a);
    if RegionsStatus(d, a) == OK {
      TablesAre(d, a.bytes);
    }
  }

  /** Lookup needs whole component rows inside the arena, and nothing else of what validation checks. */
  lemma SearchableIs(d: Descriptor, a: Arena)
    ensures Searchable(d)
       <==> d.components.stride == 200 && d.components.length % 200 == 0
            && d.components.offset + d.components.length <= d.arenaBytes
    ensures ValidationStatus(d, a) == OK ==> Searchable(d)
  {
    ValidIff(d, a);
  }

  /** A bundle that is refused is refused for the first part that is not: the header, then the regions in the order
      symbols, components, edges, evidence, metadata, then the tables in that order. */
  lemma RefusedFor(d: Descriptor, a: Arena)
    ensures !Headed(d, |a.bytes|) ==> ValidationStatus(d, a) == HeaderStatus(d, |a.bytes|)
    ensures Headed(d, |a.bytes|) && !RegionsLie(d, a) ==>
              ValidationStatus(d, a)
              == if !Lies(d.symbols, a, 32, 8) then RegionStatus(d.symbols, a, 32, 8)
                 else if !Lies(d.components, a, 200, 8) then RegionStatus(d.components, a, 200, 8)
                 else if !Lies(d.edges, a, 80, 8) then RegionStatus(d.edges, a, 80, 8)
                 else if !Lies(d.evidence, a, 96, 8) then RegionStatus(d.evidence, a, 96, 8)
                 else RegionStatus(d.metadata, a, 0, 1)
    ensures Headed(d, |a.bytes|) && RegionsLie(d, a) ==>
              var symbols, components := Symbols(a.bytes, d.symbols), Components(a.bytes, d.components);
              var edges, evidence := Edges(a.bytes, d.edges), EvidenceRows(a.bytes, d.evidence);
              ValidationStatus(d, a)
              == if SymbolTable(symbols, d.metadata.length) != OK then SymbolTable(symbols, d.metadata.length)
                 else if ComponentTable(components) != OK then ComponentTable(components)
                 else if EdgeTable(edges) != OK then EdgeTable(edges)
                 else EvidenceTable(evidence)
  {
    HeaderIs(d, |a.bytes|);
    RegionsAre(d, a);
    RegionIs(d.symbols, a, 32, 8);
    RegionIs(d.components, a, 200, 8);
    RegionIs(d.edges, a, 80, 8);
    RegionIs(d.evidence, a, 96, 8);
    RegionIs(d.metadata, a, 0, 1);
  }

  /** Row `i` of a table starts `i` rows after the region does. */
  lemma RowsAre(b: seq<Byte>, d: Descriptor, i: nat)
    requires RegionsInBounds(d, |b|)
    ensures i < |Symbols(b, d.symbols)| ==> Symbols(b, d.symbols)[i] == SymbolAt(b, d.symbols.offset + 32 * i)
    ensures i < |Components(b, d.components)| ==>
              Components(b, d.components)[i] == ComponentAt(b, d.components.offset + 200 * i)
    ensures i < |Edges(b, d.edges)| ==> Edges(b, d.edges)[i] == EdgeAt(b, d.edges.offset + 80 * i)
    ensures i < |EvidenceRows(b, d.evidence)| ==>
              EvidenceRows(b, d.evidence)[i] == EvidenceAt(b, d.evidence.offset + 96 * i)
  {
  }
}
