/** The length-framed packets whose SHA-256 gives leaf and node digests.
    `sha` stands for SHA-256 of the UTF-8 form of a text, written in hexadecimal. */
module EvidencePacket {
  import opened Decimal

  const LEAF_DOMAIN := "poo-flow.batched-evidence-leaf.draft.1|"
  const NODE_DOMAIN := "poo-flow.batched-merkle-node.draft.1|"

  /** A field is a text or a non-negative integer; the packet does not record which. */
  datatype Field = Text(text: string) | Number(number: nat)

  datatype Leaf = Leaf(
    leafId: string, index: nat, nonce: string, first: nat, last: nat, payload: string,
    semanticRoot: string, previousRoot: string, observation: string, outcome: string)

  /** The number of bytes of a character in UTF-8. */
  function Utf8Width(c: char): nat {
    if c as int < 0x80 then 1 else if c as int < 0x800 then 2 else if c as int < 0x1_0000 then 3 else 4
  }

  function Utf8Length(s: string): nat {
    if |s| == 0 then 0 else Utf8Width(s[0]) + Utf8Length(s[1..])
  }

  function FieldText(f: Field): string {
    match f
    case Text(text) => text
    case Number(number) => Digits(number)
  }

  function Frame(f: Field): string {
    Digits(Utf8Length(FieldText(f))) + ":" + FieldText(f)
  }

  function Frames(fields: seq<Field>): string {
    if |fields| == 0 then "" else Frame(fields[0]) + Frames(fields[1..])
  }

  function Packet(domain: string, fields: seq<Field>): string {
    domain + Frames(fields)
  }

  /** The ten fields of a leaf, in the order in which they are hashed. */
  function LeafFields(l: Leaf): seq<Field> {
    [Text(l.leafId), Number(l.index), Text(l.nonce), Number(l.first), Number(l.last), Text(l.payload),
     Text(l.semanticRoot), Text(l.previousRoot), Text(l.observation), Text(l.outcome)]
  }

  function LeafDigest(l: Leaf, sha: string -> string): string {
    sha(Packet(LEAF_DOMAIN, LeafFields(l)))
  }

  function NodeDigest(left: string, right: string, sha: string -> string): string {
    sha(Packet(NODE_DOMAIN, [Text(left), Text(right)]))
  }

  // ---------- what a packet determines ----------

  predicate SameKinds(a: seq<Field>, b: seq<Field>) {
    |a| == |b| && forall i :: 0 <= i < |a| ==> a[i].Text? == b[i].Text?
  }

  /** Of two texts at the head of the same string, equal byte lengths mean equal texts. */
  lemma {:induction false} TextsSplit(a: string, b: string, u: string, v: string)
    requires a + u == b + v && Utf8Length(a) == Utf8Length(b)
    ensures a == b && u == v
  {
    if |a| > 0 && |b| > 0 {
      assert a[0] == (a + u)[0] == (b + v)[0] == b[0];
      assert a[1..] + u == (a + u)[1..] == (b + v)[1..] == b[1..] + v;
      TextsSplit(a[1..], b[1..], u, v);
      assert a == [a[0]] + a[1..] && b == [b[0]] + b[1..];
    } else {
      assert a + u == u && b + v == v;
    }
  }

  lemma FrameSplits(f: Field, g: Field, u: string, v: string)
    requires Frame(f) + u == Frame(g) + v
    ensures FieldText(f) == FieldText(g) && u == v
  {
    FramedTextsSplit(Digits(Utf8Length(FieldText(f))), FieldText(f), u);
    FramedTextsSplit(Digits(Utf8Length(FieldText(g))), FieldText(g), v);
    DigitsSplit(Utf8Length(FieldText(f)), Utf8Length(FieldText(g)),
                [':'] + (FieldText(f) + u), [':'] + (FieldText(g) + v));
    assert FieldText(f) + u == ([':'] + (FieldText(f) + u))[1..];
    assert FieldText(g) + v == ([':'] + (FieldText(g) + v))[1..];
    TextsSplit(FieldText(f), FieldText(g), u, v);
  }

  lemma FramedTextsSplit(d: string, s: string, u: string)
    ensures d + ":" + s + u == d + ([':'] + (s + u))
  {
  }

  /** Frames are equal exactly for lists whose field texts are equal one by one. */
  lemma {:induction false} FramesEqualIff(a: seq<Field>, b: seq<Field>)
    ensures Frames(a) == Frames(b) <==> SameTexts(a, b)
  {
    if |a| > 0 && |b| > 0 {
      FramesEqualIff(a[1..], b[1..]);
      if Frames(a) == Frames(b) {
        FrameSplits(a[0], b[0], Frames(a[1..]), Frames(b[1..]));
        assert forall i :: 0 < i < |a| ==> a[i] == a[1..][i - 1] && b[i] == b[1..][i - 1];
      }
      if SameTexts(a, b) {
        assert SameTexts(a[1..], b[1..]);
      }
    }
  }

  predicate SameTexts(a: seq<Field>, b: seq<Field>) {
    |a| == |b| && forall i :: 0 <= i < |a| ==> FieldText(a[i]) == FieldText(b[i])
  }

  /** So lists whose kinds agree position by position are told apart by their frames. */
  lemma FramesInjective(a: seq<Field>, b: seq<Field>)
    requires SameKinds(a, b) && Frames(a) == Frames(b)
    ensures a == b
  {
    FramesEqualIff(a, b);
    forall i | 0 <= i < |a| ensures a[i] == b[i] {
      if a[i].Number? {
        DigitsInjective(a[i].number, b[i].number);
      }
    }
  }

  /** Which fields of a list are texts. */
  function Kinds(fields: seq<Field>): (kinds: seq<bool>)
    ensures |kinds| == |fields|
  {
    seq(|fields|, i requires 0 <= i < |fields| => fields[i].Text?)
  }

  lemma KindsAgree(a: seq<Field>, b: seq<Field>)
    ensures Kinds(a) == Kinds(b) <==> SameKinds(a, b)
  {
    if Kinds(a) == Kinds(b) {
      forall i | 0 <= i < |a| ensures a[i].Text? == b[i].Text? {
        assert Kinds(a)[i] == Kinds(b)[i];
      }
    }
  }

  /** Lists of these kinds and of those are told apart by their frames. */
  ghost predicate ToldApart(kinds: seq<bool>, kinds': seq<bool>) {
    forall a, b :: Kinds(a) == kinds && Kinds(b) == kinds' && Frames(a) == Frames(b) ==> a == b
  }

  /** Kinds need to be known exactly where lengths do not give the lists away: frames tell lists of given kinds apart
      exactly if the kinds agree position by position or the lists differ in length. */
  lemma ToldApartIff(kinds: seq<bool>, kinds': seq<bool>)
    ensures ToldApart(kinds, kinds') <==> kinds == kinds' || |kinds| != |kinds'|
  {
    forall a, b | Kinds(a) == kinds && Kinds(b) == kinds' && Frames(a) == Frames(b) ensures kinds == kinds' ==> a == b
    {
      if kinds == kinds' {
        KindsAgree(a, b);
        FramesInjective(a, b);
      }
    }
    forall a, b | Kinds(a) == kinds && Kinds(b) == kinds' && Frames(a) == Frames(b) ensures |kinds| == |kinds'| {
      FramesEqualIff(a, b);
    }
    if kinds != kinds' && |kinds| == |kinds'| {
      var a, b := Zeros(kinds), Zeros(kinds');
      FramesEqualIff(a, b);
      assert Kinds(a) == kinds && Kinds(b) == kinds';
      assert a != b;
    }
  }

  /** Zeros as texts and as numbers. */
  function Zeros(kinds: seq<bool>): (fields: seq<Field>)
    ensures |fields| == |kinds|
    ensures forall i :: 0 <= i < |kinds| ==> fields[i].Text? == kinds[i] && FieldText(fields[i]) == Digits(0)
  {
    seq(|kinds|, i requires 0 <= i < |kinds| => if kinds[i] then Text(Digits(0)) else Number(0))
  }

  /** The packets that are hashed always meet this: their kinds are fixed. */
  lemma PacketKindsAreFixed(l: Leaf, m: Leaf, left: string, right: string, left': string, right': string)
    ensures Kinds(LeafFields(l)) == Kinds(LeafFields(m))
    ensures Kinds([Text(left), Text(right)]) == Kinds([Text(left'), Text(right')])
  {
  }

  /** Two leaves with the same packet agree on all ten fields. */
  lemma LeafPacketInjective(l: Leaf, m: Leaf)
    requires Packet(LEAF_DOMAIN, LeafFields(l)) == Packet(LEAF_DOMAIN, LeafFields(m))
    ensures l == m
  {
    var n := |LEAF_DOMAIN|;
    assert Frames(LeafFields(l)) == Packet(LEAF_DOMAIN, LeafFields(l))[n..];
    assert Frames(LeafFields(m)) == Packet(LEAF_DOMAIN, LeafFields(m))[n..];
    FramesInjective(LeafFields(l), LeafFields(m));
    FieldsMakeLeaf(l, m);
  }

  lemma FieldsMakeLeaf(l: Leaf, m: Leaf)
    requires LeafFields(l) == LeafFields(m)
    ensures l == m
  {
    var a, b := LeafFields(l), LeafFields(m);
    assert a[0] == b[0] && a[1] == b[1] && a[2] == b[2] && a[3] == b[3] && a[4] == b[4];
    assert a[5] == b[5] && a[6] == b[6] && a[7] == b[7] && a[8] == b[8] && a[9] == b[9];
  }

  /** The kinds have to be fixed by the position: the text of a number and the number share a frame. */
  lemma FrameForgetsKind(n: nat)
    ensures Text(Digits(n)) != Number(n) && Frame(Text(Digits(n))) == Frame(Number(n))
  {
  }

  lemma NodePacketInjective(a: string, b: string, c: string, d: string)
    requires Packet(NODE_DOMAIN, [Text(a), Text(b)]) == Packet(NODE_DOMAIN, [Text(c), Text(d)])
    ensures a == c && b == d
  {
    var f, g := [Text(a), Text(b)], [Text(c), Text(d)];
    var n := |NODE_DOMAIN|;
    assert Frames(f) == Packet(NODE_DOMAIN, f)[n..] && Frames(g) == Packet(NODE_DOMAIN, g)[n..];
    FramesInjective(f, g);
    assert f[0] == g[0] && f[1] == g[1];
  }

  /** No leaf packet is a node packet, so a node cannot be passed off as a leaf. */
  lemma LeafAndNodePacketsDiffer(l: Leaf, fields: seq<Field>)
    ensures Packet(LEAF_DOMAIN, LeafFields(l)) != Packet(NODE_DOMAIN, fields)
  {
    assert Packet(LEAF_DOMAIN, LeafFields(l))[17] == LEAF_DOMAIN[17] == 'e';
    assert Packet(NODE_DOMAIN, fields)[17] == NODE_DOMAIN[17] == 'm';
  }
}
