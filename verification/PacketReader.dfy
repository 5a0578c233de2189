/** A reader for the hashed packets, written from the format alone: each field is its length in bytes of UTF-8, a colon
    and its text. Leaf and node packets are read back field by field. */
module PacketReader {
  import opened Basics
  import opened Decimal
  import opened EvidencePacket

  /** Section 3 of RFC 3629: 7, 11 or 16 bits take one, two or three bytes. */
  function BytesOf(c: char): nat {
    if c as int / 0x80 == 0 then 1 else if c as int / 0x800 == 0 then 2 else if c as int / 0x1_0000 == 0 then 3 else 4
  }

  /** The characters that make up the first `n` bytes, and what follows. */
  function Take(s: string, n: nat): Option<(string, string)>
    decreases s
  {
    if n == 0 then Some(("", s))
    else if |s| == 0 || BytesOf(s[0]) > n then None
    else
      match Take(s[1..], n - BytesOf(s[0]))
      case None => None
      case Some((text, rest)) => Some(([s[0]] + text, rest))
  }

  /** One field. */
  function ReadFrame(s: string): Option<(string, string)> {
    if Span(s) == 0 || Span(s) == |s| || s[Span(s)] != ':' then None
    else Take(s[Span(s) + 1..], Value(s[..Span(s)]))
  }

  /** The texts of `n` fields that make up the whole of `s`. */
  function ReadFrames(s: string, n: nat): Option<seq<string>>
    decreases n
  {
    if n == 0 then (if s == "" then Some([]) else None)
    else
      match ReadFrame(s)
      case None => None
      case Some((text, rest)) =>
        match ReadFrames(rest, n - 1)
        case None => None
        case Some(texts) => Some([text] + texts)
  }

  function ReadPacket(domain: string, packet: string, n: nat): Option<seq<string>> {
    if domain <= packet then ReadFrames(packet[|domain|..], n) else None
  }

  function ReadNumber(s: string): Option<nat> {
    if |s| > 0 && Span(s) == |s| then Some(Value(s)) else None
  }

  /** The ten fields of a leaf packet. */
  function ReadLeaf(packet: string): Option<Leaf> {
    match ReadPacket("poo-flow.batched-evidence-leaf.draft.1|", packet, 10)
    case None => None
    case Some(f) =>
      if |f| == 10 && ReadNumber(f[1]).Some? && ReadNumber(f[3]).Some? && ReadNumber(f[4]).Some? then
        Some(Leaf(f[0], ReadNumber(f[1]).value, f[2], ReadNumber(f[3]).value, ReadNumber(f[4]).value, f[5], f[6], f[7],
                  f[8], f[9]))
      else None
  }

  /** Left and right of a node packet. */
  function ReadNode(packet: string): Option<(string, string)> {
    match ReadPacket("poo-flow.batched-merkle-node.draft.1|", packet, 2)
    case Some(f) => if |f| == 2 then Some((f[0], f[1])) else None
    case None => None
  }

  // ---------- what is read back ----------

  lemma {:induction false} TextReadsBack(text: string, rest: string)
    ensures Take(text + rest, Utf8Length(text)) == Some((text, rest))
  {
    if |text| == 0 {
      assert text + rest == rest;
    } else {
      assert (text + rest)[0] == text[0] && (text + rest)[1..] == text[1..] + rest;
      TextReadsBack(text[1..], rest);
      assert [text[0]] + text[1..] == text;
    }
  }

  lemma FrameReadsBack(f: Field, rest: string)
    ensures ReadFrame(Frame(f) + rest) == Some((FieldText(f), rest))
  {
    var length, text := Utf8Length(FieldText(f)), FieldText(f);
    var s, d := Frame(f) + rest, Digits(length);
    FramedTextsSplit(d, text, rest);
    assert s == d + ([':'] + (text + rest));
    SpanOfDigits(d, [':'] + (text + rest));
    ValueOfDigits(length);
    assert s[..|d|] == d && s[|d|] == ':' && s[|d| + 1..] == text + rest;
    TextReadsBack(text, rest);
  }

  function Texts(fields: seq<Field>): (texts: seq<string>)
    ensures |texts| == |fields| && forall i :: 0 <= i < |fields| ==> texts[i] == FieldText(fields[i])
  {
    seq(|fields|, i requires 0 <= i < |fields| => FieldText(fields[i]))
  }

  lemma {:induction false} FramesReadBack(fields: seq<Field>)
    ensures ReadFrames(Frames(fields), |fields|) == Some(Texts(fields))
  {
    if |fields| > 0 {
      FramesReadBack(fields[1..]);
      FrameReadsBack(fields[0], Frames(fields[1..]));
      OneMoreFrame(Frames(fields), FieldText(fields[0]), Frames(fields[1..]), |fields| - 1, Texts(fields[1..]));
      TextsCons(fields);
    }
  }

  lemma OneMoreFrame(s: string, text: string, rest: string, n: nat, texts: seq<string>)
    requires ReadFrame(s) == Some((text, rest)) && ReadFrames(rest, n) == Some(texts)
    ensures ReadFrames(s, n + 1) == Some([text] + texts)
  {
  }

  lemma TextsCons(fields: seq<Field>)
    requires |fields| > 0
    ensures [FieldText(fields[0])] + Texts(fields[1..]) == Texts(fields)
  {
  }

  lemma PacketReadsBack(domain: string, fields: seq<Field>)
    ensures ReadPacket(domain, Packet(domain, fields), |fields|) == Some(Texts(fields))
  {
    FramesReadBack(fields);
    assert Packet(domain, fields)[|domain|..] == Frames(fields);
  }

  lemma NumberReadsBack(n: nat)
    ensures ReadNumber(Digits(n)) == Some(n)
  {
    SpanOfDigits(Digits(n), "");
    assert Digits(n) + "" == Digits(n);
    ValueOfDigits(n);
  }

  /** Round trip: what is hashed of a leaf gives back all ten of its fields. */
  lemma LeafReadsBack(l: Leaf)
    ensures ReadLeaf(Packet(LEAF_DOMAIN, LeafFields(l))) == Some(l)
  {
    PacketReadsBack(LEAF_DOMAIN, LeafFields(l));
    NumberReadsBack(l.index);
    NumberReadsBack(l.first);
    NumberReadsBack(l.last);
    LeafTextsAre(l);
  }

  lemma LeafTextsAre(l: Leaf)
    ensures Texts(LeafFields(l))
         == [l.leafId, Digits(l.index), l.nonce, Digits(l.first), Digits(l.last), l.payload, l.semanticRoot,
             l.previousRoot, l.observation, l.outcome]
  {
  }

  /** The digest of a leaf is that of a packet that says all of it, the digest of a node that of one that says both. */
  lemma DigestsAreOfPackets(l: Leaf, left: string, right: string, sha: string -> string)
    ensures exists packet :: LeafDigest(l, sha) == sha(packet) && ReadLeaf(packet) == Some(l)
    ensures exists packet :: NodeDigest(left, right, sha) == sha(packet) && ReadNode(packet) == Some((left, right))
  {
    LeafReadsBack(l);
    assert LeafDigest(l, sha) == sha(Packet(LEAF_DOMAIN, LeafFields(l)));
    NodeReadsBack(left, right);
    assert NodeDigest(left, right, sha) == sha(Packet(NODE_DOMAIN, [Text(left), Text(right)]));
  }

  lemma NodeReadsBack(left: string, right: string)
    ensures ReadNode(Packet(NODE_DOMAIN, [Text(left), Text(right)])) == Some((left, right))
  {
    PacketReadsBack(NODE_DOMAIN, [Text(left), Text(right)]);
  }
}
