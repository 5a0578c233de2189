/** Session checkpoints: a packet of 72 bytes whose last eight hold an FNV-style checksum of the others. Words are laid
    out as on a little-endian host. */
module Checkpoint {
  import opened Basics
  import opened RuntimeStatus
  import opened LittleEndian
  import opened BitArithmetic

  const MAGIC: U64 := 0x504f4f4350303031
  const OFFSET: U64 := 1469598103934665603
  const PRIME: nat := 1099511628211

  /** PRIME * INVERSE == 1 modulo WORD. */
  const INVERSE: nat := 0xce965057aff6957b

  const OPEN: U32 := 1
  const CLOSED: U32 := 3

  const SUMMED: nat := 64
  const SIZE: nat := 72

  /** What a checkpoint keeps of a session, and what a bundle must have in common with it. */
  datatype Saved = Saved(epoch: U64, sequence: U64, state: U32, digest: Bytes32)

  datatype Identity = Identity(epoch: U64, digest: Bytes32)

  datatype Packet = Packet(
    magic: U64, epoch: U64, sequence: U64, state: U32, reserved: U32, digest: Bytes32, checksum: U64)

  // ---------- layout ----------

  /** The 64 bytes that are summed. */
  function Body(p: Packet): (b: seq<Byte>)
    ensures |b| == SUMMED
  {
    Bytes(p.magic, 8) + Bytes(p.epoch, 8) + Bytes(p.sequence, 8) + Bytes(p.state, 4) + Bytes(p.reserved, 4) + p.digest
  }

  function Encode(p: Packet): (b: seq<Byte>)
    ensures |b| == SIZE
  {
    Body(p) + Bytes(p.checksum, 8)
  }

  function Decode(b: seq<Byte>): Packet
    requires |b| == SIZE
  {
    Packet(ReadU64(b[0..8]), ReadU64(b[8..16]), ReadU64(b[16..24]), ReadU32(b[24..28]), ReadU32(b[28..32]), b[32..64],
           ReadU64(b[64..72]))
  }

  lemma DecodeOfEncode(p: Packet)
    ensures Decode(Encode(p)) == p && Encode(p)[..SUMMED] == Body(p)
  {
    var a, b, c := Bytes(p.magic, 8), Bytes(p.epoch, 8), Bytes(p.sequence, 8);
    var d, e, f := Bytes(p.state, 4), Bytes(p.reserved, 4), Bytes(p.checksum, 8);
    PartsOf(a, b, c, d, e, p.digest, f);
    WordsFit();
    WordOfBytes(p.magic, 8);
    WordOfBytes(p.epoch, 8);
    WordOfBytes(p.sequence, 8);
    WordOfBytes(p.checksum, 8);
    WordOfBytes(p.state, 4);
    WordOfBytes(p.reserved, 4);
  }

  lemma WordsFit()
    ensures Pow(256, 8) == WORD && Pow(256, 4) == 0x1_0000_0000
  {
  }

  /** The layout of a packet: seven parts, each of which lies where it is read. */
  lemma PartsOf(a: seq<Byte>, b: seq<Byte>, c: seq<Byte>, d: seq<Byte>, e: seq<Byte>, f: seq<Byte>, g: seq<Byte>)
    requires |a| == |b| == |c| == |g| == 8 && |d| == |e| == 4 && |f| == 32
    ensures var image := a + b + c + d + e + f + g;
            && image[0..8] == a && image[8..16] == b && image[16..24] == c && image[24..28] == d
            && image[28..32] == e && image[32..64] == f && image[64..72] == g
            && image[..64] == a + b + c + d + e + f
  {
    Regroup(a + b + c, d, e, f, g);
    HeadOf(a + b + c + d + e + f + g, a, b, c, d + e + f + g);
    BodyOf(a + b + c + d + e + f + g, a + b + c, d, e, f, g);
  }

  lemma Regroup<T>(head: seq<T>, d: seq<T>, e: seq<T>, f: seq<T>, g: seq<T>)
    ensures head + d + e + f + g == head + (d + e + f + g)
  {
  }

  lemma HeadOf(image: seq<Byte>, a: seq<Byte>, b: seq<Byte>, c: seq<Byte>, rest: seq<Byte>)
    requires |a| == |b| == |c| == 8 && image == a + b + c + rest
    ensures image[0..8] == a && image[8..16] == b && image[16..24] == c
  {
  }

  lemma BodyOf(image: seq<Byte>, head: seq<Byte>, d: seq<Byte>, e: seq<Byte>, f: seq<Byte>, g: seq<Byte>)
    requires |head| == 24 && |d| == |e| == 4 && |f| == 32 && |g| == 8 && image == head + d + e + f + g
    ensures image[24..28] == d && image[28..32] == e && image[32..64] == f && image[64..72] == g
    ensures image[..64] == head + d + e + f
  {
  }

  // ---------- checksum ----------

  function Xor64(value: U64, b: Byte): U64 {
    Pow2Is();
    Xor(value, b, 64)
  }

  /** One step of the checksum, in 64-bit arithmetic. */
  function Mix(value: U64, b: Byte): U64 {
    Xor64(value, b) * PRIME % WORD
  }

  function Checksum(value: U64, bytes: seq<Byte>): U64 {
    if |bytes| == 0 then value else Mix(Checksum(value, bytes[..|bytes| - 1]), bytes[|bytes| - 1])
  }

  method ChecksumBytes(bytes: seq<Byte>) returns (value: U64)
    ensures value == Checksum(OFFSET, bytes)
  {
    value := OFFSET;
    for i := 0 to |bytes|
      invariant value == Checksum(OFFSET, bytes[..i])
    {
      value := Xor64(value, bytes[i]);
      value := value * PRIME % WORD;
      assert bytes[..i + 1][..i] == bytes[..i];
    }
    assert bytes[..|bytes|] == bytes;
  }

  lemma {:induction false} XorZero(a: nat, bits: nat)
    requires a < Pow(2, bits)
    ensures Xor(a, 0, bits) == a
  {
    if bits > 0 {
      XorZero(a / 2, bits - 1);
    }
  }

  /** The checksums of no byte, of a zero and of a one. */
  lemma ChecksumVectors()
    ensures Checksum(OFFSET, []) == 1469598103934665603
    ensures Checksum(OFFSET, [0]) == 0x44bd2bd473ccf799
    ensures Checksum(OFFSET, [1]) == 0x44bd2ad473ccf5e6
  {
    Pow2Is();
    XorZero(OFFSET, 64);
    XorZero(OFFSET / 2, 63);
    assert Pow(2, 64) == 2 * Pow(2, 63);
    assert Xor(OFFSET, 1, 64) == 2 * Xor(OFFSET / 2, 0, 63) == OFFSET - 1;
    assert [0][..0] == [] && [1][..0] == [];
  }

  /** Multiplying by an odd constant loses nothing modulo 2^64. */
  lemma MultiplyIsInjective(x: U64, y: U64)
    requires x * PRIME % WORD == y * PRIME % WORD
    ensures x == y
  {
    var d := x * PRIME / WORD - y * PRIME / WORD;
    assert (x - y) * PRIME == d * WORD;
    var k := (PRIME * INVERSE - 1) / WORD;
    assert PRIME * INVERSE == 1 + k * WORD;
    assert x - y == WORD * (d * INVERSE - k * (x - y));
  }

  lemma MixIsInjective(v: U64, w: U64, b: Byte)
    requires Mix(v, b) == Mix(w, b)
    ensures v == w
  {
    MultiplyIsInjective(Xor64(v, b), Xor64(w, b));
    Pow2Is();
    XorCancels(v, w, b, 64);
  }

  lemma MixBindsByte(v: U64, a: Byte, b: Byte)
    requires Mix(v, a) == Mix(v, b)
    ensures a == b
  {
    MultiplyIsInjective(Xor64(v, a), Xor64(v, b));
    Pow2Is();
    XorCommutes(v, a, 64);
    XorCommutes(v, b, 64);
    XorCancels(a, b, v, 64);
  }

  /** Changing any one byte changes the checksum. */
  lemma {:induction false} OneByteChangesChecksum(value: U64, bytes: seq<Byte>, k: nat, b: Byte)
    requires k < |bytes| && b != bytes[k]
    ensures Checksum(value, bytes[k := b]) != Checksum(value, bytes)
  {
    var n := |bytes| - 1;
    var changed := bytes[k := b];
    var v, w := Checksum(value, bytes[..n]), Checksum(value, changed[..n]);
    if k == n {
      assert changed[..n] == bytes[..n];
      if Mix(v, b) == Mix(v, bytes[n]) {
        MixBindsByte(v, b, bytes[n]);
      }
    } else {
      assert changed[..n] == bytes[..n][k := b];
      OneByteChangesChecksum(value, bytes[..n], k, b);
      if Mix(w, bytes[n]) == Mix(v, bytes[n]) {
        MixIsInjective(w, v, bytes[n]);
      }
    }
  }

  // ---------- checkpoint and restore ----------

  function PacketOf(s: Saved): Packet {
    var p := Packet(MAGIC, s.epoch, s.sequence, s.state, 0, s.digest, 0);
    p.(checksum := Checksum(OFFSET, Body(p)))
  }

  method Take(s: Saved) returns (image: seq<Byte>)
    ensures image == Encode(PacketOf(s))
  {
    var p := Packet(MAGIC, s.epoch, s.sequence, s.state, 0, s.digest, 0);
    var checksum := ChecksumBytes(Body(p));
    image := Encode(p.(checksum := checksum));
  }

  predicate WellFormed(image: seq<Byte>)
    requires |image| == SIZE
  {
    var p := Decode(image);
    p.magic == MAGIC && p.reserved == 0 && p.checksum == Checksum(OFFSET, image[..SUMMED])
  }

  function Restored(bundle: Identity, view: seq<Byte>): Result<Saved, Status> {
    if |view| != SIZE || !WellFormed(view) then Err(CHECKPOINT_INCOMPATIBLE)
    else
      var p := Decode(view);
      if p.epoch != bundle.epoch || p.digest != bundle.digest then Err(BUNDLE_IDENTITY_MISMATCH)
      else Ok(Saved(p.epoch, p.sequence, if p.state == CLOSED then OPEN else p.state, p.digest))
  }

  method Restore(bundle: Identity, view: seq<Byte>) returns (r: Result<Saved, Status>)
    ensures r == Restored(bundle, view)
  {
    if |view| != SIZE {
      return Err(CHECKPOINT_INCOMPATIBLE);
    }
    var packet := Decode(view);
    var checksum := ChecksumBytes(view[..SUMMED]);
    if packet.magic != MAGIC || packet.reserved != 0 || packet.checksum != checksum {
      return Err(CHECKPOINT_INCOMPATIBLE);
    }
    if packet.epoch != bundle.epoch || packet.digest != bundle.digest {
      return Err(BUNDLE_IDENTITY_MISMATCH);
    }
    r := Ok(Saved(packet.epoch, packet.sequence, if packet.state == CLOSED then OPEN else packet.state, packet.digest));
  }

  /** The words of an image where the format puts them. */
  ghost predicate Reads(view: seq<Byte>, magic: nat, epoch: nat, sequence: nat, state: nat, reserved: nat,
                        digest: seq<Byte>, checksum: nat)
  {
    && |view| == 72 && Word(view[0..8]) == magic && Word(view[8..16]) == epoch && Word(view[16..24]) == sequence
    && Word(view[24..28]) == state && Word(view[28..32]) == reserved && view[32..64] == digest
    && Word(view[64..72]) == checksum
  }

  /** An image is intact if it begins with the magic number, has nothing in its reserved word, and ends with the
      checksum of what comes before. */
  ghost predicate Intact(view: seq<Byte>, epoch: nat, sequence: nat, state: nat, digest: seq<Byte>) {
    |view| == 72 && Reads(view, 0x504f4f4350303031, epoch, sequence, state, 0, digest,
                          Checksum(1469598103934665603, view[..64]))
  }

  /** Exactly an intact image of the bundle's epoch and digest is restored, with the sequence in it and a closed session
      opened; an intact image of another bundle and one that is not intact are told apart. */
  lemma RestoredIs(bundle: Identity, view: seq<Byte>, s: Saved)
    ensures Restored(bundle, view) == Ok(s)
       <==> exists state: U32 ::
              && Intact(view, bundle.epoch, s.sequence, state, bundle.digest)
              && s.epoch == bundle.epoch && s.digest == bundle.digest && s.state == if state == 3 then 1 else state
    ensures Restored(bundle, view) == Err(CHECKPOINT_INCOMPATIBLE)
       <==> !exists epoch: U64, sequence: U64, state: U32, digest: Bytes32 ::
              Intact(view, epoch, sequence, state, digest)
    ensures Restored(bundle, view).Err? ==>
              Restored(bundle, view).error in {CHECKPOINT_INCOMPATIBLE, BUNDLE_IDENTITY_MISMATCH}
  {
    if |view| == 72 {
      var p := Decode(view);
      assert WellFormed(view) <==> Intact(view, p.epoch, p.sequence, p.state, p.digest);
    }
  }

  /** No image that passes the checks still does after a change of one byte, under whatever bundle. */
  lemma OneByteChangeRejected(bundle: Identity, image: seq<Byte>, k: nat, b: Byte)
    requires |image| == SIZE && WellFormed(image) && k < SIZE && b != image[k]
    ensures Restored(bundle, image[k := b]) == Err(CHECKPOINT_INCOMPATIBLE)
  {
    var changed := image[k := b];
    if k < SUMMED {
      assert changed[..SUMMED] == image[..SUMMED][k := b];
      OneByteChangesChecksum(OFFSET, image[..SUMMED], k, b);
      assert changed[64..72] == image[64..72];
    } else {
      assert changed[..SUMMED] == image[..SUMMED];
      assert changed[64..72][k - SUMMED] != image[64..72][k - SUMMED];
      if Word(changed[64..72]) == Word(image[64..72]) {
        WordBindsBytes(changed[64..72], image[64..72]);
      }
    }
  }

  /** An unchanged checkpoint restores the session it was taken from, reopened if it was closed, and only under a
      bundle of the same epoch and digest. */
  lemma CheckpointRestores(s: Saved, bundle: Identity)
    ensures Restored(bundle, Encode(PacketOf(s)))
         == if bundle == Identity(s.epoch, s.digest)
            then Ok(s.(state := if s.state == CLOSED then OPEN else s.state)) else Err(BUNDLE_IDENTITY_MISMATCH)
  {
    DecodeOfEncode(PacketOf(s));
  }

  /** A checkpoint with one byte changed restores nothing. */
  lemma DamagedCheckpointRejected(s: Saved, bundle: Identity, k: nat, b: Byte)
    requires k < SIZE
    ensures b != Encode(PacketOf(s))[k] ==>
              Restored(bundle, Encode(PacketOf(s))[k := b]) == Err(CHECKPOINT_INCOMPATIBLE)
  {
    DecodeOfEncode(PacketOf(s));
    if b != Encode(PacketOf(s))[k] {
      OneByteChangeRejected(bundle, Encode(PacketOf(s)), k, b);
    }
  }
}
