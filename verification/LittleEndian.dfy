/** Words as sequences of bytes, least significant first. */
module LittleEndian {
  import opened Basics
  import opened BitArithmetic

  function Bytes(v: nat, n: nat): (b: seq<Byte>)
    ensures |b| == n
  {
    if n == 0 then [] else [v % 256] + Bytes(v / 256, n - 1)
  }

  function Word(b: seq<Byte>): nat {
    if |b| == 0 then 0 else b[0] + 256 * Word(b[1..])
  }

  lemma {:induction false} WordBound(b: seq<Byte>)
    ensures Word(b) < Pow(256, |b|)
  {
    if |b| > 0 {
      WordBound(b[1..]);
    }
  }

  lemma {:induction false} WordOfBytes(v: nat, n: nat)
    requires v < Pow(256, n)
    ensures Word(Bytes(v, n)) == v
  {
    if n > 0 {
      WordOfBytes(v / 256, n - 1);
      assert Bytes(v, n)[1..] == Bytes(v / 256, n - 1);
    }
  }

  /** A word determines its bytes. */
  lemma {:induction false} WordBindsBytes(a: seq<Byte>, b: seq<Byte>)
    requires |a| == |b| && Word(a) == Word(b)
    ensures a == b
  {
    if |a| > 0 {
      WordBindsBytes(a[1..], b[1..]);
      assert a == [a[0]] + a[1..] && b == [b[0]] + b[1..];
    }
  }

  function ReadU64(b: seq<Byte>): U64
    requires |b| == 8
  {
    WordBound(b);
    assert Pow(256, 8) == WORD;
    Word(b)
  }

  function ReadU32(b: seq<Byte>): U32
    requires |b| == 4
  {
    WordBound(b);
    assert Pow(256, 4) == 0x1_0000_0000;
    Word(b)
  }

  lemma BytesVector()
    ensures Bytes(0x1234, 4) == [0x34, 0x12, 0, 0]
    ensures Word([0x34, 0x12, 0, 0]) == 0x1234
  {
    assert Bytes(0, 0) == [] && Bytes(0, 1) == [0] && Bytes(0, 2) == [0, 0];
    assert Bytes(0x12, 3) == [0x12] + Bytes(0, 2);
    WordOfBytes(0x1234, 4);
    assert Pow(256, 4) == 0x1_0000_0000;
  }
}
