/** Bit `k` of a byte, as `1u << k` selects it. */
module Bitmap {

  function Mask(k: nat): bv8
    requires k < 8
  {
    match k
    case 0 => 1
    case 1 => 2
    case 2 => 4
    case 3 => 8
    case 4 => 16
    case 5 => 32
    case 6 => 64
    case _ => 128
  }

  predicate BitSet(b: bv8, k: nat)
    requires k < 8
  {
    b & Mask(k) != 0
  }

  /** Or-ing in one bit sets that bit and no other. */
  lemma SetBit(b: bv8, k: nat, j: nat)
    requires k < 8 && j < 8
    ensures BitSet(b | Mask(k), j) <==> j == k || BitSet(b, j)
  {
  }

  /** The bitmap as a sequence of flags: flag i is bit i % 8 of byte i / 8. */
  predicate Flag(bytes: seq<bv8>, i: nat)
    requires i / 8 < |bytes|
  {
    BitSet(bytes[i / 8], i % 8)
  }

  lemma SetFlag(bytes: seq<bv8>, i: nat, j: nat)
    requires i / 8 < |bytes| && j / 8 < |bytes|
    ensures Flag(bytes[i / 8 := bytes[i / 8] | Mask(i % 8)], j) <==> j == i || Flag(bytes, j)
  {
    SetBit(bytes[i / 8], i % 8, j % 8);
  }

  /** Flag 0 is the lowest bit of the first byte; after eight flags comes the next byte. */
  lemma FlagIs(bytes: seq<bv8>, i: nat)
    requires i / 8 < |bytes|
    ensures Flag(bytes, i) <==> (bytes[i / 8] >> (i % 8)) & 1 == 1
  {
    var b := bytes[i / 8];
    match i % 8
    case 0 => assert (b & 1 != 0) <==> ((b >> 0) & 1 == 1);
    case 1 => assert (b & 2 != 0) <==> ((b >> 1) & 1 == 1);
    case 2 => assert (b & 4 != 0) <==> ((b >> 2) & 1 == 1);
    case 3 => assert (b & 8 != 0) <==> ((b >> 3) & 1 == 1);
    case 4 => assert (b & 16 != 0) <==> ((b >> 4) & 1 == 1);
    case 5 => assert (b & 32 != 0) <==> ((b >> 5) & 1 == 1);
    case 6 => assert (b & 64 != 0) <==> ((b >> 6) & 1 == 1);
    case _ => assert (b & 128 != 0) <==> ((b >> 7) & 1 == 1);
  }
}
