/** The text under which a nonce is stored: two limbs of sixteen hexadecimal digits each. */
module NonceText {
  import opened Basics
  import opened BitArithmetic

  const DIGITS := "0123456789abcdef"

  predicate IsHex(c: char) {
    '0' <= c <= '9' || 'a' <= c <= 'f'
  }

  function DigitOf(d: nat): (c: char)
    requires d < 16
    ensures IsHex(c) && ValueOf(c) == d
  {
    DIGITS[d]
  }

  function ValueOf(c: char): (d: nat)
    requires IsHex(c)
    ensures d < 16
  {
    if '0' <= c <= '9' then (c - '0') as nat else 10 + (c - 'a') as nat
  }

  /** The lowest `width` digits of a number, most significant first. */
  function Hex(v: nat, width: nat): (s: string)
    ensures |s| == width && forall i :: 0 <= i < |s| ==> IsHex(s[i])
  {
    if width == 0 then "" else Hex(v / 16, width - 1) + [DigitOf(v % 16)]
  }

  function Number(s: string): nat
    requires forall i :: 0 <= i < |s| ==> IsHex(s[i])
  {
    if |s| == 0 then 0 else 16 * Number(s[..|s| - 1]) + ValueOf(s[|s| - 1])
  }

  lemma {:induction false} NumberOfHex(v: nat, width: nat)
    requires v < Pow(16, width)
    ensures Number(Hex(v, width)) == v
  {
    if width > 0 {
      NumberOfHex(v / 16, width - 1);
      assert Hex(v, width)[..width - 1] == Hex(v / 16, width - 1);
    }
  }

  lemma {:induction false} NumberBound(s: string)
    requires forall i :: 0 <= i < |s| ==> IsHex(s[i])
    ensures Number(s) < Pow(16, |s|)
  {
    if |s| > 0 {
      NumberBound(s[..|s| - 1]);
    }
  }

  lemma Pow16Is()
    ensures Pow(16, 16) == WORD
  {
    assert Pow(16, 4) == 0x1_0000;
    assert Pow(16, 8) == 0x1_0000_0000;
    assert Pow(16, 12) == 0x1_0000_0000_0000;
  }

  function Text(n: Nonce): (s: string)
    ensures |s| == 32 && forall i :: 0 <= i < |s| ==> IsHex(s[i])
  {
    Hex(n.high, 16) + Hex(n.low, 16)
  }

  /** Reads back a text of 32 hexadecimal digits. */
  function Parsed(s: string): Nonce
    requires |s| == 32 && forall i :: 0 <= i < |s| ==> IsHex(s[i])
  {
    NumberBound(s[..16]);
    NumberBound(s[16..]);
    Pow16Is();
    Nonce(Number(s[..16]), Number(s[16..]))
  }

  /** Every nonce is read back from its text; so unique texts are unique nonces. */
  lemma TextReadsBack(n: Nonce)
    ensures Parsed(Text(n)) == n
  {
    Pow16Is();
    NumberOfHex(n.high, 16);
    NumberOfHex(n.low, 16);
    assert Text(n)[..16] == Hex(n.high, 16) && Text(n)[16..] == Hex(n.low, 16);
  }

  lemma TextInjective(m: Nonce, n: Nonce)
    requires Text(m) == Text(n)
    ensures m == n
  {
    TextReadsBack(m);
    TextReadsBack(n);
  }

  /** Digits above nine are the lower-case letters, and the most significant digit comes first. */
  lemma HexVector()
    ensures Hex(0xa9f0, 4) == "a9f0"
  {
    assert Hex(0, 0) == "";
    HexStep(0, 0, 10);
    HexStep(0xa, 1, 9);
    HexStep(0xa9, 2, 15);
    HexStep(0xa9f, 3, 0);
    assert DigitOf(10) == 'a' && DigitOf(9) == '9' && DigitOf(15) == 'f' && DigitOf(0) == '0';
    assert "" + ['a'] + ['9'] + ['f'] + ['0'] == "a9f0";
  }

  lemma HexStep(v: nat, width: nat, d: nat)
    requires d < 16
    ensures Hex(16 * v + d, width + 1) == Hex(v, width) + [DigitOf(d)]
  {
    assert (16 * v + d) / 16 == v && (16 * v + d) % 16 == d;
  }

  /** The high limb comes first. */
  lemma TextIs(n: Nonce)
    ensures Text(n)[..16] == Hex(n.high, 16) && Text(n)[16..] == Hex(n.low, 16)
  {
  }
}
