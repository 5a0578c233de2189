/** Bitwise operations on natural numbers, bit by bit. */
module BitArithmetic {

  const WORD: nat := 0x1_0000_0000_0000_0000

  function Pow(base: nat, n: nat): nat {
    if n == 0 then 1 else base * Pow(base, n - 1)
  }

  /** Bitwise exclusive or of the lowest `bits` bits. */
  function Xor(a: nat, b: nat, bits: nat): (x: nat)
    ensures x < Pow(2, bits)
  {
    if bits == 0 then 0 else (if a % 2 != b % 2 then 1 else 0) + 2 * Xor(a / 2, b / 2, bits - 1)
  }

  lemma {:induction false} XorCancels(a: nat, b: nat, c: nat, bits: nat)
    requires a < Pow(2, bits) && b < Pow(2, bits) && Xor(a, c, bits) == Xor(b, c, bits)
    ensures a == b
  {
    if bits > 0 {
      XorCancels(a / 2, b / 2, c / 2, bits - 1);
    }
  }

  lemma {:induction false} XorCommutes(a: nat, b: nat, bits: nat)
    ensures Xor(a, b, bits) == Xor(b, a, bits)
  {
    if bits > 0 {
      XorCommutes(a / 2, b / 2, bits - 1);
    }
  }

  lemma Pow2Is()
    ensures Pow(2, 32) == 0x1_0000_0000 && Pow(2, 58) == WORD / 64 && Pow(2, 64) == WORD
  {
    assert Pow(2, 8) == 0x100;
    assert Pow(2, 16) == 0x10000;
    assert Pow(2, 24) == 0x1000000;
    assert Pow(2, 32) == 0x100000000;
    assert Pow(2, 40) == 0x10000000000;
    assert Pow(2, 48) == 0x1000000000000;
    assert Pow(2, 56) == 0x100000000000000;
  }

  /** Bitwise conjunction of the lowest `bits` bits. */
  function And(a: nat, b: nat, bits: nat): nat {
    if bits == 0 then 0 else (if a % 2 == 1 && b % 2 == 1 then 1 else 0) + 2 * And(a / 2, b / 2, bits - 1)
  }

  /** Binary digit `i`. */
  function Bit(a: nat, i: nat): nat {
    if i == 0 then a % 2 else Bit(a / 2, i - 1)
  }

  /** Both work on the digits one by one: one is set where the digits differ, the other where both are set. */
  lemma {:induction false} BitsAre(a: nat, b: nat, bits: nat, i: nat)
    requires i < bits
    ensures Bit(Xor(a, b, bits), i) == (Bit(a, i) + Bit(b, i)) % 2
    ensures Bit(And(a, b, bits), i) == Bit(a, i) * Bit(b, i)
  {
    LowBits(a, b, bits);
    if i == 0 {
      BitIsBinary(a, 0);
      BitIsBinary(b, 0);
    } else {
      BitsAre(a / 2, b / 2, bits - 1, i - 1);
    }
  }

  lemma LowBits(a: nat, b: nat, bits: nat)
    requires bits > 0
    ensures Xor(a, b, bits) % 2 == (a % 2 + b % 2) % 2 && Xor(a, b, bits) / 2 == Xor(a / 2, b / 2, bits - 1)
    ensures And(a, b, bits) % 2 == (if a % 2 == 1 && b % 2 == 1 then 1 else 0)
    ensures And(a, b, bits) / 2 == And(a / 2, b / 2, bits - 1)
  {
  }

  lemma {:induction false} BitIsBinary(a: nat, i: nat)
    ensures Bit(a, i) in {0, 1}
  {
    if i > 0 {
      BitIsBinary(a / 2, i - 1);
    }
  }

  lemma {:induction false} AndOnes(a: nat, bits: nat)
    requires a < Pow(2, bits)
    ensures And(a, Pow(2, bits) - 1, bits) == a
  {
    if bits > 0 {
      assert (Pow(2, bits) - 1) / 2 == Pow(2, bits - 1) - 1;
      AndOnes(a / 2, bits - 1);
    }
  }

  predicate PowerOfTwo(v: nat) {
    v == 1 || (v > 0 && v % 2 == 0 && PowerOfTwo(v / 2))
  }

  lemma PowerOfTwoIs(v: nat)
    ensures PowerOfTwo(v) <==> exists k: nat :: v == Pow(2, k)
  {
    if PowerOfTwo(v) {
      var k := Exponent(v);
    }
    if k: nat :| v == Pow(2, k) {
      PowIsPower(k);
    }
  }

  lemma {:induction false} Exponent(v: nat) returns (k: nat)
    requires PowerOfTwo(v)
    ensures v == Pow(2, k)
  {
    if v == 1 {
      k := 0;
    } else {
      var m := Exponent(v / 2);
      k := m + 1;
    }
  }

  lemma {:induction false} PowIsPower(k: nat)
    ensures PowerOfTwo(Pow(2, k))
  {
    if k > 0 {
      PowIsPower(k - 1);
      PowPositive(k - 1);
      assert Pow(2, k) / 2 == Pow(2, k - 1);
    }
  }

  lemma {:induction false} PowPositive(n: nat)
    ensures Pow(2, n) > 0
  {
    if n > 0 {
      PowPositive(n - 1);
    }
  }

  /** A number shares no bit with its predecessor exactly if it is a power of two (or zero). */
  lemma {:induction false} NoCommonBitsIff(v: nat, bits: nat)
    requires 0 < v < Pow(2, bits)
    ensures And(v, v - 1, bits) == 0 <==> PowerOfTwo(v)
  {
    if v > 1 {
      if v % 2 == 0 {
        assert (v - 1) / 2 == v / 2 - 1 && (v - 1) % 2 == 1;
        NoCommonBitsIff(v / 2, bits - 1);
      } else {
        assert (v - 1) / 2 == v / 2;
        AndSelf(v / 2, bits - 1);
      }
    } else {
      AndZero(0, bits - 1);
    }
  }

  lemma {:induction false} AndSelf(v: nat, bits: nat)
    requires v < Pow(2, bits)
    ensures And(v, v, bits) == v
  {
    if bits > 0 {
      AndSelf(v / 2, bits - 1);
    }
  }

  lemma {:induction false} AndZero(v: nat, bits: nat)
    ensures And(v, 0, bits) == 0
  {
    if bits > 0 {
      AndZero(v / 2, bits - 1);
    }
  }

  /** Clearing the low six bits of a word rounds down to a multiple of 64. */
  lemma ClearLowBits(x: nat)
    requires x < WORD
    ensures And(x, WORD - 64, 64) == x - x % 64
  {
    AndEight(x, WORD - 64, 64);
    AndEight(x / 8, WORD / 8 - 8, 61);
    Pow2Is();
    AndOnes(x / 8 / 8, 58);
    assert x / 8 / 8 == x / 64;
  }

  lemma AndEight(a: nat, b: nat, bits: nat)
    requires bits >= 3 && b % 8 == 0
    ensures And(a, b, bits) == 8 * And(a / 8, b / 8, bits - 3)
  {
    var a', b' := a / 8, b / 8;
    ThreeHalves(a);
    ThreeHalves(b);
    AndEven(a / 2 / 2, b / 2 / 2, bits - 2);
    AndEven(a / 2, b / 2, bits - 1);
    AndEven(a, b, bits);
  }

  lemma ThreeHalves(a: nat)
    ensures a / 2 / 2 / 2 == a / 8
    ensures a % 8 == 0 ==> a % 2 == 0 && a / 2 % 2 == 0 && a / 2 / 2 % 2 == 0
  {
  }

  lemma AndEven(a: nat, b: nat, bits: nat)
    requires bits > 0 && b % 2 == 0
    ensures And(a, b, bits) == 2 * And(a / 2, b / 2, bits - 1)
  {
  }

  /** Powers of two up to 64 divide every multiple of 64. */
  lemma SmallPowersDivide(v: nat)
    requires PowerOfTwo(v) && v <= 64
    ensures 64 % v == 0 && v in {1, 2, 4, 8, 16, 32, 64}
  {
  }

  // ---------- multiples ----------

  lemma AtLeastOnce(t: int, v: int)
    requires t >= 1 && v > 0
    ensures t * v >= v
  {
    assert (t - 1) * v >= 0;
    assert t * v == (t - 1) * v + v;
  }

  lemma Distribute(c: int, d: int, v: int)
    ensures (c - d) * v == c * v - d * v
  {
  }

  lemma NoRemainder(c: int, d: int, v: int, r: int)
    requires 0 <= r < v && c * v == d * v + r
    ensures r == 0
  {
    Distribute(c, d, v);
    if c > d {
      AtLeastOnce(c - d, v);
    } else if c < d {
      AtLeastOnce(d - c, v);
      Distribute(d, c, v);
    }
  }

  lemma Euclid(x: int, v: int)
    requires v > 0
    ensures x == (x / v) * v + x % v
  {
  }

  lemma MultipleDivides(c: int, v: int, x: int)
    requires v > 0 && x == c * v
    ensures x % v == 0
  {
    Euclid(x, v);
    NoRemainder(c, x / v, v, x % v);
  }

  /** Sums and differences of multiples are multiples. */
  lemma CombinedDivides(a: int, b: int, c: int, v: int, x: int)
    requires v > 0 && x == a * v + b * v - c * v
    ensures x % v == 0
  {
    Distribute(a + b, c, v);
    Distribute(a, -b, v);
    MultipleDivides(a + b - c, v, x);
  }

  lemma Associate(k: int, q: int, v: int)
    ensures k * (q * v) == (k * q) * v
  {
  }
}
