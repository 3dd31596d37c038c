/** Go's uint64 operators, bit by bit, and what they do to the number a word holds. */
module Words {
  import opened Division
  import opened Positional

  const WORD := 0x1_0000_0000_0000_0000

  type U64 = x: int | 0 <= x < WORD

  lemma WordIsPow()
    ensures WORD == Pow(2, 64)
    ensures Pow(2, 5) == 32 && Pow(2, 8) == 256 && Pow(2, 48) == 0x1_0000_0000_0000
  {
    assert Pow(2, 2) == 4;
    assert Pow(2, 3) == 8;
    PowAdd(2, 2, 2);
    PowAdd(2, 2, 3);
    PowAdd(2, 4, 4);
    PowAdd(2, 8, 8);
    PowAdd(2, 16, 16);
    PowAdd(2, 32, 16);
    PowAdd(2, 32, 32);
  }

  function Shr(x: U64, n: nat): U64 {
    DivShrinks(x, Pow(2, n));
    x / Pow(2, n)
  }

  lemma DivShrinks(x: nat, d: nat)
    requires d >= 1
    ensures 0 <= x / d <= x
  {
    MulMonotone(1, d, x / d);
  }

  function Shl(x: U64, n: nat): U64 {
    x * Pow(2, n) % WORD
  }

  /** Bitwise or of the low `bits` bits. */
  function OrBits(x: nat, y: nat, bits: nat): nat {
    if bits == 0 then 0
    else OrBits(x / 2, y / 2, bits - 1) * 2 + (if x % 2 == 1 || y % 2 == 1 then 1 else 0)
  }

  /** Bitwise and of the low `bits` bits. */
  function AndBits(x: nat, y: nat, bits: nat): nat {
    if bits == 0 then 0
    else AndBits(x / 2, y / 2, bits - 1) * 2 + (if x % 2 == 1 && y % 2 == 1 then 1 else 0)
  }

  function Or(x: U64, y: U64): U64 {
    BitsBound(x, y, 64);
    WordIsPow();
    OrBits(x, y, 64)
  }

  function And(x: U64, y: U64): U64 {
    BitsBound(x, y, 64);
    WordIsPow();
    AndBits(x, y, 64)
  }

  lemma {:induction false} BitsBound(x: nat, y: nat, bits: nat)
    ensures OrBits(x, y, bits) < Pow(2, bits) && AndBits(x, y, bits) < Pow(2, bits)
    decreases bits
  {
    if bits > 0 {
      BitsBound(x / 2, y / 2, bits - 1);
    }
  }

  /** Words with no bit in common: y below bit k, x a multiple of 2^k. Or is addition. */
  lemma {:induction false} OrIsSum(x: nat, y: nat, k: nat, bits: nat)
    requires k <= bits && y < Pow(2, k) && x * Pow(2, k) < Pow(2, bits)
    ensures OrBits(x * Pow(2, k), y, bits) == x * Pow(2, k) + y
    decreases bits
  {
    if bits > 0 {
      if k == 0 {
        assert Pow(2, 0) == 1;
        OrWithZero(x, bits);
      } else {
        var p := Pow(2, k - 1);
        MulAssoc(x, p, 2);
        DivUnique(x * Pow(2, k), 2, x * p, 0);
        OrIsSum(x, y / 2, k - 1, bits - 1);
      }
    }
  }

  lemma {:induction false} OrWithZero(x: nat, bits: nat)
    requires x < Pow(2, bits)
    ensures OrBits(x, 0, bits) == x
    decreases bits
  {
    if bits > 0 {
      OrWithZero(x / 2, bits - 1);
    }
  }

  /** Masking with k ones keeps the low k bits. */
  lemma {:induction false} AndMask(x: nat, k: nat, bits: nat)
    requires k <= bits
    ensures AndBits(x, Pow(2, k) - 1, bits) == x % Pow(2, k)
    decreases bits
  {
    if bits > 0 {
      if k == 0 {
        assert Pow(2, 0) - 1 == 0;
        AndWithZero(x, bits);
      } else {
        var p := Pow(2, k - 1);
        AndMask(x / 2, k - 1, bits - 1);
        DivUnique(2 * p - 1, 2, p - 1, 1);
        HalveMod(x, p);
      }
    }
  }

  lemma {:induction false} AndWithZero(x: nat, bits: nat)
    ensures AndBits(x, 0, bits) == 0
    decreases bits
  {
    if bits > 0 {
      AndWithZero(x / 2, bits - 1);
    }
  }
}
