/** Shifts, masks and bitwise "or" of C unsigned words, as arithmetic on natural numbers. */
module Bits {

  type byte = x: int | 0 <= x < 256

  const WORD16: nat := 0x1_0000
  const WORD32: nat := 0x1_0000_0000

  function Pow2(n: nat): (r: nat)
    ensures r > 0
  {
    if n == 0 then 1 else 2 * Pow2(n - 1)
  }

  /** Bitwise or, bit by bit from the low end. */
  function BitOr(a: nat, b: nat): nat {
    if a == 0 && b == 0 then 0
    else (if a % 2 == 1 || b % 2 == 1 then 1 else 0) + 2 * BitOr(a / 2, b / 2)
  }

  lemma BitOrZero(a: nat)
    ensures BitOr(a, 0) == a && BitOr(0, a) == a
  {
    if a != 0 {
      BitOrZero(a / 2);
    }
  }

  /** Fields that do not overlap: "or" is addition when the low operand fits below the high one. */
  lemma {:induction false} DisjointOr(low: nat, high: nat, n: nat)
    requires low < Pow2(n)
    ensures BitOr(low, high * Pow2(n)) == low + high * Pow2(n)
    ensures BitOr(high * Pow2(n), low) == low + high * Pow2(n)
  {
    if n == 0 {
      BitOrZero(high);
    } else {
      var h := high * Pow2(n - 1);
      assert high * Pow2(n) == 2 * h;
      DisjointOr(low / 2, high, n - 1);
    }
  }

  type word = x: int | 0 <= x < WORD32

  /** A 32-bit counter. */
  function Counted(counter: nat, n: nat): word {
    (counter + n) % WORD32
  }

  /** It is exact up to 2^32 - 1 and then starts again at 0. */
  lemma CountedExactly(counter: word, n: nat)
    ensures Counted(counter, n) == counter + n <==> counter + n <= 0xFFFF_FFFF
    ensures Counted(0xFFFF_FFFF, 1) == 0
  {
  }

  lemma CountedTwice(a: nat, b: nat, c: nat)
    ensures Counted(Counted(a, b), c) == Counted(a, b + c)
  {
    var q, r := (a + b) / WORD32, (a + b) % WORD32;
    var q', r' := (r + c) / WORD32, (r + c) % WORD32;
    assert a + (b + c) == (q + q') * WORD32 + r';
  }
}
