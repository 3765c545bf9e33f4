/** Small facts about numbers that several modules need. */
module Arith {

  function Min(a: nat, b: nat): nat {
    if a < b then a else b
  }

  /** The distance between two numbers. */
  function Gap(a: nat, b: nat): nat {
    if a < b then b - a else a - b
  }

  lemma ProductOrder(a: nat, b: nat, c: nat)
    ensures a <= b ==> a * c <= b * c
  {
  }

  lemma DivBounds(a: nat, b: nat)
    requires b > 0
    ensures a / b * b <= a < (a / b + 1) * b
  {
  }

  lemma QuotientAtLeast(a: nat, b: nat, q: nat)
    requires b > 0
    ensures q <= a / b <==> q * b <= a
  {
    DivBounds(a, b);
    if q <= a / b {
      assert q * b <= a / b * b;
    } else {
      assert (a / b + 1) * b <= q * b;
    }
  }

  lemma SubsetSize<T>(a: set<T>, b: set<T>)
    requires a <= b
    ensures |a| <= |b|
  {
    assert b == a + (b - a);
  }
}
