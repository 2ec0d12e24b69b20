/** Single bits of an integer, in the two's complement reading: bit k of n is the parity of n
    shifted right by k. */
module Bits {

  function Pow2(k: nat): (p: nat)
    ensures p >= 1
  {
    if k == 0 then 1 else 2 * Pow2(k - 1)
  }

  /** n & (1 << k) != 0 */
  predicate Bit(n: int, k: nat) {
    n / Pow2(k) % 2 == 1
  }

  /** n | 1 << k */
  function SetBit(n: int, k: nat): int {
    if Bit(n, k) then n else n + Pow2(k)
  }

  lemma DivPow2(n: int, k: nat)
    ensures n / Pow2(k + 1) == n / 2 / Pow2(k)
  {
    var p := Pow2(k);
    var q, r := n / 2 / p, n / 2 % p;
    assert n == 2 * (n / 2) + n % 2;
    assert n / 2 == q * p + r;
    assert n == q * (2 * p) + (2 * r + n % 2);
    Quotient(n, 2 * p, q, 2 * r + n % 2);
  }

  lemma Quotient(n: int, d: int, q: int, r: int)
    requires d > 0 && 0 <= r < d && n == q * d + r
    ensures n / d == q
  {
    var k := n / d - q;
    Distribute(n / d, q, d);
    assert k * d == r - n % d;
    if k > 0 {
      AtLeastOnce(k, d);
    } else if k < 0 {
      AtLeastOnce(-k, d);
    }
  }

  lemma Distribute(a: int, b: int, d: int)
    ensures (a - b) * d == a * d - b * d
  {
  }

  lemma AtLeastOnce(a: int, d: int)
    requires a >= 1 && d > 0
    ensures a * d >= d
  {
  }

  lemma BitShift(n: int, k: nat)
    ensures Bit(n, k + 1) == Bit(n / 2, k)
    ensures Bit(n, 0) == (n % 2 == 1)
  {
    DivPow2(n, k);
  }

  lemma {:induction false} SetBitMeaning(n: int, k: nat, j: nat)
    ensures Bit(SetBit(n, k), j) <==> j == k || Bit(n, j)
    decreases k
  {
    if !Bit(n, k) {
      AddBit(n, k, j);
    }
  }

  lemma {:induction false} AddBit(n: int, k: nat, j: nat)
    requires !Bit(n, k)
    ensures Bit(n + Pow2(k), j) <==> j == k || Bit(n, j)
    decreases k
  {
    if k == 0 {
      AddLowestBit(n, j);
    } else {
      var p := Pow2(k - 1);
      BitShift(n, k - 1);
      assert n + Pow2(k) == n + 2 * p;
      ShiftSum(n, p);
      if j == 0 {
        BitShift(n, 0);
        BitShift(n + 2 * p, 0);
      } else {
        BitShift(n, j - 1);
        BitShift(n + 2 * p, j - 1);
        AddBit(n / 2, k - 1, j - 1);
      }
    }
  }

  lemma ShiftSum(n: int, p: int)
    ensures (n + 2 * p) / 2 == n / 2 + p
    ensures (n + 2 * p) % 2 == n % 2
  {
  }

  lemma AddLowestBit(n: int, j: nat)
    requires !Bit(n, 0)
    ensures Bit(n + 1, j) <==> j == 0 || Bit(n, j)
  {
    BitShift(n, 0);
    BitShift(n + 1, 0);
    if j > 0 {
      assert (n + 1) / 2 == n / 2;
      BitShift(n, j - 1);
      BitShift(n + 1, j - 1);
    }
  }

  /** Two non-negative integers with the same bits are equal. */
  lemma {:induction false} BitsDetermine(n: nat, m: nat)
    requires forall j: nat :: Bit(n, j) == Bit(m, j)
    ensures n == m
    decreases n + m
  {
    if n + m > 0 {
      forall j: nat ensures Bit(n / 2, j) == Bit(m / 2, j) {
        BitShift(n, j);
        BitShift(m, j);
        assert Bit(n, j + 1) == Bit(m, j + 1);
      }
      BitsDetermine(n / 2, m / 2);
      BitShift(n, 0);
      BitShift(m, 0);
      assert Bit(n, 0) == Bit(m, 0);
    }
  }

  /** The low bits of n are the bits of n modulo a power of two. */
  lemma {:induction false} LowBits(n: int, k: nat, j: nat)
    ensures Bit(n % Pow2(k), j) <==> j < k && Bit(n, j)
    decreases k
  {
    if k == 0 {
      assert n % 1 == 0;
      ZeroHasNoBits(j);
    } else {
      var p := Pow2(k - 1);
      ModTwice(n, p);
      if j == 0 {
        BitShift(n, 0);
        BitShift(n % (2 * p), 0);
      } else {
        LowBits(n / 2, k - 1, j - 1);
        BitShift(n, j - 1);
        BitShift(n % (2 * p), j - 1);
      }
    }
  }

  lemma ZeroHasNoBits(j: nat)
    ensures !Bit(0, j)
  {
    Quotient(0, Pow2(j), 0, 0);
  }

  lemma ModTwice(n: int, p: nat)
    requires p >= 1
    ensures n % (2 * p) / 2 == n / 2 % p
    ensures n % (2 * p) % 2 == n % 2
  {
    var q, r := n / 2 / p, n / 2 % p;
    assert n / 2 == q * p + r;
    var s := 2 * r + n % 2;
    assert n == q * (2 * p) + s;
    Quotient(n, 2 * p, q, s);
    assert n % (2 * p) == s;
  }
}
