/**
 Bitwise AND and XOR of natural numbers, bit by bit, and what a mask of low ones does:
 the facts behind replacing a modulo by a mask.
 */
module Bits {

  function Pow2(k: nat): (p: nat)
    ensures p > 0
  {
    if k == 0 then 1 else 2 * Pow2(k - 1)
  }

  ghost predicate IsPow2(n: int) {
    exists k: nat :: n == Pow2(k)
  }

  function And(a: nat, b: nat): nat {
    if a == 0 || b == 0 then 0 else
      (if a % 2 == 1 && b % 2 == 1 then 1 else 0) + 2 * And(a / 2, b / 2)
  }

  function Xor(a: nat, b: nat): nat
    decreases a + b
  {
    if a == 0 then b else if b == 0 then a else
      (if a % 2 == b % 2 then 0 else 1) + 2 * Xor(a / 2, b / 2)
  }

  /** Dividing by twice m can be done one bit at a time. */
  lemma {:induction false} HalfMod(x: nat, m: nat)
    requires m > 0
    ensures x % (2 * m) == x % 2 + 2 * (x / 2 % m)
  {
    var q := x / 2 / m;
    var r := x / 2 % m;
    assert x / 2 == q * m + r;
    assert x == q * (2 * m) + (x % 2 + 2 * r) by {
      assert q * (2 * m) == 2 * (q * m);
    }
    ModUnique(x, 2 * m, q, x % 2 + 2 * r);
  }

  lemma {:induction false} ModUnique(x: int, m: int, q: int, r: int)
    requires m > 0 && x == q * m + r && 0 <= r < m
    ensures x % m == r && x / m == q
  {
    var q', r' := x / m, x % m;
    assert x == q' * m + r';
    assert (q - q') * m == r' - r;
    if q > q' {
      assert (q - q') * m >= m by { MulAtLeast(q - q', m); }
    } else if q < q' {
      MulAtLeast(q' - q, m);
    }
  }

  /** The same, where the modulus is a power of two. */
  lemma {:induction false} HalfModPow(x: nat, k: nat)
    requires k > 0
    ensures x % Pow2(k) == x % 2 + 2 * (x / 2 % Pow2(k - 1))
  {
    HalfMod(x, Pow2(k - 1));
  }

  lemma {:induction false} MulAtLeast(a: int, m: int)
    requires a >= 1 && m >= 0
    ensures a * m >= m
  {
  }

  /** Masking with n - 1 is the remainder by n when n is a power of two. */
  lemma {:induction false} MaskIsMod(h: nat, k: nat)
    ensures And(h, Pow2(k) - 1) == h % Pow2(k)
    decreases k
  {
    if k == 0 {
    } else {
      var low := Pow2(k) - 1;
      MaskHalves(Pow2(k - 1));
      assert low % 2 == 1 && low / 2 == Pow2(k - 1) - 1;
      AndHalves(h, low);
      MaskIsMod(h / 2, k - 1);
      HalfModPow(h, k);
    }
  }

  lemma {:induction false} MaskHalves(m: nat)
    requires m > 0
    ensures (2 * m - 1) / 2 == m - 1 && (2 * m - 1) % 2 == 1
  {
  }

  lemma {:induction false} AndHalves(a: nat, b: nat)
    requires b % 2 == 1
    ensures And(a, b) == a % 2 + 2 * And(a / 2, b / 2)
  {
  }

  /** Clearing the lowest set bit leaves nothing exactly when only one bit was set. */
  lemma {:induction false} SingleBit(n: nat)
    requires n > 0
    ensures And(n, n - 1) == 0 <==> IsPow2(n)
    decreases n
  {
    if n == 1 {
      assert n == Pow2(0);
    } else if n % 2 == 1 {
      assert (n - 1) / 2 == n / 2;
      AndSelf(n / 2);
      forall k: nat ensures n != Pow2(k) {
        if k > 0 { assert Pow2(k) == 2 * Pow2(k - 1); }
      }
    } else {
      assert (n - 1) / 2 == n / 2 - 1;
      SingleBit(n / 2);
      if IsPow2(n / 2) {
        var k: nat :| n / 2 == Pow2(k);
        assert n == Pow2(k + 1);
      }
      if IsPow2(n) {
        var k: nat :| n == Pow2(k);
        assert n / 2 == Pow2(k - 1);
      }
    }
  }

  lemma {:induction false} AndSelf(a: nat)
    ensures And(a, a) == a
  {
    if a > 0 { AndSelf(a / 2); }
  }

  /** XOR acts on each bit alone, so its low bits depend on the low bits only. */
  lemma {:induction false} XorMod(a: nat, b: nat, k: nat)
    ensures Xor(a, b) % Pow2(k) == Xor(a % Pow2(k), b % Pow2(k)) % Pow2(k)
    decreases k
  {
    if k == 0 {
    } else {
      var a', b' := a % Pow2(k), b % Pow2(k);
      HalfModPow(a, k);
      HalfModPow(b, k);
      HalfModPow(Xor(a, b), k);
      HalfModPow(Xor(a', b'), k);
      XorHalves(a, b);
      XorHalves(a', b');
      assert a' / 2 == a / 2 % Pow2(k - 1) && b' / 2 == b / 2 % Pow2(k - 1);
      XorMod(a / 2, b / 2, k - 1);
    }
  }

  lemma {:induction false} XorHalves(a: nat, b: nat)
    ensures Xor(a, b) / 2 == Xor(a / 2, b / 2)
    ensures Xor(a, b) % 2 == if a % 2 == b % 2 then 0 else 1
  {
  }

  lemma {:induction false} ModMod(x: nat, m: nat)
    requires m > 0
    ensures x % m % m == x % m
  {
  }

  /** Products reduce modulo m factor by factor. */
  lemma {:induction false} MulMod(a: nat, p: nat, m: nat)
    requires m > 0
    ensures a * p % m == (a % m) * p % m
  {
    var q, r := a / m, a % m;
    var q', r' := r * p / m, r * p % m;
    assert r * p == q' * m + r';
    assert a * p == (q * p + q') * m + r' by {
      assert a * p == (q * m + r) * p;
      assert (q * m + r) * p == q * m * p + r * p;
      assert q * m * p == q * p * m;
    }
    ModUnique(a * p, m, q * p + q', r');
  }

  /** Reducing modulo a multiple first changes nothing. */
  lemma {:induction false} ModOfMultiple(x: nat, c: nat, m: nat)
    requires m > 0 && c > 0
    ensures c * m > 0 && x % (c * m) % m == x % m
  {
    MulAtLeast(c, m);
    var q, r := x / (c * m), x % (c * m);
    assert x == q * (c * m) + r;
    var q', r' := r / m, r % m;
    assert x == (q * c + q') * m + r' by {
      assert q * (c * m) == q * c * m;
    }
    ModUnique(x, m, q * c + q', r');
  }

  lemma {:induction false} Pow2Splits(j: nat, k: nat)
    requires j <= k
    ensures Pow2(k) == Pow2(k - j) * Pow2(j)
    decreases k
  {
    if j == 0 {
    } else {
      Pow2Splits(j - 1, k - 1);
      assert Pow2(k) == 2 * (Pow2(k - j) * Pow2(j - 1));
    }
  }

  /** XOR with a number below 2^k leaves all bits from k on. */
  lemma {:induction false} XorSplits(a: nat, b: nat, k: nat)
    requires b < Pow2(k)
    ensures Xor(a, b) == a / Pow2(k) * Pow2(k) + Xor(a % Pow2(k), b)
    decreases k
  {
    var m := Pow2(k);
    if k == 0 {
      XorZero(a);
    } else {
      XorHalves(a, b);
      XorHalves(a % m, b);
      XorSplits(a / 2, b / 2, k - 1);
      HalvesOfRemainder(a, Pow2(k - 1));
    }
  }

  lemma {:induction false} XorZero(a: nat)
    ensures Xor(a, 0) == a
  {
  }

  lemma {:induction false} HalvesOfRemainder(a: nat, m: nat)
    requires m > 0
    ensures a % (2 * m) / 2 == a / 2 % m
    ensures a % (2 * m) % 2 == a % 2
    ensures a / (2 * m) == a / 2 / m
    ensures a / (2 * m) * (2 * m) == 2 * (a / 2 / m * m)
  {
    HalfMod(a, m);
    var q, r := a / 2 / m, a / 2 % m;
    assert a / 2 == q * m + r;
    assert a == q * (2 * m) + (a % 2 + 2 * r) by { assert q * (2 * m) == 2 * (q * m); }
    ModUnique(a, 2 * m, q, a % 2 + 2 * r);
  }
}
