/** Index arithmetic of the ring: bitwise masks, moduli, and unsigned 64-bit wrap-around. */
module Masks {

  const SIZE_WRAP: int := 0x1_0000_0000_0000_0000

  /** size_t arithmetic. */
  function Size(x: int): (r: nat)
    ensures r < SIZE_WRAP
  {
    x % SIZE_WRAP
  }

  /** The bitwise conjunction of two unsigned numbers. */
  function BitAnd(a: nat, b: nat): nat {
    if a == 0 || b == 0 then 0 else 2 * BitAnd(a / 2, b / 2) + (if a % 2 == 1 && b % 2 == 1 then 1 else 0)
  }

  function Pow2(k: nat): (n: nat)
    ensures n >= 1
  {
    if k == 0 then 1 else 2 * Pow2(k - 1)
  }

  ghost predicate PowerOfTwo(n: nat) {
    exists k: nat :: n == Pow2(k)
  }

  lemma {:induction false} BitAndSelf(a: nat)
    ensures BitAnd(a, a) == a
  {
    if a > 0 {
      BitAndSelf(a / 2);
    }
  }

  /** The compile-time check of the capacity accepts exactly the powers of two. */
  lemma {:induction false} PowerOfTwoTest(n: nat)
    requires n > 0
    ensures BitAnd(n, n - 1) == 0 <==> PowerOfTwo(n)
  {
    if n == 1 {
      assert Pow2(0) == 1;
    } else if n % 2 == 1 {
      assert (n - 1) / 2 == n / 2 && (n - 1) % 2 == 0;
      BitAndSelf(n / 2);
      OddIsNoPower(n);
    } else {
      var m := n / 2;
      assert (n - 1) / 2 == m - 1 && n % 2 == 0;
      PowerOfTwoTest(m);
      if PowerOfTwo(m) {
        var k: nat :| m == Pow2(k);
        assert n == Pow2(k + 1);
      }
      if PowerOfTwo(n) {
        var k: nat :| n == Pow2(k);
        assert m == Pow2(k - 1);
      }
    }
  }

  lemma OddIsNoPower(n: nat)
    requires n > 1 && n % 2 == 1
    ensures !PowerOfTwo(n)
  {
  }

  lemma MulAtLeast(q: int, n: nat)
    requires q >= 1
    ensures q * n >= n
  {
  }

  /** x = q n + r with 0 <= r < n has only one solution. */
  lemma ModUnique(x: int, q: int, r: nat, n: nat)
    requires n > 0 && x == q * n + r && r < n
    ensures x % n == r
  {
    var q', r' := x / n, x % n;
    assert x == q' * n + r' && 0 <= r' < n;
    assert (q - q') * n == q * n - q' * n && (q' - q) * n == q' * n - q * n;
    if q > q' {
      MulAtLeast(q - q', n);
    } else if q < q' {
      MulAtLeast(q' - q, n);
    }
  }

  /** Stepping an index by less than the size of the ring. */
  lemma ModAdd(x: nat, d: nat, n: nat)
    requires 0 <= d < n
    ensures (x + d) % n == if x % n + d < n then x % n + d else x % n + d - n
  {
    var q, r := x / n, x % n;
    assert x == q * n + r;
    if r + d < n {
      ModUnique(x + d, q, r + d, n);
    } else {
      assert x + d == (q + 1) * n + (r + d - n);
      ModUnique(x + d, q + 1, r + d - n, n);
    }
  }

  lemma ModPeriod(x: nat, n: nat)
    requires n > 0
    ensures (x + n) % n == x % n
  {
    var q := x / n;
    assert (q + 1) * n == q * n + n;
    ModUnique(x + n, q + 1, x % n, n);
  }

  lemma ModDouble(x: nat, m: nat)
    requires m > 0
    ensures x % (2 * m) == 2 * ((x / 2) % m) + x % 2
  {
    var q, r := (x / 2) / m, (x / 2) % m;
    assert x / 2 == q * m + r;
    assert q * (2 * m) == 2 * (q * m);
    ModUnique(x, q, 2 * r + x % 2, 2 * m);
  }

  lemma BitAndOnes(x: nat, m: nat)
    requires m > 0
    ensures BitAnd(x, 2 * m - 1) == 2 * BitAnd(x / 2, m - 1) + x % 2
  {
    assert (2 * m - 1) / 2 == m - 1 && (2 * m - 1) % 2 == 1;
    assert BitAnd(0, m - 1) == 0;
  }

  /** For a power of two, masking with n - 1 is reduction modulo n. */
  lemma {:induction false} MaskIsModulo(x: nat, k: nat)
    ensures BitAnd(x, Pow2(k) - 1) == x % Pow2(k)
  {
    if k > 0 {
      MaskIsModulo(x / 2, k - 1);
      BitAndOnes(x, Pow2(k - 1));
      ModDouble(x, Pow2(k - 1));
    }
  }

  lemma {:induction false} Pow2Bound(k: nat, m: nat)
    requires k <= m
    ensures Pow2(k) <= Pow2(m)
  {
    if k < m {
      Pow2Bound(k, m - 1);
    }
  }

  lemma Pow63()
    ensures Pow2(63) == 0x8000_0000_0000_0000
  {
    assert Pow2(8) == 0x100;
    assert Pow2(16) == 0x1_0000;
    assert Pow2(24) == 0x100_0000;
    assert Pow2(32) == 0x1_0000_0000;
    assert Pow2(40) == 0x100_0000_0000;
    assert Pow2(48) == 0x1_0000_0000_0000;
    assert Pow2(56) == 0x100_0000_0000_0000;
  }

  /** The distance from tail to head around a ring of size n. */
  function Distance(h: nat, t: nat, n: nat): nat
    requires h < n && t < n
  {
    if h >= t then h - t else h + n - t
  }

  lemma SizeWraps(h: nat, t: nat, n: nat)
    requires h < n && t < n && n <= 0x8000_0000_0000_0000
    ensures Size(Size(h - t) + n) == h - t + n
  {
  }

  /** The size formula is the distance, although `h - t` may wrap below zero at 64 bits. */
  lemma SizeFormula(h: nat, t: nat, k: nat)
    requires k <= 63 && h < Pow2(k) && t < Pow2(k)
    ensures BitAnd(Size(Size(h - t) + Pow2(k)), Pow2(k) - 1) == Distance(h, t, Pow2(k))
  {
    hide Size, BitAnd, Pow2;
    var n := Pow2(k);
    Pow2Bound(k, 63);
    Pow63();
    SizeWraps(h, t, n);
    MaskIsModulo(h - t + n, k);
    ModUnique(h - t + n, if h >= t then 1 else 0, Distance(h, t, n), n);
  }
}
