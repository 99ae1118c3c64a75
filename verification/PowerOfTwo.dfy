/** Capacities that are powers of two (muggle/c/base/utils.c, muggle/c/base/macro.h). */
module PowerOfTwo {
  ghost function Pow2(k: nat): (r: nat)
    ensures r >= 1
  {
    if k == 0 then 1 else 2 * Pow2(k - 1)
  }

  // ---------------------------------------------------------------- remainders

  // The remainder of a counter by a capacity.
  function Mod(a: int, m: int): (r: int)
    ensures m > 0 ==> 0 <= r < m
  {
    if m > 0 then a % m else 0
  }

  lemma MultipleAtLeast(m: int, k: int)
    requires m > 0 && k >= 1
    ensures m * k >= m
  {
    assert m * (k - 1) >= 0;
  }

  lemma SmallMultiple(m: int, k: int)
    requires m > 0 && -m < m * k < m
    ensures k == 0
  {
    if k >= 1 {
      MultipleAtLeast(m, k);
    } else if k <= -1 {
      MultipleAtLeast(m, -k);
    }
  }

  lemma UniqueRemainder(x: int, m: int, q: int, r: int)
    requires m > 0 && x == m * q + r && 0 <= r < m
    ensures Mod(x, m) == r && x % m == r && x / m == q
  {
    var q', r' := x / m, x % m;
    assert x == m * q' + r';
    assert m * (q' - q) == r - r';
    SmallMultiple(m, q' - q);
  }

  /** Two counters that fall on the same slot and are less than one lap apart are equal. */
  lemma SameSlot(a: int, b: int, m: int)
    requires m > 0 && 0 <= a - b < m
    ensures Mod(a, m) == Mod(b, m) <==> a == b
  {
    if a % m == b % m {
      assert a == m * (a / m) + a % m && b == m * (b / m) + b % m;
      assert a - b == m * (a / m - b / m);
      SmallMultiple(m, a / m - b / m);
    }
  }

  /** The slot after a counter's slot is the next counter's slot. */
  lemma NextSlot(a: int, m: int)
    requires m > 0
    ensures Mod(Mod(a, m) + 1, m) == Mod(a + 1, m)
    ensures Mod(a + 1, m) == if Mod(a, m) + 1 == m then 0 else Mod(a, m) + 1
  {
    var q, r := a / m, a % m;
    assert a == m * q + r;
    if r + 1 == m {
      assert a + 1 == m * (q + 1) + 0;
      UniqueRemainder(a + 1, m, q + 1, 0);
      UniqueRemainder(m, m, 1, 0);
    } else {
      UniqueRemainder(a + 1, m, q, r + 1);
      UniqueRemainder(r + 1, m, 0, r + 1);
    }
  }

  lemma SmallRemainder(a: int, m: int)
    requires 0 <= a < m
    ensures Mod(a, m) == a && a % m == a
  {
    UniqueRemainder(a, m, 0, a);
  }

  lemma AddLap(a: int, m: int)
    requires m > 0
    ensures Mod(a + m, m) == Mod(a, m) && (a + m) % m == a % m
  {
    assert a + m == m * (a / m + 1) + a % m;
    UniqueRemainder(a + m, m, a / m + 1, a % m);
  }

  lemma AddInside(a: int, b: int, m: int)
    requires m > 0
    ensures Mod(Mod(a, m) + b, m) == Mod(a + b, m)
  {
    var c := a % m + b;
    assert a + b == m * (a / m) + c && c == m * (c / m) + c % m;
    assert a + b == m * (a / m + c / m) + c % m;
    UniqueRemainder(a + b, m, a / m + c / m, c % m);
  }

  // ---------------------------------------------------------------- masks

  // Bitwise and, digit by digit.
  function And(x: nat, y: nat): nat {
    if x == 0 || y == 0 then 0 else 2 * And(x / 2, y / 2) + (x % 2) * (y % 2)
  }

  /** MUGGLE_IDX_IN_POW_OF_2_RING: masking with capacity - 1 is the remainder. */
  lemma {:induction false} MaskIsRemainder(x: nat, k: nat)
    ensures And(x, Pow2(k) - 1) == x % Pow2(k)
    decreases k
  {
    if k == 0 {
      UniqueRemainder(x, 1, x, 0);
    } else if x == 0 {
      SmallRemainder(0, Pow2(k));
    } else {
      var h := Pow2(k - 1);
      var mask := 2 * h - 1;
      assert mask / 2 == h - 1 && mask % 2 == 1;
      MaskIsRemainder(x / 2, k - 1);
      RemainderOfDouble(x, h);
      assert And(x, mask) == 2 * And(x / 2, h - 1) + x % 2;
    }
  }

  lemma RemainderOfDouble(x: nat, h: nat)
    requires h > 0
    ensures x % (2 * h) == 2 * ((x / 2) % h) + x % 2
  {
    var q, r := (x / 2) / h, (x / 2) % h;
    assert x / 2 == h * q + r;
    assert x == (2 * h) * q + (2 * r + x % 2);
    UniqueRemainder(x, 2 * h, q, 2 * r + x % 2);
  }

  // ---------------------------------------------------------------- rounding up

  // The first of p, 2p, 4p, ... that is not below x.
  function Doubled(x: nat, p: nat): nat
    requires p > 0
    decreases x - p
  {
    if p >= x then p else Doubled(x, 2 * p)
  }

  // The least power of two that is not below x.
  function LeastPow2(x: nat): nat { Doubled(x, 1) }

  lemma {:induction false} DoubledIs(x: nat, k: nat, m: nat)
    requires x <= Pow2(m) && k <= m && (k > 0 ==> Pow2(k - 1) < x)
    ensures x <= Doubled(x, Pow2(k)) <= Pow2(m) && exists j: nat :: j <= m && Doubled(x, Pow2(k)) == Pow2(j)
    decreases m - k
  {
    if Pow2(k) >= x {
      Pow2Grows(k, m);
    } else if k < m {
      assert Pow2(k + 1) == 2 * Pow2(k);
      DoubledIs(x, k + 1, m);
    }
  }

  lemma {:induction false} Pow2Grows(m: nat, n: nat)
    requires m <= n
    ensures Pow2(m) <= Pow2(n)
    decreases n
  {
    if m == n {
    } else {
      Pow2Grows(m, n - 1);
    }
  }

  /** The result is a power of two, not below x, and not above any power of two that is not
      below x. */
  lemma LeastPow2Is(x: nat, m: nat)
    requires x <= Pow2(m)
    ensures x <= LeastPow2(x) <= Pow2(m) && exists j: nat :: j <= m && LeastPow2(x) == Pow2(j)
  {
    DoubledIs(x, 0, m);
  }
}
