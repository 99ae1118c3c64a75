/** muggle_next_pow_of_2 (muggle/c/base/utils.c): the highest one is copied into all lower
    places by shifts of 1, 2, 4, 8 and 16, and one is added.  The shifts reach 32 places,
    although the words have 64. */
module NextPower {
  import opened PowerOfTwo
  import opened Words

  // ---------------------------------------------------------------- places

  function Shift(x: nat, s: nat): nat
    decreases s
  {
    if s == 0 then x else Shift(x / 2, s - 1)
  }

  predicate Bit(x: nat, j: nat) { Shift(x, j) % 2 == 1 }

  lemma BitStep(x: nat, j: nat)
    ensures Bit(x, 0) <==> x % 2 == 1
    ensures Bit(x, j + 1) <==> Bit(x / 2, j)
  {
  }

  // Bitwise or, digit by digit.
  function Or(x: nat, y: nat): nat {
    if x == 0 then y else if y == 0 then x
    else 2 * Or(x / 2, y / 2) + if x % 2 == 1 || y % 2 == 1 then 1 else 0
  }

  lemma {:induction false} ZeroHasNoBit(j: nat)
    ensures !Bit(0, j)
  {
    if j == 0 {
    } else {
      ZeroHasNoBit(j - 1);
    }
  }

  lemma OrStep(x: nat, y: nat)
    ensures Or(x, y) / 2 == Or(x / 2, y / 2)
    ensures Or(x, y) % 2 == 1 <==> x % 2 == 1 || y % 2 == 1
  {
  }

  lemma {:induction false} OrBit(x: nat, y: nat, j: nat)
    ensures Bit(Or(x, y), j) <==> Bit(x, j) || Bit(y, j)
    decreases j
  {
    hide Or, Bit;
    OrStep(x, y);
    if j == 0 {
      BitStep(x, 0);
      BitStep(y, 0);
      BitStep(Or(x, y), 0);
    } else {
      OrBit(x / 2, y / 2, j - 1);
      BitStep(x, j - 1);
      BitStep(y, j - 1);
      BitStep(Or(x, y), j - 1);
    }
  }

  lemma {:induction false} ShiftBit(x: nat, s: nat, j: nat)
    ensures Bit(Shift(x, s), j) <==> Bit(x, j + s)
    decreases s
  {
    if s == 0 {
    } else {
      ShiftBit(x / 2, s - 1, j);
    }
  }

  lemma {:induction false} SomeBit(x: nat) returns (j: nat)
    requires x > 0
    ensures Bit(x, j)
  {
    if x % 2 == 1 {
      j := 0;
    } else {
      var i := SomeBit(x / 2);
      j := i + 1;
    }
  }

  // A number is below 2^m exactly when it has no bit from place m on.
  lemma {:induction false} BelowIffNoBit(x: nat, m: nat)
    ensures x < Pow2(m) ==> forall j: nat :: j >= m ==> !Bit(x, j)
    ensures (forall j: nat :: j >= m ==> !Bit(x, j)) ==> x < Pow2(m)
    decreases m
  {
    if m == 0 {
      if x > 0 {
        var j := SomeBit(x);
      } else {
        forall j: nat ensures !Bit(x, j) { ZeroHasNoBit(j); }
      }
    } else {
      BelowIffNoBit(x / 2, m - 1);
      if x < Pow2(m) {
        forall j: nat | j >= m ensures !Bit(x, j) { assert !Bit(x / 2, j - 1); }
      }
      if forall j: nat :: j >= m ==> !Bit(x, j) {
        forall j: nat | j >= m - 1 ensures !Bit(x / 2, j) { assert !Bit(x, j + 1); }
      }
    }
  }

  // All ones below place m make 2^m - 1, and nothing else does.
  lemma {:induction false} AllOnes(x: nat, m: nat)
    requires x < Pow2(m)
    ensures x == Pow2(m) - 1 <==> forall j: nat :: j < m ==> Bit(x, j)
    decreases m
  {
    if m == 0 {
    } else {
      AllOnes(x / 2, m - 1);
      assert x == 2 * (x / 2) + x % 2 && Pow2(m) == 2 * Pow2(m - 1);
      if x == Pow2(m) - 1 {
        forall j: nat | j < m ensures Bit(x, j) {
          if j > 0 { assert Bit(x / 2, j - 1); }
        }
      }
      if forall j: nat :: j < m ==> Bit(x, j) {
        assert Bit(x, 0);
        forall j: nat | j < m - 1 ensures Bit(x / 2, j) { assert Bit(x, j + 1); }
      }
    }
  }

  // ---------------------------------------------------------------- the shifts

  // y has a one wherever x has one in the w places from there upwards.
  ghost predicate Smeared(x: nat, y: nat, w: nat) {
    forall j: nat :: Bit(y, j) <==> exists i: nat :: j <= i < j + w && Bit(x, i)
  }

  lemma SmearOnce(x: nat, y: nat, w: nat)
    requires Smeared(x, y, w)
    ensures Smeared(x, Or(y, Shift(y, w)), 2 * w)
  {
    hide Bit, Or, Shift;
    var z := Or(y, Shift(y, w));
    forall j: nat ensures Bit(z, j) <==> exists i: nat :: j <= i < j + 2 * w && Bit(x, i) {
      OrBit(y, Shift(y, w), j);
      ShiftBit(y, w, j);
      if Bit(z, j) {
        if Bit(y, j) {
          var i: nat :| j <= i < j + w && Bit(x, i);
          assert j <= i < j + 2 * w && Bit(x, i);
        } else {
          var i: nat :| j + w <= i < j + w + w && Bit(x, i);
          assert j <= i < j + 2 * w && Bit(x, i);
        }
      }
      if i: nat :| j <= i < j + 2 * w && Bit(x, i) {
        assert if i < j + w then Bit(y, j) else Bit(y, j + w);
      }
    }
  }

  function Smear(x: nat): nat {
    var x1 := Or(x, Shift(x, 1));
    var x2 := Or(x1, Shift(x1, 2));
    var x3 := Or(x2, Shift(x2, 4));
    var x4 := Or(x3, Shift(x3, 8));
    Or(x4, Shift(x4, 16))
  }

  lemma SmearReaches32(x: nat)
    ensures Smeared(x, Smear(x), 32)
  {
    hide Or, Shift, Bit;
    assert Smeared(x, x, 1) by {
      forall j: nat ensures Bit(x, j) <==> exists i: nat :: j <= i < j + 1 && Bit(x, i) {
        if Bit(x, j) { assert j <= j < j + 1; }
      }
    }
    hide Smeared;
    var x1 := Or(x, Shift(x, 1));
    SmearOnce(x, x, 1);
    var x2 := Or(x1, Shift(x1, 2));
    SmearOnce(x, x1, 2);
    var x3 := Or(x2, Shift(x2, 4));
    SmearOnce(x, x2, 4);
    SmearOnce(x, x3, 8);
    SmearOnce(x, Or(x3, Shift(x3, 8)), 16);
  }

  // MUGGLE_IS_POW_OF_2; 0 passes for a power of two.
  predicate IsPowOf2(x: nat) { x == 0 || And(x, x - 1) == 0 }

  function NextPowOf2(x: nat): nat {
    if IsPowOf2(x) then x else (Smear(x) + 1) % TWO_TO_64
  }

  // ---------------------------------------------------------------- what it computes

  lemma {:induction false} AndItself(x: nat)
    ensures And(x, x) == x
  {
    if x == 0 {
    } else {
      AndItself(x / 2);
    }
  }

  ghost predicate Power(x: nat) { exists k: nat :: x == Pow2(k) }

  lemma PowerHalves(x: nat)
    requires x > 1
    ensures Power(x) <==> x % 2 == 0 && Power(x / 2)
  {
    if Power(x) {
      var k: nat :| x == Pow2(k);
      assert x == 2 * Pow2(k - 1);
      assert x / 2 == Pow2(k - 1);
    }
    if x % 2 == 0 && Power(x / 2) {
      var k: nat :| x / 2 == Pow2(k);
      assert Pow2(k + 1) == 2 * Pow2(k);
      assert x == Pow2(k + 1);
    }
  }

  /** The test is right, but for 0. */
  lemma {:induction false} IsPowOf2IsRight(x: nat)
    requires x > 0
    ensures IsPowOf2(x) <==> Power(x)
  {
    hide Power;
    if x == 1 {
      OneIsPower();
    } else {
      PowerHalves(x);
      if x % 2 == 1 {
        AndItself(x / 2);
        assert (x - 1) / 2 == x / 2;
      } else {
        IsPowOf2IsRight(x / 2);
        assert (x - 1) / 2 == x / 2 - 1 && And(x, x - 1) == 2 * And(x / 2, x / 2 - 1);
      }
    }
  }

  lemma OneIsPower()
    ensures Power(1)
  {
    assert 1 == Pow2(0);
  }

  lemma {:induction false} Highest(x: nat) returns (k: nat)
    requires x > 0
    ensures Pow2(k) <= x < Pow2(k + 1)
  {
    if x == 1 {
      k := 0;
      assert Pow2(1) == 2;
    } else {
      var h := Highest(x / 2);
      k := h + 1;
      assert Pow2(k + 1) == 2 * Pow2(h + 1);
    }
  }

  lemma LeastPow2Between(x: nat, k: nat)
    requires Pow2(k) < x <= Pow2(k + 1)
    ensures LeastPow2(x) == Pow2(k + 1)
  {
    hide Pow2, LeastPow2;
    LeastPow2Is(x, k + 1);
    var j: nat :| j <= k + 1 && LeastPow2(x) == Pow2(j);
    if j <= k { Pow2Grows(j, k); }
  }

  // The least power of two is a power, and half of it would be too small.
  lemma LeastPow2IsTight(x: nat)
    requires x > 0
    ensures Power(LeastPow2(x)) && (LeastPow2(x) == 1 || LeastPow2(x) / 2 < x)
  {
    hide LeastPow2;
    var k := Highest(x);
    LeastPow2Is(x, k + 1);
    var j: nat :| j <= k + 1 && LeastPow2(x) == Pow2(j);
    if j > 0 && x <= Pow2(j - 1) { LeastPow2Is(x, j - 1); }
  }

  lemma LeastPow2OfPower(k: nat)
    ensures LeastPow2(Pow2(k)) == Pow2(k)
  {
    hide LeastPow2;
    LeastPow2Is(Pow2(k), k);
  }

  // Below its highest one, x has no 32 zeros in a row.
  ghost predicate Dense(x: nat) {
    forall j: nat, i: nat :: j <= i && Bit(x, i) ==> HasBit(x, j)
  }

  ghost predicate HasBit(x: nat, j: nat) { exists i: nat :: j <= i < j + 32 && Bit(x, i) }

  lemma SmearIs(x: nat, k: nat)
    requires Pow2(k) <= x < Pow2(k + 1)
    ensures Smear(x) < Pow2(k + 1)
    ensures Smear(x) + 1 == Pow2(k + 1) <==> Dense(x)
  {
    hide Bit, Smear, Pow2;
    var y := Smear(x);
    SmearReaches32(x);
    BelowIffNoBit(x, k + 1);
    BelowIffNoBit(x, k);
    BelowIffNoBit(y, k + 1);
    assert Bit(x, k);
    AllOnes(y, k + 1);
    assert forall j: nat :: Bit(y, j) <==> HasBit(x, j);
    if Dense(x) {
      forall j: nat | j < k + 1 ensures Bit(y, j) { assert j <= k && Bit(x, k); }
    }
    if forall j: nat :: j < k + 1 ==> Bit(y, j) {
      forall j: nat, i: nat | j <= i && Bit(x, i) ensures HasBit(x, j) { assert j < k + 1; }
    }
  }

  /** For every number up to 2^63: the result is the least power of two that is not below it, if
      and only if the number is a power of two or has, below its highest one, no 32 zeros in a
      row. */
  lemma NextPowOf2IsLeastIff(x: nat)
    requires 0 < x <= TWO_TO_64 / 2
    ensures NextPowOf2(x) == LeastPow2(x) <==> IsPowOf2(x) || Dense(x)
  {
    hide Smear, Pow2, LeastPow2, Dense, And;
    IsPowOf2IsRight(x);
    if IsPowOf2(x) {
      var k: nat :| x == Pow2(k);
      LeastPow2OfPower(k);
    } else {
      var k := Highest(x);
      SmearIs(x, k);
      LeastPow2Between(x, k);
      Pow2Of63();
      if 63 <= k { Pow2Grows(63, k); }
      Pow2Grows(k + 1, 63);
    }
  }

  lemma Pow2Of63()
    ensures Pow2(32) == TWO_TO_32 && Pow2(63) == TWO_TO_64 / 2
  {
    assert Pow2(8) == 0x100;
    assert Pow2(16) == 0x1_0000;
    assert Pow2(24) == 0x100_0000;
    assert Pow2(32) == 0x1_0000_0000;
    assert Pow2(40) == 0x100_0000_0000;
    assert Pow2(48) == 0x1_0000_0000_0000;
    assert Pow2(56) == 0x100_0000_0000_0000;
  }

  /** In particular for the capacities, which have 32 bits. */
  lemma NextPowOf2IsLeast(x: nat)
    requires 0 < x <= TWO_TO_32
    ensures NextPowOf2(x) == LeastPow2(x)
  {
    hide NextPowOf2, LeastPow2, Bit, Pow2;
    NextPowOf2IsLeastIff(x);
    Pow2Of63();
    if x == TWO_TO_32 {
      IsPowOf2IsRight(x);
    } else {
      BelowIffNoBit(x, 32);
      forall j: nat, i: nat | j <= i && Bit(x, i) ensures HasBit(x, j) { assert i < 32; }
    }
  }

  lemma {:induction false} TwoBits(m: nat, j: nat)
    requires m > 0
    ensures Bit(Pow2(m) + 1, j) <==> j == 0 || j == m
  {
    PowerBit(m - 1, if j == 0 then 0 else j - 1);
    assert (Pow2(m) + 1) / 2 == Pow2(m - 1);
  }

  lemma {:induction false} PowerBit(m: nat, j: nat)
    ensures Bit(Pow2(m), j) <==> j == m
  {
    if m == 0 {
      if j > 0 { ZeroHasNoBit(j - 1); }
    } else if j == 0 {
    } else {
      PowerBit(m - 1, j - 1);
    }
  }

  /** A number that it gets wrong: 2^33 + 1. */
  lemma NextPowOf2Fails()
    ensures NextPowOf2(Pow2(33) + 1) != LeastPow2(Pow2(33) + 1)
  {
    hide NextPowOf2, LeastPow2, Bit, And;
    var x := Pow2(33) + 1;
    Pow2Of63();
    NextPowOf2IsLeastIff(x);
    forall j: nat ensures Bit(x, j) <==> j == 0 || j == 33 { TwoBits(33, j); }
    assert Bit(x, 33) && !HasBit(x, 1);
    assert Pow2(33) == 2 * Pow2(32);
    IsPowOf2IsRight(x);
    forall k: nat ensures x != Pow2(k) {
      PowerBit(k, 0);
      PowerBit(k, 33);
    }
  }
}
