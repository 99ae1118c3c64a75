/** The cipher modes block by block, in the terms of section 6 of NIST SP 800-38A: what is put into
    the block function, and what is mixed with what.  The functions of CipherModes, which follow
    the code byte by byte, are shown to compute this. */
module ModesByBlock {
  import opened CipherModes
  import opened CryptBase
  import P = PowerOfTwo
  import opened Words

  // ys is the exclusive or of xs and ks.
  ghost predicate IsXor(xs: seq<Byte>, ks: seq<Byte>, ys: seq<Byte>) {
    |xs| == |ks| == |ys| && forall i :: 0 <= i < |xs| ==> ys[i] == xs[i] ^ ks[i]
  }

  lemma {:induction false} MixAllIsXor(xs: seq<Byte>, ks: seq<Byte>)
    requires |xs| == |ks|
    ensures IsXor(xs, ks, MixAll(xs, ks)) && IsXor(ks, xs, MixAll(xs, ks))
  {
    if xs == [] {
    } else {
      MixAllIsXor(xs[1..], ks[1..]);
      MixAllStep(xs, ks);
      MixIsXor(xs[0], ks[0]);
      hide Mix, MixAll;
      var ys := MixAll(xs, ks);
      forall i | 0 <= i < |xs| ensures ys[i] == xs[i] ^ ks[i] && ys[i] == ks[i] ^ xs[i] {
        if i > 0 { assert ys[i] == MixAll(xs[1..], ks[1..])[i - 1]; }
      }
    }
  }

  lemma MixIsXor(x: Byte, k: Byte)
    ensures Mix(x, k) == x ^ k == k ^ x
  {
  }

  // ---------------------------------------------------------------- the counter block

  // The number that bytes stand for, the lowest first.
  function Value(b: seq<Byte>): nat {
    if b == [] then 0 else b[0] as nat + 256 * Value(b[1..])
  }

  lemma LessByAByte(n: nat, p: nat)
    requires n < 256 * p
    ensures n / 256 < p
  {
  }

  lemma LittleNone(n: nat)
    ensures Value(Little(n, 0)) == 0
  {
  }

  lemma LittleFirst(n: nat, k: nat)
    requires k > 0
    ensures Value(Little(n, k)) == (n % 256) as Byte as nat + 256 * Value(Little(n / 256, k - 1))
  {
    assert Little(n, k)[1..] == Little(n / 256, k - 1);
  }

  lemma {:induction false} LittleIs(n: nat, k: nat)
    requires n < P.Pow2(8 * k)
    ensures Value(Little(n, k)) == n
  {
    hide P.Pow2, Value, Little;
    if k == 0 {
      PowerZero();
      LittleNone(n);
    } else {
      EightMore(8 * k - 8);
      LessByAByte(n, P.Pow2(8 * k - 8));
      LittleIs(n / 256, k - 1);
      LastByte(n);
      LittleFirst(n, k);
    }
  }

  lemma LastByte(n: nat)
    ensures (n % 256) as Byte as nat + 256 * (n / 256) == n
  {
  }

  lemma EightMore(k: nat)
    ensures P.Pow2(k + 8) == 256 * P.Pow2(k)
  {
    assert P.Pow2(k + 8) == 2 * P.Pow2(k + 7) == 4 * P.Pow2(k + 6);
    assert P.Pow2(k + 6) == 2 * P.Pow2(k + 5) == 4 * P.Pow2(k + 4);
    assert P.Pow2(k + 4) == 2 * P.Pow2(k + 3) == 4 * P.Pow2(k + 2);
    assert P.Pow2(k + 2) == 2 * P.Pow2(k + 1) == 4 * P.Pow2(k);
  }

  // 2^64 for blocks of 8 bytes, 2^128 for blocks of 16.
  function Counters(size: nat): nat { if size == 8 then TWO_TO_64 else TWO_TO_128 }

  lemma PowerZero()
    ensures P.Pow2(0) == 1
  {
  }

  lemma CountersArePowers()
    ensures P.Pow2(64) == TWO_TO_64 && P.Pow2(128) == TWO_TO_128
  {
    hide P.Pow2;
    PowerZero();
    EightMore(0);
    EightMore(8);
    EightMore(16);
    EightMore(24);
    EightMore(32);
    EightMore(40);
    EightMore(48);
    EightMore(56);
    EightMore(64);
    EightMore(72);
    EightMore(80);
    EightMore(88);
    EightMore(96);
    EightMore(104);
    EightMore(112);
    EightMore(120);
  }

  lemma CounterBlock(c: Cipher, n: nat)
    requires Sized(c) && n < Modulus(c)
    ensures NextNonce(c, n) == (n + 1) % Counters(c.size) && Value(Little(NextNonce(c, n), c.size)) == NextNonce(c, n)
  {
    hide P.Pow2, Little, Value;
    CountersArePowers();
    LittleIs(NextNonce(c, n), c.size);
  }

  // ---------------------------------------------------------------- CFB, OFB and CTR

  // b is what the block function is given: the next counter, or the block carried on.
  ghost predicate GivenTo(m: Mode, c: Cipher, s: State, b: seq<Byte>) {
    |b| == c.size && if m.Ctr? then Value(b) == (s.nonce + 1) % Counters(c.size) else b == s.block
  }

  // t carries on the ciphertext (CFB), the output of the block function (OFB) or the counter (CTR).
  ghost predicate Carries(m: Mode, c: Cipher, s: State, b: seq<Byte>, xs: seq<Byte>, ys: seq<Byte>, t: State) {
    && t.offset == 0
    && match m
       case Cfb(op) => t.block == (if op == ENCRYPT then ys else xs) && t.nonce == s.nonce
       case Ofb => t.block == c.e(b) && t.nonce == s.nonce
       case Ctr => t.nonce == Value(b)
  }

  lemma BlockIs(m: Mode, c: Cipher, s: State, xs: seq<Byte>) returns (b: seq<Byte>)
    requires Sized(c) && Fits(c, s) && s.offset == 0 && |xs| == c.size
    ensures GivenTo(m, c, s, b)
    ensures var (t, ys) := Run(m, c, s, xs); IsXor(xs, c.e(b), ys) && Carries(m, c, s, b, xs, ys, t)
  {
    hide Run, MixAll, Value, Little, NextNonce, IsXor;
    RunBlock(m, c, s, xs);
    MixAllIsXor(xs, KeyBlock(m, c, s));
    if m.Ctr? {
      CounterBlock(c, s.nonce);
      b := Little(NextNonce(c, s.nonce), c.size);
    } else {
      b := s.block;
    }
  }

  lemma GivenIsBlock(m: Mode, c: Cipher, s: State, b: seq<Byte>)
    requires GivenTo(m, c, s, b)
    ensures |b| == c.size
  {
  }

  /** Part of a block, too, is mixed with the output of the block function. */
  lemma PartIs(m: Mode, c: Cipher, s: State, xs: seq<Byte>) returns (b: seq<Byte>)
    requires Sized(c) && Fits(c, s) && s.offset == 0 && |xs| <= c.size
    ensures GivenTo(m, c, s, b) && |c.e(b)| == c.size && IsXor(xs, c.e(b)[..|xs|], Run(m, c, s, xs).1)
  {
    hide Run, Carries, GivenTo;
    var pad: seq<Byte> := seq(c.size - |xs|, _ => 0);
    b := BlockIs(m, c, s, xs + pad);
    RunJoin(m, c, s, xs, pad);
    var ys, zs := Run(m, c, s, xs).1, Run(m, c, s, xs + pad).1;
    assert |b| == c.size by { GivenIsBlock(m, c, s, b); }
    forall i | 0 <= i < |xs| ensures ys[i] == xs[i] ^ c.e(b)[..|xs|][i] {
      assert zs[i] == ys[i] && (xs + pad)[i] == xs[i];
    }
  }

  // The blocks xs give the blocks ys, bs being what the block function is given.
  ghost predicate Chained(m: Mode, c: Cipher, s: State, xs: seq<seq<Byte>>, bs: seq<seq<Byte>>, ys: seq<seq<Byte>>) {
    && |xs| == |bs| == |ys|
    && (forall i :: 0 <= i < |xs| ==> |bs[i]| == c.size && IsXor(xs[i], c.e(bs[i]), ys[i]))
    && (forall i :: 0 <= i < |xs| ==> Linked(m, c, s, xs, bs, ys, i))
  }

  // What block i is linked to.
  ghost predicate Linked(m: Mode, c: Cipher, s: State, xs: seq<seq<Byte>>, bs: seq<seq<Byte>>, ys: seq<seq<Byte>>,
                         i: nat)
    requires i < |xs| == |bs| == |ys|
  {
    match m
    case Cfb(op) => bs[i] == if i == 0 then s.block else if op == ENCRYPT then ys[i - 1] else xs[i - 1]
    case Ofb => bs[i] == if i == 0 then s.block else c.e(bs[i - 1])
    case Ctr => Value(bs[i]) == (s.nonce + i + 1) % Counters(c.size)
  }

  lemma LinkedNext(m: Mode, c: Cipher, s: State, t: State, b: seq<Byte>, x: seq<Byte>, y: seq<Byte>,
                   xs: seq<seq<Byte>>, bs: seq<seq<Byte>>, ys: seq<seq<Byte>>, i: nat)
    requires c.size > 0 && GivenTo(m, c, s, b) && Carries(m, c, s, b, x, y, t)
    requires i < |xs| == |bs| == |ys| && Linked(m, c, t, xs, bs, ys, i)
    ensures Linked(m, c, s, [x] + xs, [b] + bs, [y] + ys, i + 1)
  {
    hide Value;
    if m.Ctr? { NextCounter(s.nonce, i + 1, Counters(c.size)); }
  }

  lemma LinkedFirst(m: Mode, c: Cipher, s: State, b: seq<Byte>, x: seq<Byte>, y: seq<Byte>,
                    xs: seq<seq<Byte>>, bs: seq<seq<Byte>>, ys: seq<seq<Byte>>)
    requires GivenTo(m, c, s, b) && |xs| == |bs| == |ys|
    ensures Linked(m, c, s, [x] + xs, [b] + bs, [y] + ys, 0)
  {
    hide Value;
  }

  lemma LinkFirst(m: Mode, c: Cipher, s: State, t: State, b: seq<Byte>, x: seq<Byte>, y: seq<Byte>,
                  xs: seq<seq<Byte>>, bs: seq<seq<Byte>>, ys: seq<seq<Byte>>)
    requires c.size > 0 && GivenTo(m, c, s, b) && IsXor(x, c.e(b), y) && Carries(m, c, s, b, x, y, t)
    requires Chained(m, c, t, xs, bs, ys)
    ensures Chained(m, c, s, [x] + xs, [b] + bs, [y] + ys)
  {
    hide IsXor, Linked, Carries, GivenTo;
    GivenIsBlock(m, c, s, b);
    LinkedFirst(m, c, s, b, x, y, xs, bs, ys);
    var xs', bs', ys' := [x] + xs, [b] + bs, [y] + ys;
    forall i | 0 <= i < |xs'|
      ensures |bs'[i]| == c.size && IsXor(xs'[i], c.e(bs'[i]), ys'[i]) && Linked(m, c, s, xs', bs', ys', i)
    {
      if i > 0 { LinkedNext(m, c, s, t, b, x, y, xs, bs, ys, i - 1); }
    }
  }

  lemma NextCounter(n: nat, i: nat, m: nat)
    requires m > 0 && i > 0
    ensures ((n + 1) % m + (i - 1) + 1) % m == (n + i + 1) % m
  {
    P.AddInside(n + 1, i, m);
  }

  /** A whole message in blocks, for CFB (section 6.3), OFB (6.4) and CTR (6.5). */
  lemma {:induction false} MessageIs(m: Mode, c: Cipher, s: State, xs: seq<seq<Byte>>)
    returns (bs: seq<seq<Byte>>, ys: seq<seq<Byte>>)
    requires Sized(c) && Fits(c, s) && s.offset == 0 && forall i :: 0 <= i < |xs| ==> |xs[i]| == c.size
    ensures Chained(m, c, s, xs, bs, ys) && Flat(ys) == Run(m, c, s, Flat(xs)).1
    decreases |xs|
  {
    hide Run, IsXor, GivenTo, Chained, Sized;
    if xs == [] {
      bs, ys := [], [];
      RunNothing(m, c, s, []);
      NothingChained(m, c, s);
    } else {
      SizeIsPositive(c);
      var b := BlockIs(m, c, s, xs[0]);
      var (t, y) := Run(m, c, s, xs[0]);
      bs, ys := MessageIs(m, c, t, xs[1..]);
      LinkFirst(m, c, s, t, b, xs[0], y, xs[1..], bs, ys);
      RunJoin(m, c, s, xs[0], Flat(xs[1..]));
      assert xs == [xs[0]] + xs[1..];
      FlatFirst(y, ys);
      bs, ys := [b] + bs, [y] + ys;
    }
  }

  lemma SizeIsPositive(c: Cipher)
    requires Sized(c)
    ensures c.size > 0
  {
  }

  lemma NothingChained(m: Mode, c: Cipher, s: State)
    ensures Chained(m, c, s, [], [], [])
  {
  }

  lemma FlatFirst(y: seq<Byte>, ys: seq<seq<Byte>>)
    ensures Flat([y] + ys) == y + Flat(ys)
  {
    assert ([y] + ys)[1..] == ys;
  }

  // ---------------------------------------------------------------- CBC

  // Block i of a CBC message: enciphered after, or mixed with the previous ciphertext after
  // being deciphered.
  ghost predicate CbcLinked(k: CbcKind, c: Cipher, iv: seq<Byte>, xs: seq<seq<Byte>>, ys: seq<seq<Byte>>, i: nat)
    requires i < |xs| == |ys|
  {
    if k.Enc? then
      exists z :: IsXor(xs[i], if i == 0 then iv else ys[i - 1], z) && ys[i] == c.e(z)
    else IsXor(c.d(xs[i]), if i == 0 then iv else xs[i - 1], ys[i])
  }

  lemma CbcBlockIs(k: CbcKind, c: Cipher, iv: seq<Byte>, x: seq<Byte>)
    requires Sized(c) && |iv| == |x| == c.size && !k.DecInPlace?
    ensures var (v, y) := CbcBlock(k, c, iv, x);
            && v == (if k.Enc? then y else x)
            && (k.Enc? ==> exists z :: IsXor(x, iv, z) && y == c.e(z))
            && (k.Dec? ==> IsXor(c.d(x), iv, y))
  {
    hide IsXor, MixAll;
    if k.Enc? {
      MixAllIsXor(iv, x);
      assert IsXor(x, iv, MixAll(iv, x)) && CbcBlock(k, c, iv, x).1 == c.e(MixAll(iv, x));
    } else {
      MixAllIsXor(c.d(x), iv);
    }
  }

  lemma CbcLinkFirst(k: CbcKind, c: Cipher, iv: seq<Byte>, v: seq<Byte>, x: seq<Byte>, y: seq<Byte>,
                     xs: seq<seq<Byte>>, ys: seq<seq<Byte>>)
    requires |xs| == |ys| && !k.DecInPlace? && v == (if k.Enc? then y else x)
    requires k.Enc? ==> exists z :: IsXor(x, iv, z) && y == c.e(z)
    requires k.Dec? ==> IsXor(c.d(x), iv, y)
    requires forall i :: 0 <= i < |xs| ==> CbcLinked(k, c, v, xs, ys, i)
    ensures forall i :: 0 <= i < |xs| + 1 ==> CbcLinked(k, c, iv, [x] + xs, [y] + ys, i)
  {
    hide IsXor;
    forall i | 0 <= i < |xs| + 1 ensures CbcLinked(k, c, iv, [x] + xs, [y] + ys, i) {
      if i > 0 { assert CbcLinked(k, c, v, xs, ys, i - 1); }
    }
  }

  /** A whole message in blocks, for CBC (section 6.2), between two buffers. */
  lemma {:induction false} CbcMessageIs(k: CbcKind, c: Cipher, iv: seq<Byte>, xs: seq<seq<Byte>>)
    returns (ys: seq<seq<Byte>>)
    requires Sized(c) && |iv| == c.size && !k.DecInPlace? && forall i :: 0 <= i < |xs| ==> |xs[i]| == c.size
    ensures |ys| == |xs| && Flat(ys) == CbcRun(k, c, iv, Flat(xs)).1
    ensures forall i :: 0 <= i < |xs| ==> CbcLinked(k, c, iv, xs, ys, i)
    decreases |xs|
  {
    hide CbcRun, CbcBlock, IsXor, CbcLinked, Sized;
    if xs == [] {
      ys := [];
      CbcRunNothing(k, c, iv, []);
    } else {
      CbcBlockIs(k, c, iv, xs[0]);
      var (v, y) := CbcBlock(k, c, iv, xs[0]);
      ys := CbcMessageIs(k, c, v, xs[1..]);
      CbcLinkFirst(k, c, iv, v, xs[0], y, xs[1..], ys);
      assert xs == [xs[0]] + xs[1..];
      assert Flat(xs)[..c.size] == xs[0] && Flat(xs)[c.size..] == Flat(xs[1..]);
      CbcRunStep(k, c, iv, Flat(xs));
      FlatFirst(y, ys);
      ys := [y] + ys;
    }
  }
}
