/** The block cipher modes of muggle/c/crypt/aes.c and des.c over an arbitrary block function:
    the byte-wise modes CFB, OFB and CTR, which carry a block and an offset from call to call,
    and CBC.  Section 6 of NIST SP 800-38A describes the modes block by block. */
module CipherModes {
  import opened CryptBase
  import P = PowerOfTwo
  import opened Words

  type Byte = bv8

  // The forward and the backward block function and their block size in bytes.
  datatype Cipher = Cipher(e: seq<Byte> -> seq<Byte>, d: seq<Byte> -> seq<Byte>, size: nat)

  ghost predicate Sized(c: Cipher) {
    && (c.size == 8 || c.size == 16)
    && (forall b :: |b| == c.size ==> |c.e(b)| == c.size)
    && (forall b :: |b| == c.size ==> |c.d(b)| == c.size)
  }

  // The backward function undoes the forward one.
  ghost predicate Invertible(c: Cipher) {
    Sized(c) && forall b :: |b| == c.size ==> c.d(c.e(b)) == b
  }

  // ---------------------------------------------------------------- the byte-wise modes

  datatype Mode = Cfb(op: int) | Ofb | Ctr

  // What a call hands to the next: the block (iv or key stream), the offset in it, the nonce.
  datatype State = State(block: seq<Byte>, offset: nat, nonce: nat)

  predicate Fits(c: Cipher, s: State) {
    |s.block| == c.size && s.offset < c.size && s.nonce < Modulus(c)
  }

  function Modulus(c: Cipher): nat { if c.size == 8 then TWO_TO_64 else TWO_TO_128 }

  // The nonce counts up by one, modulo 2^64 or 2^128.
  function NextNonce(c: Cipher, n: nat): nat { if n + 1 == Modulus(c) then 0 else n + 1 }

  // The bytes of a number in memory, lowest first.
  function Little(n: nat, k: nat): (b: seq<Byte>)
    ensures |b| == k
  {
    if k == 0 then [] else [(n % 256) as Byte] + Little(n / 256, k - 1)
  }

  // At offset 0 the block is made anew.
  function Refill(m: Mode, c: Cipher, s: State): (t: State)
    requires Sized(c) && Fits(c, s)
    ensures Fits(c, t) && t.offset == s.offset
  {
    if s.offset != 0 then s
    else if m.Ctr? then
      var n := NextNonce(c, s.nonce);
      State(c.e(Little(n, c.size)), 0, n)
    else s.(block := c.e(s.block))
  }

  function Mix(x: Byte, k: Byte): Byte { x ^ k }

  lemma MixTwice(x: Byte, k: Byte)
    ensures Mix(Mix(x, k), k) == x
  {
  }

  function NextOffset(c: Cipher, o: nat): nat { if o + 1 == c.size then 0 else o + 1 }

  function Step(m: Mode, c: Cipher, s: State, x: Byte): (r: (State, Byte))
    requires Sized(c) && Fits(c, s)
    ensures Fits(c, r.0)
  {
    var t := Refill(m, c, s);
    var y := Mix(x, t.block[t.offset]);
    var block := if m.Cfb? then t.block[t.offset := if m.op == ENCRYPT then y else x] else t.block;
    (State(block, NextOffset(c, t.offset), t.nonce), y)
  }

  function Run(m: Mode, c: Cipher, s: State, xs: seq<Byte>): (r: (State, seq<Byte>))
    requires Sized(c) && Fits(c, s)
    ensures Fits(c, r.0) && |r.1| == |xs|
    decreases |xs|
  {
    if xs == [] then (s, [])
    else
      var (t, y) := Step(m, c, s, xs[0]);
      var (u, ys) := Run(m, c, t, xs[1..]);
      (u, [y] + ys)
  }

  /** A message may be cut into consecutive calls anywhere: output and carried state are those
      of one call. */
  lemma {:induction false} RunJoin(m: Mode, c: Cipher, s: State, xs: seq<Byte>, ys: seq<Byte>)
    requires Sized(c) && Fits(c, s)
    ensures var (t, us) := Run(m, c, s, xs);
            var (u, vs) := Run(m, c, t, ys);
            Run(m, c, s, xs + ys) == (u, us + vs)
    decreases |xs|
  {
    hide Step, Sized;
    if xs == [] {
      assert xs + ys == ys && [] + Run(m, c, s, ys).1 == Run(m, c, s, ys).1;
    } else {
      assert (xs + ys)[1..] == xs[1..] + ys;
      var (t, y) := Step(m, c, s, xs[0]);
      RunJoin(m, c, t, xs[1..], ys);
      var (u, us) := Run(m, c, t, xs[1..]);
      var vs := Run(m, c, u, ys).1;
      assert [y] + (us + vs) == ([y] + us) + vs;
    }
  }

  function Inverse(m: Mode): Mode {
    if m.Cfb? then Cfb(if m.op == ENCRYPT then DECRYPT else ENCRYPT) else m
  }

  lemma SameRefill(m: Mode, c: Cipher, s: State)
    requires Sized(c) && Fits(c, s)
    ensures Refill(Inverse(m), c, s) == Refill(m, c, s)
  {
  }

  lemma StepUndo(m: Mode, c: Cipher, s: State, x: Byte)
    requires Sized(c) && Fits(c, s)
    ensures var (t, y) := Step(m, c, s, x); Step(Inverse(m), c, s, y) == (t, x)
  {
    hide Refill, Mix, Sized;
    SameRefill(m, c, s);
    var t := Refill(m, c, s);
    MixTwice(x, t.block[t.offset]);
  }

  /** Decrypting from the same initial state returns the plaintext and ends in the same state. */
  lemma {:induction false} RunUndo(m: Mode, c: Cipher, s: State, xs: seq<Byte>)
    requires Sized(c) && Fits(c, s)
    ensures var (t, ys) := Run(m, c, s, xs); Run(Inverse(m), c, s, ys) == (t, xs)
    decreases |xs|
  {
    hide Step, Sized, Inverse;
    if xs == [] {
    } else {
      var (t, y) := Step(m, c, s, xs[0]);
      StepUndo(m, c, s, xs[0]);
      RunUndo(m, c, t, xs[1..]);
      var ys := Run(m, c, s, xs).1;
      assert ys[0] == y && ys[1..] == Run(m, c, t, xs[1..]).1;
      assert xs == [xs[0]] + xs[1..];
    }
  }

  // ---------------------------------------------------------------- block by block

  function MixAll(xs: seq<Byte>, ks: seq<Byte>): (ys: seq<Byte>)
    requires |xs| == |ks|
    ensures |ys| == |xs|
  {
    if xs == [] then [] else [Mix(xs[0], ks[0])] + MixAll(xs[1..], ks[1..])
  }

  // What the block holds once the bytes xs, giving ys, have gone through.
  function Left(m: Mode, ks: seq<Byte>, xs: seq<Byte>, ys: seq<Byte>): seq<Byte> {
    if !m.Cfb? then ks else if m.op == ENCRYPT then ys else xs
  }

  // The rest of a block, from an offset behind its start.
  lemma {:induction false} RunToEnd(m: Mode, c: Cipher, s: State, xs: seq<Byte>)
    requires Sized(c) && Fits(c, s) && s.offset > 0 && s.offset + |xs| == c.size
    ensures var ks := s.block[s.offset..];
            var ys := MixAll(xs, ks);
            Run(m, c, s, xs) == (State(s.block[..s.offset] + Left(m, ks, xs, ys), 0, s.nonce), ys)
    decreases |xs|
  {
    hide Step, Left, Mix, Sized, MixAll, Run;
    StepInside(m, c, s, xs[0]);
    RunStep(m, c, s, xs);
    var o, ks := s.offset, s.block[s.offset..];
    var (t, y) := Step(m, c, s, xs[0]);
    var z := Left(m, [s.block[o]], [xs[0]], [y]);
    assert ks[1..] == s.block[o + 1..] == t.block[o + 1..] && ks[0] == s.block[o];
    MixAllStep(xs, ks);
    var us := MixAll(xs[1..], ks[1..]);
    LeftJoin(m, ks, xs, [y] + us);
    if |xs| > 1 {
      RunToEnd(m, c, t, xs[1..]);
      var rest := Left(m, ks[1..], xs[1..], us);
      assert t.block[..o + 1] == s.block[..o] + z;
      assert (s.block[..o] + z) + rest == s.block[..o] + (z + rest);
    } else {
      assert xs == [xs[0]] && ks == [ks[0]] && us == [];
      assert t.block == s.block[..o] + z;
    }
  }

  lemma StepInside(m: Mode, c: Cipher, s: State, x: Byte)
    requires Sized(c) && Fits(c, s) && s.offset > 0
    ensures var o, y := s.offset, Mix(x, s.block[s.offset]);
            var z := Left(m, [s.block[o]], [x], [y]);
            |z| == 1 && Step(m, c, s, x) == (State(s.block[..o] + z + s.block[o + 1..], NextOffset(c, o), s.nonce), y)
  {
    hide Mix, Sized;
    var o, b := s.offset, s.block;
    assert forall z :: b[o := z] == b[..o] + [z] + b[o + 1..];
    assert b[o := b[o]] == b;
  }

  lemma RunStep(m: Mode, c: Cipher, s: State, xs: seq<Byte>)
    requires Sized(c) && Fits(c, s) && xs != []
    ensures var (t, y) := Step(m, c, s, xs[0]);
            Run(m, c, s, xs) == (Run(m, c, t, xs[1..]).0, [y] + Run(m, c, t, xs[1..]).1)
    ensures |xs| == 1 ==> Run(m, c, s, xs) == (Step(m, c, s, xs[0]).0, [Step(m, c, s, xs[0]).1])
  {
    hide Step;
    assert |xs| == 1 ==> xs[1..] == [];
    assert [Step(m, c, s, xs[0]).1] + [] == [Step(m, c, s, xs[0]).1];
  }

  lemma MixAllStep(xs: seq<Byte>, ks: seq<Byte>)
    requires |xs| == |ks| > 0
    ensures MixAll(xs, ks) == [Mix(xs[0], ks[0])] + MixAll(xs[1..], ks[1..])
  {
  }

  lemma LeftJoin(m: Mode, ks: seq<Byte>, xs: seq<Byte>, ys: seq<Byte>)
    requires |ks| == |xs| == |ys| > 0
    ensures Left(m, ks, xs, ys) == Left(m, [ks[0]], [xs[0]], [ys[0]]) + Left(m, ks[1..], xs[1..], ys[1..])
  {
    assert ks == [ks[0]] + ks[1..] && xs == [xs[0]] + xs[1..] && ys == [ys[0]] + ys[1..];
  }

  // The block that the key stream is taken from.
  function KeyBlock(m: Mode, c: Cipher, s: State): seq<Byte> {
    if m.Ctr? then c.e(Little(NextNonce(c, s.nonce), c.size)) else c.e(s.block)
  }

  function NonceAfter(m: Mode, c: Cipher, s: State): nat {
    if m.Ctr? then NextNonce(c, s.nonce) else s.nonce
  }

  /** A whole block from offset 0 is mixed with one value of the block function: of the
      previous ciphertext (CFB), of the previous such value (OFB), or of the next nonce (CTR). */
  lemma RunBlock(m: Mode, c: Cipher, s: State, xs: seq<Byte>)
    requires Sized(c) && Fits(c, s) && s.offset == 0 && |xs| == c.size
    ensures var ks := KeyBlock(m, c, s);
            && |ks| == c.size
            && var ys := MixAll(xs, ks);
               Run(m, c, s, xs) == (State(Left(m, ks, xs, ys), 0, NonceAfter(m, c, s)), ys)
  {
    hide Step, Left, Mix, Sized, MixAll, KeyBlock, NonceAfter, Run;
    StepAtStart(m, c, s, xs[0]);
    RunStep(m, c, s, xs);
    var ks := KeyBlock(m, c, s);
    var (t, y) := Step(m, c, s, xs[0]);
    MixAllStep(xs, ks);
    LeftJoin(m, ks, xs, MixAll(xs, ks));
    assert t.block[1..] == ks[1..] && t.block[..1] == Left(m, [ks[0]], [xs[0]], [y]);
    RunToEnd(m, c, t, xs[1..]);
  }

  lemma StepAtStart(m: Mode, c: Cipher, s: State, x: Byte)
    requires Sized(c) && Fits(c, s) && s.offset == 0
    ensures var ks := KeyBlock(m, c, s);
            && |ks| == c.size
            && var y := Mix(x, ks[0]);
               var z := Left(m, [ks[0]], [x], [y]);
               |z| == 1 && Step(m, c, s, x) == (State(z + ks[1..], 1, NonceAfter(m, c, s)), y)
  {
    hide Mix;
    var ks := KeyBlock(m, c, s);
    assert forall z :: ks[0 := z] == [z] + ks[1..];
    assert ks[0 := ks[0]] == ks;
  }

  lemma NextNonceIsModular(c: Cipher, n: nat)
    requires n < Modulus(c)
    ensures NextNonce(c, n) == P.Mod(n + 1, Modulus(c))
  {
    if n + 1 == Modulus(c) {
      P.AddLap(0, Modulus(c));
      P.SmallRemainder(0, Modulus(c));
    } else {
      P.SmallRemainder(n + 1, Modulus(c));
    }
  }

  lemma OneBlockLess(q: nat, size: nat)
    requires q > 0
    ensures q * size == size + (q - 1) * size
  {
  }

  /** Over q whole blocks the nonce advances by q, modulo 2^64 or 2^128. */
  lemma {:induction false} NonceAdvances(c: Cipher, s: State, xs: seq<Byte>, q: nat)
    requires Sized(c) && Fits(c, s) && s.offset == 0 && |xs| == q * c.size
    ensures var t := Run(Ctr, c, s, xs).0; t.offset == 0 && t.nonce == P.Mod(s.nonce + q, Modulus(c))
    decreases q
  {
    hide Run, NextNonce, Sized, Modulus, P.Mod;
    if q == 0 {
      RunNothing(Ctr, c, s, xs);
      P.SmallRemainder(s.nonce, Modulus(c));
    } else {
      OneBlockLess(q, c.size);
      var head, tail := xs[..c.size], xs[c.size..];
      assert xs == head + tail;
      RunJoin(Ctr, c, s, head, tail);
      RunBlock(Ctr, c, s, head);
      NextNonceIsModular(c, s.nonce);
      P.AddInside(s.nonce + 1, q - 1, Modulus(c));
      NonceAdvances(c, Run(Ctr, c, s, head).0, tail, q - 1);
    }
  }

  lemma RunNothing(m: Mode, c: Cipher, s: State, xs: seq<Byte>)
    requires Sized(c) && Fits(c, s) && |xs| == 0
    ensures Run(m, c, s, xs) == (s, [])
  {
  }

  // ---------------------------------------------------------------- CBC

  // Decryption in place carries on what it finds in the buffer after it has overwritten it.
  datatype CbcKind = Enc | Dec | DecInPlace

  function Kind(op: int, inPlace: bool): CbcKind {
    if op == ENCRYPT then Enc else if inPlace then DecInPlace else Dec
  }

  // The carried iv and the output for one block.
  function CbcBlock(k: CbcKind, c: Cipher, iv: seq<Byte>, x: seq<Byte>): (r: (seq<Byte>, seq<Byte>))
    requires Sized(c) && |iv| == |x| == c.size
    ensures |r.0| == |r.1| == c.size
  {
    match k
    case Enc => var y := c.e(MixAll(iv, x)); (y, y)
    case Dec => (x, MixAll(c.d(x), iv))
    case DecInPlace => var y := MixAll(c.d(x), iv); (y, y)
  }

  // n bytes are whole blocks.
  predicate Whole(size: nat, n: nat) {
    n == 0 || (0 < size <= n && Whole(size, n - size))
  }

  lemma {:induction false} WholeIsMultiple(size: nat, n: nat)
    requires size > 0
    ensures Whole(size, n) <==> n % size == 0
  {
    if n < size {
      P.SmallRemainder(n, size);
    } else {
      WholeIsMultiple(size, n - size);
      P.AddLap(n - size, size);
    }
  }

  // The carried iv and the output for all whole blocks.
  function CbcRun(k: CbcKind, c: Cipher, iv: seq<Byte>, xs: seq<Byte>): (r: (seq<Byte>, seq<Byte>))
    requires Sized(c) && |iv| == c.size
    ensures |r.0| == c.size && |r.1| <= |xs|
    decreases |xs|
  {
    if |xs| < c.size then (iv, [])
    else
      var (v, y) := CbcBlock(k, c, iv, xs[..c.size]);
      var (w, ys) := CbcRun(k, c, v, xs[c.size..]);
      (w, y + ys)
  }

  /** CBC may be cut into calls at any block. */
  lemma {:induction false} CbcJoin(k: CbcKind, c: Cipher, iv: seq<Byte>, xs: seq<Byte>, ys: seq<Byte>)
    requires Sized(c) && |iv| == c.size && Whole(c.size, |xs|)
    ensures var (v, us) := CbcRun(k, c, iv, xs);
            var (w, vs) := CbcRun(k, c, v, ys);
            |us| == |xs| && CbcRun(k, c, iv, xs + ys) == (w, us + vs)
    decreases |xs|
  {
    hide Sized, CbcBlock, CbcRun;
    if xs == [] {
      CbcRunNothing(k, c, iv, xs);
      assert xs + ys == ys && [] + CbcRun(k, c, iv, ys).1 == CbcRun(k, c, iv, ys).1;
    } else {
      var head, tail := xs[..c.size], xs[c.size..];
      assert (xs + ys)[..c.size] == head && (xs + ys)[c.size..] == tail + ys;
      CbcRunStep(k, c, iv, xs);
      CbcRunStep(k, c, iv, xs + ys);
      var (v, y) := CbcBlock(k, c, iv, head);
      CbcJoin(k, c, v, tail, ys);
      var (w, us) := CbcRun(k, c, v, tail);
      var vs := CbcRun(k, c, w, ys).1;
      assert y + (us + vs) == (y + us) + vs;
    }
  }

  lemma CbcRunStep(k: CbcKind, c: Cipher, iv: seq<Byte>, xs: seq<Byte>)
    requires Sized(c) && |iv| == c.size <= |xs|
    ensures var (v, y) := CbcBlock(k, c, iv, xs[..c.size]);
            var (w, ys) := CbcRun(k, c, v, xs[c.size..]);
            CbcRun(k, c, iv, xs) == (w, y + ys)
  {
    hide CbcBlock;
  }

  lemma CbcRunNothing(k: CbcKind, c: Cipher, iv: seq<Byte>, xs: seq<Byte>)
    requires Sized(c) && |iv| == c.size && xs == []
    ensures CbcRun(k, c, iv, xs) == (iv, [])
  {
  }

  /** If the backward block function undoes the forward one, CBC decryption from the same iv
      returns the plaintext and carries the same iv on. */
  lemma {:induction false} CbcUndo(c: Cipher, iv: seq<Byte>, xs: seq<Byte>)
    requires Invertible(c) && |iv| == c.size && Whole(c.size, |xs|)
    ensures var (v, ys) := CbcRun(Enc, c, iv, xs); CbcRun(Dec, c, iv, ys) == (v, xs)
    decreases |xs|
  {
    hide Invertible, Sized, CbcBlock, CbcRun;
    InvertibleIsInjective(c);
    if xs == [] {
      CbcRunNothing(Enc, c, iv, xs);
      CbcRunNothing(Dec, c, iv, xs);
    } else {
      var x := xs[..c.size];
      var (v, y) := CbcBlock(Enc, c, iv, x);
      CbcBlockUndo(c, iv, x);
      CbcUndo(c, v, xs[c.size..]);
      var ys := CbcRun(Enc, c, iv, xs).1;
      CbcRunStep(Enc, c, iv, xs);
      CbcRunStep(Dec, c, iv, ys);
      assert ys[..c.size] == y && ys[c.size..] == CbcRun(Enc, c, v, xs[c.size..]).1;
      assert xs == x + xs[c.size..];
    }
  }

  lemma CbcBlockUndo(c: Cipher, iv: seq<Byte>, x: seq<Byte>)
    requires Invertible(c) && |iv| == |x| == c.size
    ensures var (v, y) := CbcBlock(Enc, c, iv, x); CbcBlock(Dec, c, iv, y) == (v, x)
  {
    MixAllTwice(iv, x);
  }

  lemma {:induction false} MixAllTwice(iv: seq<Byte>, x: seq<Byte>)
    requires |iv| == |x|
    ensures MixAll(MixAll(iv, x), iv) == x
  {
    if x == [] {
    } else {
      MixAllTwice(iv[1..], x[1..]);
      MixBack(iv[0], x[0]);
      var m := MixAll(iv, x);
      assert m[0] == Mix(iv[0], x[0]) && m[1..] == MixAll(iv[1..], x[1..]);
    }
  }

  lemma MixBack(a: Byte, b: Byte)
    ensures Mix(Mix(a, b), a) == b
  {
  }

  // ---------------------------------------------------------------- any number of calls

  function Flat(calls: seq<seq<Byte>>): seq<Byte> {
    if calls == [] then [] else calls[0] + Flat(calls[1..])
  }

  function RunCalls(m: Mode, c: Cipher, s: State, calls: seq<seq<Byte>>): (r: (State, seq<Byte>))
    requires Sized(c) && Fits(c, s)
    ensures Fits(c, r.0)
    decreases |calls|
  {
    if calls == [] then (s, [])
    else
      var (t, us) := Run(m, c, s, calls[0]);
      var (u, vs) := RunCalls(m, c, t, calls[1..]);
      (u, us + vs)
  }

  /** However a message is cut into consecutive calls of CFB, OFB or CTR, output and carried
      state are those of one call. */
  lemma {:induction false} CallsAreOneRun(m: Mode, c: Cipher, s: State, calls: seq<seq<Byte>>)
    requires Sized(c) && Fits(c, s)
    ensures RunCalls(m, c, s, calls) == Run(m, c, s, Flat(calls))
    decreases |calls|
  {
    hide Run, Sized;
    if calls == [] {
      RunNothing(m, c, s, []);
    } else {
      CallsAreOneRun(m, c, Run(m, c, s, calls[0]).0, calls[1..]);
      RunJoin(m, c, s, calls[0], Flat(calls[1..]));
    }
  }

  function CbcCalls(k: CbcKind, c: Cipher, iv: seq<Byte>, calls: seq<seq<Byte>>): (r: (seq<Byte>, seq<Byte>))
    requires Sized(c) && |iv| == c.size
    ensures |r.0| == c.size
    decreases |calls|
  {
    if calls == [] then (iv, [])
    else
      var (v, us) := CbcRun(k, c, iv, calls[0]);
      var (w, vs) := CbcCalls(k, c, v, calls[1..]);
      (w, us + vs)
  }

  /** The same for CBC, cut at any blocks. */
  lemma {:induction false} CbcCallsAreOneRun(k: CbcKind, c: Cipher, iv: seq<Byte>, calls: seq<seq<Byte>>)
    requires Sized(c) && |iv| == c.size && forall i :: 0 <= i < |calls| ==> Whole(c.size, |calls[i]|)
    ensures CbcCalls(k, c, iv, calls) == CbcRun(k, c, iv, Flat(calls))
    decreases |calls|
  {
    hide CbcRun, Sized, Whole;
    if calls == [] {
      CbcRunNothing(k, c, iv, []);
    } else {
      CbcCallsAreOneRun(k, c, CbcRun(k, c, iv, calls[0]).0, calls[1..]);
      CbcJoin(k, c, iv, calls[0], Flat(calls[1..]));
    }
  }

  // ---------------------------------------------------------------- input and output in one buffer

  // In place, CFB decryption reads back the byte it has just written, as encryption does.
  function CfbMode(op: int, inPlace: bool): Mode { if inPlace then Cfb(ENCRYPT) else Cfb(op) }

  ghost predicate Injective(c: Cipher) {
    Sized(c) && forall a, b :: |a| == |b| == c.size && c.e(a) == c.e(b) ==> a == b
  }

  lemma InvertibleIsInjective(c: Cipher)
    requires Invertible(c)
    ensures Sized(c) && Injective(c)
  {
    forall a, b | |a| == |b| == c.size && c.e(a) == c.e(b) ensures a == b {
      assert c.d(c.e(a)) == a && c.d(c.e(b)) == b;
    }
  }

  // The same bytes decrypted and encrypted from states with different blocks end differently.
  lemma {:induction false} DifferentBlocksStayDifferent(c: Cipher, s: State, t: State, xs: seq<Byte>)
    requires Injective(c) && Fits(c, s) && Fits(c, t) && s.offset == t.offset && s.block != t.block
    ensures Run(Cfb(DECRYPT), c, s, xs) != Run(Cfb(ENCRYPT), c, t, xs)
    decreases |xs|
  {
    if xs == [] {
      RunNothing(Cfb(DECRYPT), c, s, xs);
      RunNothing(Cfb(ENCRYPT), c, t, xs);
    } else {
      StepDiffers(c, s, t, xs[0]);
      hide Injective, Sized, Step, Run;
      RunStep(Cfb(DECRYPT), c, s, xs);
      RunStep(Cfb(ENCRYPT), c, t, xs);
      var (s', y) := Step(Cfb(DECRYPT), c, s, xs[0]);
      var (t', z) := Step(Cfb(ENCRYPT), c, t, xs[0]);
      if y == z { DifferentBlocksStayDifferent(c, s', t', xs[1..]); }
      var ys, zs := Run(Cfb(DECRYPT), c, s, xs).1, Run(Cfb(ENCRYPT), c, t, xs).1;
      assert ys[0] == y && zs[0] == z;
      assert ys[1..] == Run(Cfb(DECRYPT), c, s', xs[1..]).1 && zs[1..] == Run(Cfb(ENCRYPT), c, t', xs[1..]).1;
    }
  }

  lemma StepDiffers(c: Cipher, s: State, t: State, x: Byte)
    requires Injective(c) && Fits(c, s) && Fits(c, t) && s.offset == t.offset && s.block != t.block
    ensures var (s', y) := Step(Cfb(DECRYPT), c, s, x);
            var (t', z) := Step(Cfb(ENCRYPT), c, t, x);
            s'.offset == t'.offset && (y != z || s'.block != t'.block)
  {
    var a, b := Refill(Cfb(DECRYPT), c, s), Refill(Cfb(ENCRYPT), c, t);
    assert a.block != b.block;
    hide Refill, Injective;
    var o := a.offset;
    var (s', y) := Step(Cfb(DECRYPT), c, s, x);
    var (t', z) := Step(Cfb(ENCRYPT), c, t, x);
    if y == z && s'.block == t'.block {
      MixCancels(x, a.block[o], b.block[o]);
      forall j | 0 <= j < c.size ensures a.block[j] == b.block[j] {
        if j != o { assert a.block[j] == s'.block[j] && b.block[j] == t'.block[j]; }
      }
    }
  }

  lemma MixCancels(x: Byte, k: Byte, l: Byte)
    ensures Mix(x, k) == Mix(x, l) ==> k == l
  {
  }

  /** In place, CFB decryption is right, in its output and in the vector it carries on, if and
      only if the key stream happens to leave every byte as it was.  Encryption in place, OFB
      and CTR are always right. */
  lemma {:induction false} CfbDecryptInPlaceIff(c: Cipher, s: State, xs: seq<Byte>)
    requires Injective(c) && Fits(c, s)
    ensures var right, got := Run(Cfb(DECRYPT), c, s, xs), Run(CfbMode(DECRYPT, true), c, s, xs);
            got == right <==> right.1 == xs
    decreases |xs|
  {
    if xs == [] {
      RunNothing(Cfb(DECRYPT), c, s, xs);
      RunNothing(Cfb(ENCRYPT), c, s, xs);
    } else {
      FirstByteInPlace(c, s, xs[0]);
      assert Sized(c);
      hide Injective, Sized, Step, Run;
      RunStep(Cfb(DECRYPT), c, s, xs);
      RunStep(Cfb(ENCRYPT), c, s, xs);
      var (t, y) := Step(Cfb(DECRYPT), c, s, xs[0]);
      var (u, z) := Step(Cfb(ENCRYPT), c, s, xs[0]);
      var right, got := Run(Cfb(DECRYPT), c, s, xs), Run(Cfb(ENCRYPT), c, s, xs);
      assert right.1[0] == y && right.1[1..] == Run(Cfb(DECRYPT), c, t, xs[1..]).1;
      assert got.1[0] == z && got.1[1..] == Run(Cfb(ENCRYPT), c, u, xs[1..]).1;
      if y == xs[0] {
        CfbDecryptInPlaceIff(c, t, xs[1..]);
        assert right.1 == [y] + right.1[1..] && xs == [xs[0]] + xs[1..];
      } else {
        DifferentBlocksStayDifferent(c, t, u, xs[1..]);
      }
    }
  }

  // A block of ones, one byte of it used up.
  function OnesState(c: Cipher): State {
    State(seq(c.size, _ => 1), 1, 0)
  }

  /** It does fail, whatever the block function: every message but the empty one, decrypted in
      place with CFB from a block of ones, comes out wrong. */
  lemma CfbDecryptInPlaceFails(c: Cipher, xs: seq<Byte>)
    requires Injective(c) && xs != []
    ensures Fits(c, OnesState(c))
    ensures Run(CfbMode(DECRYPT, true), c, OnesState(c), xs) != Run(Cfb(DECRYPT), c, OnesState(c), xs)
  {
    var s := OnesState(c);
    CfbDecryptInPlaceIff(c, s, xs);
    hide Run, Step, Injective;
    RunStep(Cfb(DECRYPT), c, s, xs);
    FirstByteChanges(c, xs[0]);
    var ys := Run(Cfb(DECRYPT), c, s, xs).1;
    assert ys[0] != xs[0];
  }

  lemma FirstByteChanges(c: Cipher, x: Byte)
    requires Sized(c)
    ensures Fits(c, OnesState(c)) && Step(Cfb(DECRYPT), c, OnesState(c), x).1 != x
  {
    MixOne(x);
    hide Mix;
  }

  lemma MixOne(x: Byte)
    ensures Mix(x, 1) != x
  {
  }

  // A call with n bytes gives, from every state, what it gives with two buffers.
  ghost predicate CfbIsRight(c: Cipher, op: int, inPlace: bool, n: nat)
    requires Sized(c)
  {
    forall s, xs :: Fits(c, s) && |xs| == n ==> Run(CfbMode(op, inPlace), c, s, xs) == Run(Cfb(op), c, s, xs)
  }

  /** So a call of CFB is right for every state and every message of n bytes if and only if it
      encrypts, has two buffers, or has nothing to do. */
  lemma CfbInPlaceIsRightIff(c: Cipher, op: int, inPlace: bool, n: nat)
    requires Injective(c) && ValidOp(op)
    ensures CfbIsRight(c, op, inPlace, n) <==> op == ENCRYPT || !inPlace || n == 0
  {
    if op == ENCRYPT || !inPlace {
    } else if n == 0 {
      forall s, xs: seq<Byte> | Fits(c, s) && |xs| == n
        ensures Run(CfbMode(op, inPlace), c, s, xs) == Run(Cfb(op), c, s, xs)
      {
        RunNothing(CfbMode(op, inPlace), c, s, xs);
        RunNothing(Cfb(op), c, s, xs);
      }
    } else {
      hide Run, Injective;
      CfbDecryptInPlaceFails(c, seq(n, _ => 0));
    }
  }

  lemma FirstByteInPlace(c: Cipher, s: State, x: Byte)
    requires Sized(c) && Fits(c, s)
    ensures var (t, y) := Step(Cfb(DECRYPT), c, s, x);
            var (u, z) := Step(Cfb(ENCRYPT), c, s, x);
            && y == z && t.offset == u.offset && t.nonce == u.nonce
            && (y == x ==> t == u) && (y != x ==> t.block != u.block)
  {
    var a := Refill(Cfb(DECRYPT), c, s);
    assert a == Refill(Cfb(ENCRYPT), c, s);
    hide Refill, Mix, Sized;
    var (t, y) := Step(Cfb(DECRYPT), c, s, x);
    var (u, z) := Step(Cfb(ENCRYPT), c, s, x);
    assert t.block[a.offset] == x && u.block[a.offset] == y;
  }

  /** The same for CBC decryption in place: right if and only if no block is changed by it. */
  lemma {:induction false} CbcDecryptInPlaceIff(c: Cipher, iv: seq<Byte>, xs: seq<Byte>)
    requires Sized(c) && |iv| == c.size && Whole(c.size, |xs|)
    ensures var right, got := CbcRun(Kind(DECRYPT, false), c, iv, xs), CbcRun(Kind(DECRYPT, true), c, iv, xs);
            got == right <==> right.1 == xs
    decreases |xs|
  {
    if xs == [] {
      CbcRunNothing(Dec, c, iv, xs);
      CbcRunNothing(DecInPlace, c, iv, xs);
    } else {
      hide Sized, CbcRun;
      var x, rest := xs[..c.size], xs[c.size..];
      CbcRunStep(Dec, c, iv, xs);
      CbcRunStep(DecInPlace, c, iv, xs);
      var y := MixAll(c.d(x), iv);
      var right, got := CbcRun(Dec, c, iv, xs).1, CbcRun(DecInPlace, c, iv, xs).1;
      assert xs == x + rest;
      assert right[..c.size] == y && right[c.size..] == CbcRun(Dec, c, x, rest).1;
      assert got[..c.size] == y && got[c.size..] == CbcRun(DecInPlace, c, y, rest).1;
      if y == x {
        CbcDecryptInPlaceIff(c, x, rest);
        assert right == y + right[c.size..];
      } else {
        CbcStaysDifferent(c, x, y, rest);
      }
    }
  }

  lemma CbcStaysDifferent(c: Cipher, v: seq<Byte>, w: seq<Byte>, xs: seq<Byte>)
    requires Sized(c) && |v| == |w| == c.size && v != w && Whole(c.size, |xs|)
    ensures CbcRun(Dec, c, v, xs) != CbcRun(DecInPlace, c, w, xs)
  {
    if xs == [] {
      CbcRunNothing(Dec, c, v, xs);
      CbcRunNothing(DecInPlace, c, w, xs);
    } else {
      hide Sized, CbcRun;
      var x := xs[..c.size];
      CbcRunStep(Dec, c, v, xs);
      CbcRunStep(DecInPlace, c, w, xs);
      MixAllCancels(c.d(x), v, w);
      assert CbcRun(Dec, c, v, xs).1[..c.size] == MixAll(c.d(x), v);
      assert CbcRun(DecInPlace, c, w, xs).1[..c.size] == MixAll(c.d(x), w);
    }
  }

  lemma {:induction false} MixAllCancels(x: seq<Byte>, k: seq<Byte>, l: seq<Byte>)
    requires |x| == |k| == |l|
    ensures MixAll(x, k) == MixAll(x, l) ==> k == l
  {
    hide MixAll, Mix;
    if x == [] {
    } else {
      MixAllStep(x, k);
      MixAllStep(x, l);
      MixCancels(x[0], k[0], l[0]);
      MixAllCancels(x[1..], k[1..], l[1..]);
      var u, v := MixAll(x, k), MixAll(x, l);
      assert u[0] == Mix(x[0], k[0]) && u[1..] == MixAll(x[1..], k[1..]);
      assert v[0] == Mix(x[0], l[0]) && v[1..] == MixAll(x[1..], l[1..]);
      assert k == [k[0]] + k[1..] && l == [l[0]] + l[1..];
    }
  }

  // A vector under which decryption changes the first byte of the block x.
  function BadVector(c: Cipher, x: seq<Byte>): (iv: seq<Byte>)
    requires Sized(c) && |x| == c.size
    ensures |iv| == c.size
  {
    seq(c.size, _ => Mix(Mix(c.d(x)[0], x[0]), 1))
  }

  lemma MixOff(d: Byte, x: Byte)
    ensures Mix(d, Mix(Mix(d, x), 1)) != x
  {
  }

  /** The failure in CBC, whatever the block function: for every message of whole blocks but the
      empty one there is a vector with which decryption in place is wrong. */
  lemma CbcDecryptInPlaceFails(c: Cipher, xs: seq<Byte>)
    requires Sized(c) && Whole(c.size, |xs|) && xs != []
    ensures c.size <= |xs|
    ensures var iv := BadVector(c, xs[..c.size]);
            CbcRun(Kind(DECRYPT, true), c, iv, xs) != CbcRun(Kind(DECRYPT, false), c, iv, xs)
  {
    var x := xs[..c.size];
    var iv := BadVector(c, x);
    CbcDecryptInPlaceIff(c, iv, xs);
    CbcRunStep(Dec, c, iv, xs);
    hide CbcRun, Whole, Mix, MixAll;
    MixOff(c.d(x)[0], x[0]);
    MixAllStep(c.d(x), iv);
    var ys := CbcRun(Dec, c, iv, xs).1;
    assert ys[0] == MixAll(c.d(x), iv)[0] != xs[0];
  }

  ghost predicate CbcIsRight(c: Cipher, op: int, inPlace: bool, n: nat)
    requires Sized(c)
  {
    forall iv, xs :: |iv| == c.size && |xs| == n ==>
      CbcRun(Kind(op, inPlace), c, iv, xs) == CbcRun(Kind(op, false), c, iv, xs)
  }

  /** So a call of CBC is right for every vector and every message of n bytes in whole blocks if
      and only if it encrypts, has two buffers, or has nothing to do. */
  lemma CbcInPlaceIsRightIff(c: Cipher, op: int, inPlace: bool, n: nat)
    requires Sized(c) && ValidOp(op) && Whole(c.size, n)
    ensures CbcIsRight(c, op, inPlace, n) <==> op == ENCRYPT || !inPlace || n == 0
  {
    if op == ENCRYPT || !inPlace {
    } else if n == 0 {
      forall iv: seq<Byte>, xs: seq<Byte> | |iv| == c.size && |xs| == n
        ensures CbcRun(Kind(op, inPlace), c, iv, xs) == CbcRun(Kind(op, false), c, iv, xs)
      {
        CbcRunNothing(Kind(op, inPlace), c, iv, xs);
        CbcRunNothing(Kind(op, false), c, iv, xs);
      }
    } else {
      hide CbcRun, Sized;
      var xs: seq<Byte> := seq(n, _ => 0);
      CbcDecryptInPlaceFails(c, xs);
      var iv := BadVector(c, xs[..c.size]);
      assert |iv| == c.size && |xs| == n;
    }
  }
}
