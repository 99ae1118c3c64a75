/** The loops of the cipher modes (muggle/c/crypt/aes.c and des.c) on byte arrays, which update
    vector, nonce, stream block and output in place.  Input and output may be one array. */
module CipherLoops {
  import opened CipherModes
  import opened CryptBase
  import opened Words

  type CipherContext = Context<Cipher>

  method Store(dst: array<Byte>, src: seq<Byte>)
    requires |src| == dst.Length
    modifies dst
    ensures dst[..] == src
  {
    forall i | 0 <= i < |src| { dst[i] := src[i]; }
  }

  lemma RunAppend(m: Mode, c: Cipher, s: State, xs: seq<Byte>, i: nat)
    requires Sized(c) && Fits(c, s) && i < |xs|
    ensures var (t, ys) := Run(m, c, s, xs[..i]);
            var (u, y) := Step(m, c, t, xs[i]);
            Run(m, c, s, xs[..i + 1]) == (u, ys + [y])
  {
    hide Step, Sized;
    assert xs[..i + 1] == xs[..i] + [xs[i]];
    RunJoin(m, c, s, xs[..i], [xs[i]]);
    RunStep(m, c, Run(m, c, s, xs[..i]).0, [xs[i]]);
  }

  // ---------------------------------------------------------------- CFB

  // One turn of the loop.  The input byte is read again after the output byte is written.
  method CfbByte(c: Cipher, op: int, input: array<Byte>, output: array<Byte>, i: nat, iv: array<Byte>, offset: nat)
    returns (next: nat)
    requires Sized(c) && iv.Length == c.size && offset < c.size && iv != input && iv != output
    requires i < input.Length && i < output.Length
    modifies iv, output
    ensures (State(iv[..], next, 0), output[i])
            == Step(CfbMode(op, input == output), c, State(old(iv[..]), offset, 0), old(input[i]))
    ensures forall k :: 0 <= k < output.Length && k != i ==> output[k] == old(output[k])
  {
    hide Mix;
    if offset == 0 { Store(iv, c.e(iv[..])); }
    ghost var b := iv[..];
    output[i] := Mix(input[i], iv[offset]);
    if op == ENCRYPT { iv[offset] := output[i]; } else { iv[offset] := input[i]; }
    assert iv[..] == b[offset := iv[offset]];
    next := (offset + 1) % c.size;
  }

  /** muggle_aes_cfb128 and muggle_des_cfb64. */
  method CryptCfb(ctx: CipherContext, input: array<Byte>, n: nat, iv: array<Byte>, ivOffset: nat, output: array<Byte>)
    returns (ret: int, next: nat)
    requires Sized(ctx.key) && iv.Length == ctx.key.size && iv != input && iv != output
    requires n <= input.Length && n <= output.Length
    modifies iv, output
    ensures ret == if ctx.mode == CFB && ValidOp(ctx.op) && ivOffset < ctx.key.size then OK else INVALID_PARAM
    ensures ret != OK ==> next == ivOffset && iv[..] == old(iv[..]) && output[..] == old(output[..])
    ensures ret == OK ==>
              && (State(iv[..], next, 0), output[..n])
                 == Run(CfbMode(ctx.op, input == output), ctx.key, State(old(iv[..]), ivOffset, 0), old(input[..n]))
              && output[n..] == old(output[n..])
    ensures ret == OK && (ctx.op == ENCRYPT || input != output) ==>
              (State(iv[..], next, 0), output[..n])
              == Run(Cfb(ctx.op), ctx.key, State(old(iv[..]), ivOffset, 0), old(input[..n]))
  {
    next := ivOffset;
    if ctx.mode != CFB { return INVALID_PARAM, next; }
    if ivOffset >= ctx.key.size { return INVALID_PARAM, next; }
    if ctx.op != ENCRYPT && ctx.op != DECRYPT { return INVALID_PARAM, next; }
    next := CfbLoop(ctx.key, ctx.op, input, n, iv, ivOffset, output);
    return OK, next;
  }

  method CfbLoop(c: Cipher, op: int, input: array<Byte>, n: nat, iv: array<Byte>, offset: nat, output: array<Byte>)
    returns (next: nat)
    requires Sized(c) && iv.Length == c.size && offset < c.size && iv != input && iv != output
    requires n <= input.Length && n <= output.Length
    modifies iv, output
    ensures (State(iv[..], next, 0), output[..n])
            == Run(CfbMode(op, input == output), c, State(old(iv[..]), offset, 0), old(input[..n]))
    ensures output[n..] == old(output[n..])
  {
    hide Step, Run, Sized, CfbMode;
    ghost var s, m, xs := State(iv[..], offset, 0), CfbMode(op, input == output), input[..n];
    RunNothing(m, c, s, xs[..0]);
    next := offset;
    var i := 0;
    while i < n
      invariant 0 <= i <= n && next < c.size && forall k :: i <= k < n ==> input[k] == xs[k]
      invariant (State(iv[..], next, 0), output[..i]) == Run(m, c, s, xs[..i])
      invariant output[n..] == old(output[n..])
    {
      RunAppend(m, c, s, xs, i);
      ghost var ys := output[..i];
      next := CfbByte(c, op, input, output, i, iv, next);
      assert output[..i + 1] == ys + [output[i]];
      i := i + 1;
    }
    assert xs[..n] == xs;
  }

  // ---------------------------------------------------------------- OFB

  method OfbByte(c: Cipher, input: array<Byte>, output: array<Byte>, i: nat, iv: array<Byte>, offset: nat)
    returns (next: nat)
    requires Sized(c) && iv.Length == c.size && offset < c.size && iv != input && iv != output
    requires i < input.Length && i < output.Length
    modifies iv, output
    ensures (State(iv[..], next, 0), output[i]) == Step(Ofb, c, State(old(iv[..]), offset, 0), old(input[i]))
    ensures forall k :: 0 <= k < output.Length && k != i ==> output[k] == old(output[k])
  {
    hide Mix;
    if offset == 0 { Store(iv, c.e(iv[..])); }
    output[i] := Mix(input[i], iv[offset]);
    next := (offset + 1) % c.size;
  }

  /** muggle_aes_ofb128, which checks the context's operation, and muggle_des_ofb64, which does
      not; in place as well as not. */
  method CryptOfb(ctx: CipherContext, checksOp: bool, input: array<Byte>, n: nat, iv: array<Byte>, ivOffset: nat,
                  output: array<Byte>)
    returns (ret: int, next: nat)
    requires Sized(ctx.key) && iv.Length == ctx.key.size && iv != input && iv != output
    requires n <= input.Length && n <= output.Length
    modifies iv, output
    ensures ret == if ctx.mode == OFB && (checksOp ==> ValidOp(ctx.op)) && ivOffset < ctx.key.size
                   then OK else INVALID_PARAM
    ensures ret != OK ==> next == ivOffset && iv[..] == old(iv[..]) && output[..] == old(output[..])
    ensures ret == OK ==>
              && (State(iv[..], next, 0), output[..n])
                 == Run(Ofb, ctx.key, State(old(iv[..]), ivOffset, 0), old(input[..n]))
              && output[n..] == old(output[n..])
  {
    next := ivOffset;
    if ctx.mode != OFB { return INVALID_PARAM, next; }
    if ivOffset >= ctx.key.size { return INVALID_PARAM, next; }
    if checksOp && ctx.op != ENCRYPT && ctx.op != DECRYPT { return INVALID_PARAM, next; }
    next := OfbLoop(ctx.key, input, n, iv, ivOffset, output);
    return OK, next;
  }

  method OfbLoop(c: Cipher, input: array<Byte>, n: nat, iv: array<Byte>, offset: nat, output: array<Byte>)
    returns (next: nat)
    requires Sized(c) && iv.Length == c.size && offset < c.size && iv != input && iv != output
    requires n <= input.Length && n <= output.Length
    modifies iv, output
    ensures (State(iv[..], next, 0), output[..n]) == Run(Ofb, c, State(old(iv[..]), offset, 0), old(input[..n]))
    ensures output[n..] == old(output[n..])
  {
    hide Step, Run, Sized;
    ghost var s, xs := State(iv[..], offset, 0), input[..n];
    RunNothing(Ofb, c, s, xs[..0]);
    next := offset;
    var i := 0;
    while i < n
      invariant 0 <= i <= n && next < c.size && forall k :: i <= k < n ==> input[k] == xs[k]
      invariant (State(iv[..], next, 0), output[..i]) == Run(Ofb, c, s, xs[..i])
      invariant output[n..] == old(output[n..])
    {
      RunAppend(Ofb, c, s, xs, i);
      ghost var ys := output[..i];
      next := OfbByte(c, input, output, i, iv, next);
      assert output[..i + 1] == ys + [output[i]];
      i := i + 1;
    }
    assert xs[..n] == xs;
  }

  // ---------------------------------------------------------------- CTR

  // The number that the 64-bit words of a nonce hold, lowest word first.
  function NonceValue(words: seq<nat>): nat {
    if |words| == 1 then words[0] else if |words| == 2 then words[0] + TWO_TO_64 * words[1] else 0
  }

  ghost predicate NonceWords(c: Cipher, words: seq<nat>) {
    |words| * 8 == c.size && forall i :: 0 <= i < |words| ==> words[i] < TWO_TO_64
  }

  lemma NonceFits(c: Cipher, words: seq<nat>)
    requires Sized(c) && NonceWords(c, words)
    ensures NonceValue(words) < Modulus(c)
  {
  }

  /** The two-word increment of AES, and the one-word increment of DES, add one modulo 2^128
      and 2^64. */
  method IncrementNonce(c: Cipher, nonce: array<nat>)
    requires Sized(c) && NonceWords(c, nonce[..])
    modifies nonce
    ensures NonceWords(c, nonce[..]) && NonceValue(nonce[..]) == (NonceValue(old(nonce[..])) + 1) % Modulus(c)
  {
    ghost var n := NonceValue(nonce[..]);
    NonceFits(c, nonce[..]);
    NextNonceIsModular(c, n);
    nonce[0] := if nonce[0] + 1 == TWO_TO_64 then 0 else nonce[0] + 1;
    if nonce.Length == 2 && nonce[0] == 0 {
      nonce[1] := if nonce[1] + 1 == TWO_TO_64 then 0 else nonce[1] + 1;
    }
    assert NonceValue(nonce[..]) == NextNonce(c, n);
  }

  // The refill at offset 0: the nonce counts on and its bytes go through the block function.
  method RefillStream(c: Cipher, nonce: array<nat>, block: array<Byte>, offset: nat)
    requires Sized(c) && NonceWords(c, nonce[..]) && block.Length == c.size && offset < c.size
    requires NonceValue(nonce[..]) < Modulus(c) && block as object != nonce
    modifies nonce, block
    ensures NonceWords(c, nonce[..])
    ensures State(block[..], offset, NonceValue(nonce[..]))
            == Refill(Ctr, c, State(old(block[..]), offset, NonceValue(old(nonce[..]))))
  {
    hide NonceValue, NonceWords, Modulus;
    if offset == 0 {
      NextNonceIsModular(c, NonceValue(nonce[..]));
      IncrementNonce(c, nonce);
      Store(block, c.e(Little(NonceValue(nonce[..]), c.size)));
    }
  }

  method CtrByte(c: Cipher, input: array<Byte>, output: array<Byte>, i: nat, nonce: array<nat>, block: array<Byte>,
                 offset: nat)
    returns (next: nat)
    requires Sized(c) && NonceWords(c, nonce[..]) && block.Length == c.size && offset < c.size
    requires NonceValue(nonce[..]) < Modulus(c) && block != input && block != output
    requires block as object != nonce && input as object != nonce && output as object != nonce
    requires i < input.Length && i < output.Length
    modifies nonce, block, output
    ensures NonceWords(c, nonce[..])
    ensures (State(block[..], next, NonceValue(nonce[..])), output[i])
            == Step(Ctr, c, State(old(block[..]), offset, NonceValue(old(nonce[..]))), old(input[i]))
    ensures forall k :: 0 <= k < output.Length && k != i ==> output[k] == old(output[k])
  {
    hide Mix, NonceValue, NonceWords, Modulus, Refill;
    RefillStream(c, nonce, block, offset);
    output[i] := Mix(input[i], block[offset]);
    next := (offset + 1) % c.size;
  }

  /** muggle_aes_ctr, which checks the context's operation, and muggle_des_ctr, which does not;
      in place as well as not. */
  method CryptCtr(ctx: CipherContext, checksOp: bool, input: array<Byte>, n: nat, nonce: array<nat>, nonceOffset: nat,
                  block: array<Byte>, output: array<Byte>)
    returns (ret: int, next: nat)
    requires Sized(ctx.key) && NonceWords(ctx.key, nonce[..]) && block.Length == ctx.key.size
    requires block != input && block != output && n <= input.Length && n <= output.Length
    requires block as object != nonce && input as object != nonce && output as object != nonce
    modifies nonce, block, output
    ensures NonceWords(ctx.key, nonce[..])
    ensures ret == if ctx.mode == CTR && (checksOp ==> ValidOp(ctx.op)) && nonceOffset < ctx.key.size
                   then OK else INVALID_PARAM
    ensures ret != OK ==> next == nonceOffset && nonce[..] == old(nonce[..]) && block[..] == old(block[..])
                          && output[..] == old(output[..])
    ensures ret == OK ==>
              && NonceValue(old(nonce[..])) < Modulus(ctx.key)
              && (State(block[..], next, NonceValue(nonce[..])), output[..n])
                 == Run(Ctr, ctx.key, State(old(block[..]), nonceOffset, NonceValue(old(nonce[..]))), old(input[..n]))
              && output[n..] == old(output[n..])
  {
    next := nonceOffset;
    if ctx.mode != CTR { return INVALID_PARAM, next; }
    if nonceOffset >= ctx.key.size { return INVALID_PARAM, next; }
    if checksOp && ctx.op != ENCRYPT && ctx.op != DECRYPT { return INVALID_PARAM, next; }
    NonceFits(ctx.key, nonce[..]);
    next := CtrLoop(ctx.key, input, n, nonce, nonceOffset, block, output);
    return OK, next;
  }

  method CtrLoop(c: Cipher, input: array<Byte>, n: nat, nonce: array<nat>, offset: nat, block: array<Byte>,
                 output: array<Byte>)
    returns (next: nat)
    requires Sized(c) && NonceWords(c, nonce[..]) && NonceValue(nonce[..]) < Modulus(c)
    requires block.Length == c.size && offset < c.size
    requires block != input && block != output && n <= input.Length && n <= output.Length
    requires block as object != nonce && input as object != nonce && output as object != nonce
    modifies nonce, block, output
    ensures NonceWords(c, nonce[..])
    ensures (State(block[..], next, NonceValue(nonce[..])), output[..n])
            == Run(Ctr, c, State(old(block[..]), offset, NonceValue(old(nonce[..]))), old(input[..n]))
    ensures output[n..] == old(output[n..])
  {
    hide Step, Run, Sized, NonceWords, NonceValue, Modulus;
    ghost var s, xs := State(block[..], offset, NonceValue(nonce[..])), input[..n];
    RunNothing(Ctr, c, s, xs[..0]);
    next := offset;
    var i := 0;
    while i < n
      invariant 0 <= i <= n && next < c.size && NonceWords(c, nonce[..])
      invariant forall k :: i <= k < n ==> input[k] == xs[k]
      invariant (State(block[..], next, NonceValue(nonce[..])), output[..i]) == Run(Ctr, c, s, xs[..i])
      invariant output[n..] == old(output[n..])
    {
      NonceFits(c, nonce[..]);
      RunAppend(Ctr, c, s, xs, i);
      ghost var ys := output[..i];
      next := CtrByte(c, input, output, i, nonce, block, next);
      assert output[..i + 1] == ys + [output[i]];
      i := i + 1;
    }
    assert xs[..n] == xs;
  }

  // ---------------------------------------------------------------- CBC

  // Copies a block into the output.
  method StoreAt(dst: array<Byte>, at: nat, src: seq<Byte>)
    requires at + |src| <= dst.Length
    modifies dst
    ensures dst[at..at + |src|] == src
    ensures forall k :: 0 <= k < dst.Length && (k < at || at + |src| <= k) ==> dst[k] == old(dst[k])
  {
    forall i | 0 <= i < |src| { dst[at + i] := src[i]; }
  }

  // One turn of the loop.  Decryption carries on the input block as it finds it after the
  // output block is written.
  method CbcTurnOf(c: Cipher, op: int, input: array<Byte>, output: array<Byte>, at: nat, iv: seq<Byte>)
    returns (v: seq<Byte>)
    requires Sized(c) && |iv| == c.size && at + c.size <= input.Length && at + c.size <= output.Length
    modifies output
    ensures (v, output[at..at + c.size])
            == CbcBlock(Kind(op, input == output), c, iv, old(input[at..at + c.size]))
    ensures forall k :: 0 <= k < output.Length && (k < at || at + c.size <= k) ==> output[k] == old(output[k])
  {
    hide MixAll;
    var x := input[at..at + c.size];
    if op == ENCRYPT {
      StoreAt(output, at, c.e(MixAll(iv, x)));
      v := output[at..at + c.size];
    } else {
      StoreAt(output, at, MixAll(c.d(x), iv));
      v := input[at..at + c.size];
    }
  }

  // The whole result is what is done, followed by the result of the rest.
  ghost predicate CbcLeft(k: CbcKind, c: Cipher, all: (seq<Byte>, seq<Byte>), v: seq<Byte>, rest: seq<Byte>,
                          done: seq<Byte>)
    requires Sized(c) && |v| == c.size
  {
    all == (CbcRun(k, c, v, rest).0, done + CbcRun(k, c, v, rest).1)
  }

  lemma CbcStarts(k: CbcKind, c: Cipher, v: seq<Byte>, xs: seq<Byte>)
    requires Sized(c) && |v| == c.size
    ensures CbcLeft(k, c, CbcRun(k, c, v, xs), v, xs, [])
  {
    assert [] + CbcRun(k, c, v, xs).1 == CbcRun(k, c, v, xs).1;
  }

  lemma CbcTurn(k: CbcKind, c: Cipher, all: (seq<Byte>, seq<Byte>), v: seq<Byte>, rest: seq<Byte>, done: seq<Byte>)
    requires Sized(c) && |v| == c.size <= |rest| && CbcLeft(k, c, all, v, rest, done)
    ensures var (w, y) := CbcBlock(k, c, v, rest[..c.size]); CbcLeft(k, c, all, w, rest[c.size..], done + y)
  {
    hide CbcBlock;
    var (w, y) := CbcBlock(k, c, v, rest[..c.size]);
    var ys := CbcRun(k, c, w, rest[c.size..]).1;
    assert done + (y + ys) == (done + y) + ys;
  }

  lemma CbcEnds(k: CbcKind, c: Cipher, all: (seq<Byte>, seq<Byte>), v: seq<Byte>, rest: seq<Byte>, done: seq<Byte>)
    requires Sized(c) && |v| == c.size && rest == [] && CbcLeft(k, c, all, v, rest, done)
    ensures all == (v, done)
  {
    CbcRunNothing(k, c, v, rest);
    assert done + [] == done;
  }

  /** muggle_aes_cbc and muggle_des_cbc; the input must be whole blocks. */
  method CryptCbc(ctx: CipherContext, input: array<Byte>, n: nat, iv: array<Byte>, output: array<Byte>)
    returns (ret: int)
    requires Sized(ctx.key) && iv.Length == ctx.key.size && iv != input && iv != output
    requires n <= input.Length && n <= output.Length
    modifies iv, output
    ensures ret == if ctx.mode == CBC && ValidOp(ctx.op) && n % ctx.key.size == 0 then OK else INVALID_PARAM
    ensures ret != OK ==> iv[..] == old(iv[..]) && output[..] == old(output[..])
    ensures ret == OK ==>
              && (iv[..], output[..n]) == CbcRun(Kind(ctx.op, input == output), ctx.key, old(iv[..]), old(input[..n]))
              && output[n..] == old(output[n..])
    ensures ret == OK && (ctx.op == ENCRYPT || input != output) ==>
              (iv[..], output[..n])
              == CbcRun(if ctx.op == ENCRYPT then Enc else Dec, ctx.key, old(iv[..]), old(input[..n]))
  {
    if ctx.mode != CBC { return INVALID_PARAM; }
    if n % ctx.key.size != 0 { return INVALID_PARAM; }
    if ctx.op != ENCRYPT && ctx.op != DECRYPT { return INVALID_PARAM; }
    WholeIsMultiple(ctx.key.size, n);
    var v := CbcLoop(ctx.key, ctx.op, input, n, iv[..], output);
    Store(iv, v);
    return OK;
  }

  method CbcLoop(c: Cipher, op: int, input: array<Byte>, n: nat, iv: seq<Byte>, output: array<Byte>)
    returns (v: seq<Byte>)
    requires Sized(c) && |iv| == c.size && Whole(c.size, n) && n <= input.Length && n <= output.Length
    modifies output
    ensures (v, output[..n]) == CbcRun(Kind(op, input == output), c, iv, old(input[..n]))
    ensures output[n..] == old(output[n..])
  {
    hide Sized, CbcBlock, CbcRun, CbcLeft, Kind;
    v := iv;
    ghost var k, xs := Kind(op, input == output), input[..n];
    ghost var all := CbcRun(k, c, iv, xs);
    CbcStarts(k, c, iv, xs);
    var at := 0;
    while at < n
      invariant 0 <= at <= n && |v| == c.size && Whole(c.size, n - at)
      invariant forall j :: at <= j < n ==> input[j] == xs[j]
      invariant CbcLeft(k, c, all, v, xs[at..], output[..at])
      invariant output[n..] == old(output[n..])
      decreases n - at
    {
      ghost var done := output[..at];
      assert input[at..at + c.size] == xs[at..][..c.size] && xs[at..][c.size..] == xs[at + c.size..];
      CbcTurn(k, c, all, v, xs[at..], done);
      v := CbcTurnOf(c, op, input, output, at, v);
      assert output[..at + c.size] == done + output[at..at + c.size];
      at := at + c.size;
    }
    CbcEnds(k, c, all, v, xs[at..], output[..at]);
  }
}
