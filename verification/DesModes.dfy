/** DES and triple DES as block functions on bytes, and with them the modes: the decrypt
    context's block function undoes the encrypt context's, so CBC decryption with either
    cipher returns the plaintext (muggle/c/crypt/des.c and tdes.c). */
module DesModes {
  import opened CipherModes
  import opened CryptBase
  import opened Feistel

  // ---------------------------------------------------------------- bytes and bits

  // The bits of a byte, lowest first.
  function ByteBits(b: Byte): (s: Bits)
    ensures |s| == 8
  {
    [b & 1 != 0, b & 2 != 0, b & 4 != 0, b & 8 != 0, b & 16 != 0, b & 32 != 0, b & 64 != 0, b & 128 != 0]
  }

  function If(c: bool, b: Byte): Byte { if c then b else 0 }

  function BitsByte(s: Bits): Byte
    requires |s| == 8
  {
    If(s[0], 1) | If(s[1], 2) | If(s[2], 4) | If(s[3], 8) | If(s[4], 16) | If(s[5], 32) | If(s[6], 64) | If(s[7], 128)
  }

  lemma ByteRoundTrip(b: Byte)
    ensures BitsByte(ByteBits(b)) == b
  {
  }

  lemma BitsRoundTrip(s: Bits)
    requires |s| == 8
    ensures ByteBits(BitsByte(s)) == s
  {
  }

  // Blocks of 8 bytes and of 64 bits.
  function ToBits(bs: seq<Byte>): (x: Bits)
    ensures |x| == 8 * |bs|
  {
    if bs == [] then [] else ByteBits(bs[0]) + ToBits(bs[1..])
  }

  function ToBytes(x: Bits): (bs: seq<Byte>)
    requires |x| % 8 == 0
    ensures 8 * |bs| == |x|
  {
    if x == [] then [] else [BitsByte(x[..8])] + ToBytes(x[8..])
  }

  /** Bit j of byte i of a block is its bit 8i + j. */
  lemma {:induction false} ToBitsAt(bs: seq<Byte>, i: nat, j: nat)
    requires i < |bs| && j < 8
    ensures ToBits(bs)[8 * i + j] == ((bs[i] >> j) & 1 == 1)
  {
    if i == 0 {
      ByteBitsAt(bs[0], j);
    } else {
      ToBitsAt(bs[1..], i - 1, j);
      assert ToBits(bs)[8 * i + j] == ToBits(bs[1..])[8 * (i - 1) + j];
    }
  }

  lemma ByteBitsAt(b: Byte, j: nat)
    requires j < 8
    ensures ByteBits(b)[j] == ((b >> j) & 1 == 1)
  {
  }

  lemma {:induction false} BytesRoundTrip(bs: seq<Byte>)
    ensures ToBytes(ToBits(bs)) == bs
  {
    if bs == [] {
    } else {
      var x := ToBits(bs);
      assert x[..8] == ByteBits(bs[0]) && x[8..] == ToBits(bs[1..]);
      ByteRoundTrip(bs[0]);
      BytesRoundTrip(bs[1..]);
    }
  }

  lemma {:induction false} BlockRoundTrip(x: Bits)
    requires |x| % 8 == 0
    ensures ToBits(ToBytes(x)) == x
  {
    if x == [] {
    } else {
      BitsRoundTrip(x[..8]);
      BlockRoundTrip(x[8..]);
      assert x == x[..8] + x[8..];
    }
  }

  // ---------------------------------------------------------------- the ciphers

  // The block operation on 8 bytes.
  ghost function CryptBytes(ks: seq<Subkey>, f: RoundFn, b: seq<Byte>): (r: seq<Byte>)
    ensures |r| == |b|
  {
    if |b| == 8 then ToBytes(Crypt(ks, ToBits(b), f)) else b
  }

  ghost function CipherOf(encrypt: seq<Subkey>, decrypt: seq<Subkey>, f: RoundFn): Cipher {
    Cipher(b => CryptBytes(encrypt, f, b), b => CryptBytes(decrypt, f, b), 8)
  }

  lemma BytesUndo(encrypt: seq<Subkey>, decrypt: seq<Subkey>, f: RoundFn, b: seq<Byte>)
    requires |b| == 8 && Crypt(decrypt, Crypt(encrypt, ToBits(b), f), f) == ToBits(b)
    ensures CryptBytes(decrypt, f, CryptBytes(encrypt, f, b)) == b
  {
    hide Crypt, ToBits, ToBytes;
    BlockRoundTrip(Crypt(encrypt, ToBits(b), f));
    BytesRoundTrip(b);
  }

  lemma CipherIsInvertible(encrypt: seq<Subkey>, decrypt: seq<Subkey>, f: RoundFn)
    requires forall x :: |x| == 64 ==> Crypt(decrypt, Crypt(encrypt, x, f), f) == x
    ensures Invertible(CipherOf(encrypt, decrypt, f))
  {
    hide Crypt, ToBits, CryptBytes;
    forall b: seq<Byte> | |b| == 8 ensures CryptBytes(decrypt, f, CryptBytes(encrypt, f, b)) == b {
      BytesUndo(encrypt, decrypt, f, b);
    }
  }

  // The ciphers of a DES and of a triple DES context.
  ghost function Des(key: Bits, f: RoundFn, s: Schedule): Cipher {
    CipherOf(KeysFor(ENCRYPT, key, s), KeysFor(DECRYPT, key, s), f)
  }

  ghost function TripleDes(key1: Bits, key2: Bits, key3: Bits, f: RoundFn, s: Schedule): Cipher {
    CipherOf(TripleKeys(ENCRYPT, key1, key2, key3, s), TripleKeys(DECRYPT, key1, key2, key3, s), f)
  }

  /** Each of them enciphers with the subkeys of its encrypt context and deciphers with those of
      its decrypt context, on the bits of the block. */
  lemma DesBlockIs(key: Bits, f: RoundFn, s: Schedule, b: seq<Byte>)
    requires |b| == 8
    ensures var c := Des(key, f, s);
            && ToBits(c.e(b)) == Crypt(KeysFor(ENCRYPT, key, s), ToBits(b), f)
            && ToBits(c.d(b)) == Crypt(KeysFor(DECRYPT, key, s), ToBits(b), f)
  {
    hide Crypt, KeysFor, ToBits, ToBytes;
    BlockRoundTrip(Crypt(KeysFor(ENCRYPT, key, s), ToBits(b), f));
    BlockRoundTrip(Crypt(KeysFor(DECRYPT, key, s), ToBits(b), f));
  }

  lemma TripleDesBlockIs(key1: Bits, key2: Bits, key3: Bits, f: RoundFn, s: Schedule, b: seq<Byte>)
    requires |b| == 8
    ensures var c := TripleDes(key1, key2, key3, f, s);
            && ToBits(c.e(b)) == Crypt(TripleKeys(ENCRYPT, key1, key2, key3, s), ToBits(b), f)
            && ToBits(c.d(b)) == Crypt(TripleKeys(DECRYPT, key1, key2, key3, s), ToBits(b), f)
  {
    hide Crypt, TripleKeys, ToBits, ToBytes;
    BlockRoundTrip(Crypt(TripleKeys(ENCRYPT, key1, key2, key3, s), ToBits(b), f));
    BlockRoundTrip(Crypt(TripleKeys(DECRYPT, key1, key2, key3, s), ToBits(b), f));
  }

  lemma DesIsInvertible(key: Bits, f: RoundFn, s: Schedule)
    ensures Invertible(Des(key, f, s)) && Des(key, f, s).size == 8
  {
    hide Crypt, KeysFor, Invertible, CryptBytes;
    forall x | |x| == 64
      ensures Crypt(KeysFor(DECRYPT, key, s), Crypt(KeysFor(ENCRYPT, key, s), x, f), f) == x
    {
      DesRoundTrip(key, x, f, s, ENCRYPT, DECRYPT);
    }
    CipherIsInvertible(KeysFor(ENCRYPT, key, s), KeysFor(DECRYPT, key, s), f);
  }

  lemma TripleDesIsInvertible(key1: Bits, key2: Bits, key3: Bits, f: RoundFn, s: Schedule)
    ensures Invertible(TripleDes(key1, key2, key3, f, s)) && TripleDes(key1, key2, key3, f, s).size == 8
  {
    hide Crypt, TripleKeys, Invertible, CryptBytes;
    var e, d := TripleKeys(ENCRYPT, key1, key2, key3, s), TripleKeys(DECRYPT, key1, key2, key3, s);
    forall x | |x| == 64 ensures Crypt(d, Crypt(e, x, f), f) == x {
      TripleRoundTrip(key1, key2, key3, x, f, s, ENCRYPT);
    }
    CipherIsInvertible(e, d, f);
  }

  // ---------------------------------------------------------------- CBC

  /** CBC with DES: for every key, round function, vector and message of whole blocks. */
  lemma DesCbcRoundTrip(key: Bits, f: RoundFn, s: Schedule, iv: seq<Byte>, xs: seq<Byte>)
    requires |iv| == 8 && |xs| % 8 == 0
    ensures Invertible(Des(key, f, s))
    ensures var (v, ys) := CbcRun(Enc, Des(key, f, s), iv, xs); CbcRun(Dec, Des(key, f, s), iv, ys) == (v, xs)
  {
    hide *;
    DesIsInvertible(key, f, s);
    WholeIsMultiple(8, |xs|);
    CbcUndo(Des(key, f, s), iv, xs);
  }

  /** CBC with triple DES. */
  lemma TripleDesCbcRoundTrip(key1: Bits, key2: Bits, key3: Bits, f: RoundFn, s: Schedule, iv: seq<Byte>,
                              xs: seq<Byte>)
    requires |iv| == 8 && |xs| % 8 == 0
    ensures Invertible(TripleDes(key1, key2, key3, f, s))
    ensures var c := TripleDes(key1, key2, key3, f, s);
            var (v, ys) := CbcRun(Enc, c, iv, xs); CbcRun(Dec, c, iv, ys) == (v, xs)
  {
    hide *;
    TripleDesIsInvertible(key1, key2, key3, f, s);
    WholeIsMultiple(8, |xs|);
    CbcUndo(TripleDes(key1, key2, key3, f, s), iv, xs);
  }

  // ---------------------------------------------------------------- one buffer

  lemma InPlaceIsRightIff(c: Cipher, op: int, inPlace: bool, n: nat)
    requires Invertible(c) && c.size == 8 && ValidOp(op)
    ensures Sized(c) && (CfbIsRight(c, op, inPlace, n) <==> op == ENCRYPT || !inPlace || n == 0)
    ensures n % 8 == 0 ==> (CbcIsRight(c, op, inPlace, n) <==> op == ENCRYPT || !inPlace || n == 0)
  {
    hide Invertible, Run, CbcRun, Fits;
    InvertibleIsInjective(c);
    CfbInPlaceIsRightIff(c, op, inPlace, n);
    if n % 8 == 0 {
      WholeIsMultiple(8, n);
      CbcInPlaceIsRightIff(c, op, inPlace, n);
    }
  }

  /** With DES and with triple DES, for every key: in one buffer encryption is right, and
      decryption of anything but the empty message is not. */
  lemma DesInPlaceIsRightIff(key: Bits, f: RoundFn, s: Schedule, op: int, inPlace: bool, n: nat)
    requires ValidOp(op)
    ensures var c := Des(key, f, s);
            && Sized(c) && (CfbIsRight(c, op, inPlace, n) <==> op == ENCRYPT || !inPlace || n == 0)
            && (n % 8 == 0 ==> (CbcIsRight(c, op, inPlace, n) <==> op == ENCRYPT || !inPlace || n == 0))
  {
    hide *;
    DesIsInvertible(key, f, s);
    InPlaceIsRightIff(Des(key, f, s), op, inPlace, n);
  }

  lemma TripleDesInPlaceIsRightIff(key1: Bits, key2: Bits, key3: Bits, f: RoundFn, s: Schedule, op: int,
                                   inPlace: bool, n: nat)
    requires ValidOp(op)
    ensures var c := TripleDes(key1, key2, key3, f, s);
            && Sized(c) && (CfbIsRight(c, op, inPlace, n) <==> op == ENCRYPT || !inPlace || n == 0)
            && (n % 8 == 0 ==> (CbcIsRight(c, op, inPlace, n) <==> op == ENCRYPT || !inPlace || n == 0))
  {
    hide *;
    TripleDesIsInvertible(key1, key2, key3, f, s);
    InPlaceIsRightIff(TripleDes(key1, key2, key3, f, s), op, inPlace, n);
  }
}
