/** The block operation of DES and triple DES (muggle/c/crypt/des.c, tdes.c and
    internal/internal_des.c): initial permutation, Feistel rounds with the subkeys in order,
    exchange of the halves and final permutation.  Words are lists of bits, lowest bit first;
    the round function and the permutations of the key schedule are arbitrary. */
module Feistel {
  import opened CryptBase
  import opened Options

  type Bits = seq<bool>
  type Subkey = Bits

  // ---------------------------------------------------------------- initial and final permutation

  // The bit of the input that becomes bit c of byte r under the initial and final permutation.
  function IpAt(r: nat, c: nat): int {
    (if r < 4 then 57 + 2 * r else 48 + 2 * r) - 8 * c
  }

  function FpAt(r: nat, c: nat): int {
    (if c % 2 == 0 then 39 else 3) + 4 * c - r
  }

  function Row(f: (nat, nat) -> int, r: nat): seq<int> {
    [f(r, 0), f(r, 1), f(r, 2), f(r, 3), f(r, 4), f(r, 5), f(r, 6), f(r, 7)]
  }

  /** The tables of the source, row by row. */
  lemma IpTable()
    ensures Row(IpAt, 0) == [57, 49, 41, 33, 25, 17, 9, 1]
    ensures Row(IpAt, 1) == [59, 51, 43, 35, 27, 19, 11, 3]
    ensures Row(IpAt, 2) == [61, 53, 45, 37, 29, 21, 13, 5]
    ensures Row(IpAt, 3) == [63, 55, 47, 39, 31, 23, 15, 7]
    ensures Row(IpAt, 4) == [56, 48, 40, 32, 24, 16, 8, 0]
    ensures Row(IpAt, 5) == [58, 50, 42, 34, 26, 18, 10, 2]
    ensures Row(IpAt, 6) == [60, 52, 44, 36, 28, 20, 12, 4]
    ensures Row(IpAt, 7) == [62, 54, 46, 38, 30, 22, 14, 6]
  {
  }

  lemma FpTable()
    ensures Row(FpAt, 0) == [39, 7, 47, 15, 55, 23, 63, 31]
    ensures Row(FpAt, 1) == [38, 6, 46, 14, 54, 22, 62, 30]
    ensures Row(FpAt, 2) == [37, 5, 45, 13, 53, 21, 61, 29]
    ensures Row(FpAt, 3) == [36, 4, 44, 12, 52, 20, 60, 28]
    ensures Row(FpAt, 4) == [35, 3, 43, 11, 51, 19, 59, 27]
    ensures Row(FpAt, 5) == [34, 2, 42, 10, 50, 18, 58, 26]
    ensures Row(FpAt, 6) == [33, 1, 41, 9, 49, 17, 57, 25]
    ensures Row(FpAt, 7) == [32, 0, 40, 8, 48, 16, 56, 24]
  {
  }

  function Source(f: (nat, nat) -> int, i: nat): int { f(i / 8, i % 8) }

  lemma Digits(q: nat, m: nat)
    requires m < 8
    ensures (8 * q + m) / 8 == q && (8 * q + m) % 8 == m
  {
  }

  /** Each permutation takes back what the other does. */
  lemma TablesAreInverse(r: nat, c: nat)
    requires r < 8 && c < 8
    ensures 0 <= IpAt(r, c) < 64 && Source(FpAt, IpAt(r, c)) == 8 * r + c
    ensures 0 <= FpAt(r, c) < 64 && Source(IpAt, FpAt(r, c)) == 8 * r + c
  {
    FpAfterIp(r, c);
    IpAfterFp(r, c);
  }

  lemma FpAfterIp(r: nat, c: nat)
    requires r < 8 && c < 8
    ensures 0 <= IpAt(r, c) < 64 && Source(FpAt, IpAt(r, c)) == 8 * r + c
  {
    Digits(7 - c, if r < 4 then 2 * r + 1 else 2 * (r - 4));
  }

  lemma IpAfterFp(r: nat, c: nat)
    requires r < 8 && c < 8
    ensures 0 <= FpAt(r, c) < 64 && Source(IpAt, FpAt(r, c)) == 8 * r + c
  {
    Digits(if c % 2 == 0 then 4 + c / 2 else c / 2, 7 - r);
  }

  ghost predicate InRange(f: (nat, nat) -> int) {
    forall i: nat :: i < 64 ==> 0 <= Source(f, i) < 64
  }

  function Permute(x: Bits, f: (nat, nat) -> int): (y: Bits)
    requires |x| == 64 && InRange(f)
    ensures |y| == 64 && forall i :: 0 <= i < 64 ==> y[i] == x[Source(f, i)]
  {
    seq(64, i requires 0 <= i < 64 && |x| == 64 && InRange(f) => x[Source(f, i)])
  }

  lemma TablesAreInRange()
    ensures InRange(IpAt) && InRange(FpAt)
  {
    forall i: nat | i < 64 ensures 0 <= Source(IpAt, i) < 64 && 0 <= Source(FpAt, i) < 64 {
      TablesAreInverse(i / 8, i % 8);
    }
  }

  // What g picks, f has taken from the same place.
  ghost predicate Undoes(f: (nat, nat) -> int, g: (nat, nat) -> int) {
    InRange(f) && InRange(g) && forall i: nat :: i < 64 ==> Source(f, Source(g, i)) == i
  }

  lemma TablesUndoEachOther()
    ensures Undoes(IpAt, FpAt) && Undoes(FpAt, IpAt)
  {
    TablesAreInRange();
    forall i: nat | i < 64 ensures Source(IpAt, Source(FpAt, i)) == i && Source(FpAt, Source(IpAt, i)) == i {
      TablesAreInverse(i / 8, i % 8);
    }
  }

  /** Permuting with a table and then with one that undoes it gives the block back. */
  lemma PermutationsCancel(x: Bits, f: (nat, nat) -> int, g: (nat, nat) -> int)
    requires |x| == 64 && Undoes(f, g)
    ensures Permute(Permute(x, f), g) == x
  {
    hide Source;
    var u := Permute(x, f);
    var y := Permute(u, g);
    forall i: nat | i < 64 ensures y[i] == x[i] {
      assert y[i] == u[Source(g, i)] == x[Source(f, Source(g, i))];
    }
  }

  // ---------------------------------------------------------------- rounds

  type RoundFn = (Bits, Subkey) -> Bits

  // The low and high half of a block.
  datatype Halves = Halves(l: Bits, h: Bits)

  ghost predicate Words(p: Halves) { |p.l| == 32 && |p.h| == 32 }

  // Exclusive or; a missing bit of b counts as 0.
  function Xor(a: Bits, b: Bits): (c: Bits)
    ensures |c| == |a|
  {
    if a == [] then []
    else [a[0] != (b != [] && b[0])] + Xor(a[1..], if b == [] then [] else b[1..])
  }

  lemma {:induction false} XorTwice(a: Bits, b: Bits)
    ensures Xor(Xor(a, b), b) == a
  {
    if a == [] {
    } else {
      var rest := if b == [] then [] else b[1..];
      XorTwice(a[1..], rest);
      assert Xor(a, b)[1..] == Xor(a[1..], rest);
    }
  }

  function Round(p: Halves, k: Subkey, f: RoundFn): Halves {
    Halves(p.h, Xor(p.l, f(p.h, k)))
  }

  function Rounds(p: Halves, ks: seq<Subkey>, f: RoundFn): Halves
    decreases |ks|
  {
    if ks == [] then p else Rounds(Round(p, ks[0], f), ks[1..], f)
  }

  function Exchanged(p: Halves): Halves { Halves(p.h, p.l) }

  function Reversed(ks: seq<Subkey>): (r: seq<Subkey>)
    ensures |r| == |ks|
  {
    if ks == [] then [] else Reversed(ks[1..]) + [ks[0]]
  }

  lemma {:induction false} RoundsJoin(p: Halves, ks: seq<Subkey>, js: seq<Subkey>, f: RoundFn)
    ensures Rounds(p, ks + js, f) == Rounds(Rounds(p, ks, f), js, f)
    decreases |ks|
  {
    if ks == [] {
      assert ks + js == js;
    } else {
      assert (ks + js)[1..] == ks[1..] + js;
      RoundsJoin(Round(p, ks[0], f), ks[1..], js, f);
    }
  }

  /** Any number of rounds are undone, up to the exchange of the halves, by the same rounds
      with the subkeys reversed. */
  lemma {:induction false} RoundsUndo(p: Halves, ks: seq<Subkey>, f: RoundFn)
    ensures Rounds(Exchanged(Rounds(p, ks, f)), Reversed(ks), f) == Exchanged(p)
    decreases |ks|
  {
    if ks == [] {
    } else {
      var q := Round(p, ks[0], f);
      RoundsUndo(q, ks[1..], f);
      RoundsJoin(Exchanged(Rounds(p, ks, f)), Reversed(ks[1..]), [ks[0]], f);
      XorTwice(p.l, f(p.h, ks[0]));
      assert Rounds(Exchanged(q), [ks[0]], f) == Round(Exchanged(q), ks[0], f);
    }
  }

  lemma {:induction false} RoundsKeepWords(p: Halves, ks: seq<Subkey>, f: RoundFn)
    requires Words(p)
    ensures Words(Rounds(p, ks, f))
    decreases |ks|
  {
    if ks == [] {
    } else {
      RoundsKeepWords(Round(p, ks[0], f), ks[1..], f);
    }
  }

  // ---------------------------------------------------------------- the block operation

  function Split(x: Bits): Halves
    requires |x| == 64
  {
    Halves(x[..32], x[32..])
  }

  // muggle_des_crypt and muggle_tdes_crypt: all rounds, then one exchange of the halves.
  ghost function Crypt(ks: seq<Subkey>, x: Bits, f: RoundFn): (y: Bits)
    requires |x| == 64
    ensures |y| == 64
  {
    TablesAreInRange();
    RoundsKeepWords(Split(Permute(x, IpAt)), ks, f);
    var p := Exchanged(Rounds(Split(Permute(x, IpAt)), ks, f));
    Permute(p.l + p.h, FpAt)
  }

  /** Whatever the round function and the subkeys, running the subkeys backwards decrypts. */
  lemma CryptUndo(ks: seq<Subkey>, x: Bits, f: RoundFn)
    requires |x| == 64
    ensures Crypt(Reversed(ks), Crypt(ks, x, f), f) == x
  {
    TablesUndoEachOther();
    var p := Split(Permute(x, IpAt));
    RoundsKeepWords(p, ks, f);
    var q := Exchanged(Rounds(p, ks, f));
    PermutationsCancel(q.l + q.h, FpAt, IpAt);
    assert Split(q.l + q.h) == q;
    RoundsUndo(p, ks, f);
    assert p.l + p.h == Permute(x, IpAt);
    PermutationsCancel(x, IpAt, FpAt);
  }

  lemma {:induction false} ReversedJoin(ks: seq<Subkey>, js: seq<Subkey>)
    ensures Reversed(ks + js) == Reversed(js) + Reversed(ks)
  {
    if ks == [] {
      assert ks + js == js;
    } else {
      assert (ks + js)[1..] == ks[1..] + js;
      ReversedJoin(ks[1..], js);
    }
  }

  lemma {:induction false} ReversedTwice(ks: seq<Subkey>)
    ensures Reversed(Reversed(ks)) == ks
  {
    if ks == [] {
    } else {
      ReversedJoin(Reversed(ks[1..]), [ks[0]]);
      ReversedTwice(ks[1..]);
      assert Reversed([ks[0]]) == [ks[0]];
    }
  }

  lemma {:induction false} ReversedAt(ks: seq<Subkey>, i: nat)
    requires i < |ks|
    ensures Reversed(ks)[i] == ks[|ks| - 1 - i]
  {
    if i == |ks| - 1 {
    } else {
      ReversedAt(ks[1..], i);
    }
  }

  lemma ReversedThree(a: seq<Subkey>, b: seq<Subkey>, c: seq<Subkey>)
    ensures Reversed(a + Reversed(b) + c) == Reversed(c) + b + Reversed(a)
  {
    hide Reversed;
    ReversedJoin(a + Reversed(b), c);
    ReversedJoin(a, Reversed(b));
    ReversedTwice(b);
    assert Reversed(c) + (b + Reversed(a)) == Reversed(c) + b + Reversed(a);
  }

  // ---------------------------------------------------------------- keys

  // PC-1, the shift of each round, and PC-2.
  datatype Schedule = Schedule(pc1: Bits -> Bits, shift: (Bits, nat) -> Bits, pc2: Bits -> Subkey)

  // The subkeys of rounds i to 15, from the shifted key after i rounds.
  function Subkeys(out: Bits, i: nat, s: Schedule): (ks: seq<Subkey>)
    ensures |ks| == if i < 16 then 16 - i else 0
    decreases 16 - i
  {
    if i >= 16 then [] else var next := s.shift(out, i); [s.pc2(next)] + Subkeys(next, i + 1, s)
  }

  // The subkeys that muggle_des_set_key_inner stores.
  function KeysFor(op: int, key: Bits, s: Schedule): (ks: seq<Subkey>)
    ensures |ks| == 16
  {
    var ks := Subkeys(s.pc1(key), 0, s);
    if op == DECRYPT then Reversed(ks) else ks
  }

  // The operation whose subkeys a mode runs.
  function KeyOp(op: int, mode: int): (r: int)
    ensures op in {DECRYPT, ENCRYPT} ==> r in {DECRYPT, ENCRYPT}
  {
    if mode == ECB || mode == CBC then op else ENCRYPT
  }

  predicate Accepted(op: int, mode: int) { ValidOp(op) && ValidMode(mode) }

  /** A decrypt context undoes an encrypt context, and the other way round. */
  lemma DesRoundTrip(key: Bits, x: Bits, f: RoundFn, s: Schedule, op: int, inv: int)
    requires |x| == 64 && {op, inv} == {ENCRYPT, DECRYPT}
    ensures Crypt(KeysFor(inv, key, s), Crypt(KeysFor(op, key, s), x, f), f) == x
  {
    hide Subkeys, Crypt, Reversed;
    assert op != inv;
    var ks := Subkeys(s.pc1(key), 0, s);
    CryptUndo(ks, x, f);
    CryptUndo(Reversed(ks), x, f);
    ReversedTwice(ks);
  }

  function Inverted(op: int): int { if op == ENCRYPT then DECRYPT else ENCRYPT }

  // The 48 subkeys of a triple DES context.
  function TripleKeys(op: int, key1: Bits, key2: Bits, key3: Bits, s: Schedule): seq<Subkey> {
    if op == ENCRYPT then
      KeysFor(ENCRYPT, key1, s) + KeysFor(DECRYPT, key2, s) + KeysFor(ENCRYPT, key3, s)
    else
      KeysFor(DECRYPT, key3, s) + KeysFor(ENCRYPT, key2, s) + KeysFor(DECRYPT, key1, s)
  }

  lemma TripleKeysReverse(key1: Bits, key2: Bits, key3: Bits, s: Schedule)
    ensures TripleKeys(DECRYPT, key1, key2, key3, s) == Reversed(TripleKeys(ENCRYPT, key1, key2, key3, s))
  {
    hide Subkeys, Reversed;
    var a, b, c := Subkeys(s.pc1(key1), 0, s), Subkeys(s.pc1(key2), 0, s), Subkeys(s.pc1(key3), 0, s);
    ReversedThree(a, b, c);
  }

  /** The triple DES decrypt context, which takes the keys in the opposite order, undoes the
      encrypt context, and the other way round. */
  lemma TripleRoundTrip(key1: Bits, key2: Bits, key3: Bits, x: Bits, f: RoundFn, s: Schedule, op: int)
    requires |x| == 64 && op in {ENCRYPT, DECRYPT}
    ensures var y := Crypt(TripleKeys(op, key1, key2, key3, s), x, f);
            Crypt(TripleKeys(Inverted(op), key1, key2, key3, s), y, f) == x
  {
    hide TripleKeys, Crypt, Reversed;
    TripleKeysReverse(key1, key2, key3, s);
    var ks := TripleKeys(ENCRYPT, key1, key2, key3, s);
    CryptUndo(ks, x, f);
    CryptUndo(Reversed(ks), x, f);
    ReversedTwice(ks);
  }

  // ---------------------------------------------------------------- the loops

  type DesContext = Context<seq<Subkey>>
  datatype TripleKey = TripleKey(ctx1: DesContext, ctx2: DesContext, ctx3: DesContext)

  // Where the subkey of round j is stored.
  function Slot(op: int, j: int): int { if op == DECRYPT then 15 - j else j }

  lemma SubkeysGoOn(out: Bits, i: nat, s: Schedule)
    requires i < 16
    ensures Subkeys(out, i, s)[0] == s.pc2(s.shift(out, i))
    ensures Subkeys(out, i, s)[1..] == Subkeys(s.shift(out, i), i + 1, s)
  {
  }

  /** Stores the subkeys from the front, or for decryption from the back. */
  method SetKeyInner(op: int, key: Bits, s: Schedule) returns (sk: seq<Subkey>)
    ensures sk == KeysFor(op, key, s)
  {
    hide Reversed, Subkeys;
    ghost var ks := Subkeys(s.pc1(key), 0, s);
    var buf := new Subkey[16](_ => []);
    var out := s.pc1(key);
    var i := 0;
    while i < 16
      invariant 0 <= i <= 16 && ks[i..] == Subkeys(out, i, s)
      invariant forall j :: 0 <= j < i ==> buf[Slot(op, j)] == ks[j]
    {
      SubkeysGoOn(out, i, s);
      out := s.shift(out, i);
      var idx := i;
      if op == DECRYPT { idx := 15 - i; }
      buf[idx] := s.pc2(out);
      assert ks[i] == ks[i..][0] == buf[idx];
      assert ks[i + 1..] == ks[i..][1..];
      i := i + 1;
    }
    sk := buf[..];
    KeysAt(op, key, s, sk);
  }

  lemma KeysAt(op: int, key: Bits, s: Schedule, sk: seq<Subkey>)
    requires |sk| == 16
    requires forall j :: 0 <= j < 16 ==> sk[Slot(op, j)] == Subkeys(s.pc1(key), 0, s)[j]
    ensures sk == KeysFor(op, key, s)
  {
    hide Subkeys, Reversed;
    var ks := Subkeys(s.pc1(key), 0, s);
    if op != DECRYPT {
      assert forall j :: 0 <= j < 16 ==> sk[j] == sk[Slot(op, j)];
    } else {
      forall j | 0 <= j < 16 ensures sk[j] == Reversed(ks)[j] {
        ReversedAt(ks, j);
        assert sk[Slot(op, 15 - j)] == ks[15 - j];
      }
    }
  }

  /** muggle_des_set_key: the modes that only ever run the cipher forwards get encryption
      subkeys. */
  method SetKey(op: int, mode: int, key: Bits, s: Schedule) returns (ctx: Option<DesContext>)
    ensures ctx.None? <==> !Accepted(op, mode)
    ensures ctx.Some? ==> ctx.value == Context(op, mode, KeysFor(KeyOp(op, mode), key, s))
    ensures ctx.Some? ==> ctx.value.key == KeysFor(if mode == ECB || mode == CBC then op else ENCRYPT, key, s)
  {
    if op != ENCRYPT && op != DECRYPT { return None; }
    if mode == ECB || mode == CBC {
      var sk := SetKeyInner(op, key, s);
      ctx := Some(Context(op, mode, sk));
    } else if mode == CFB || mode == OFB || mode == CTR {
      var sk := SetKeyInner(ENCRYPT, key, s);
      ctx := Some(Context(op, mode, sk));
    } else {
      ctx := None;
    }
  }

  method SetTripleKey(op: int, mode: int, key1: Bits, key2: Bits, key3: Bits, s: Schedule)
    returns (ctx: Option<Context<TripleKey>>)
    ensures ctx.None? <==> !Accepted(op, mode)
    ensures ctx.Some? ==> ctx.value.op == op && ctx.value.mode == mode
                          && ctx.value.key.ctx1.key + ctx.value.key.ctx2.key + ctx.value.key.ctx3.key
                             == TripleKeys(KeyOp(op, mode), key1, key2, key3, s)
    ensures ctx.Some? ==>
              var k := ctx.value.key;
              if op == DECRYPT && (mode == ECB || mode == CBC) then
                && k.ctx1.key == KeysFor(DECRYPT, key3, s) && k.ctx2.key == KeysFor(ENCRYPT, key2, s)
                && k.ctx3.key == KeysFor(DECRYPT, key1, s)
              else
                && k.ctx1.key == KeysFor(ENCRYPT, key1, s) && k.ctx2.key == KeysFor(DECRYPT, key2, s)
                && k.ctx3.key == KeysFor(ENCRYPT, key3, s)
  {
    hide KeysFor;
    if op != ENCRYPT && op != DECRYPT { return None; }
    var invOp := if op == ENCRYPT then DECRYPT else ENCRYPT;
    if mode == ECB || mode == CBC {
      if op == ENCRYPT {
        var c1 := SetKey(op, ECB, key1, s);
        var c2 := SetKey(invOp, ECB, key2, s);
        var c3 := SetKey(op, ECB, key3, s);
        ctx := Some(Context(op, mode, TripleKey(c1.value, c2.value, c3.value)));
      } else {
        var c1 := SetKey(op, ECB, key3, s);
        var c2 := SetKey(invOp, ECB, key2, s);
        var c3 := SetKey(op, ECB, key1, s);
        ctx := Some(Context(op, mode, TripleKey(c1.value, c2.value, c3.value)));
      }
    } else if mode == CFB || mode == OFB || mode == CTR {
      var c1 := SetKey(ENCRYPT, ECB, key1, s);
      var c2 := SetKey(DECRYPT, ECB, key2, s);
      var c3 := SetKey(ENCRYPT, ECB, key3, s);
      ctx := Some(Context(op, mode, TripleKey(c1.value, c2.value, c3.value)));
    } else {
      ctx := None;
    }
  }

  // One loop of rounds over the two halves.
  method RunRounds(l0: Bits, h0: Bits, ks: seq<Subkey>, f: RoundFn) returns (l: Bits, h: Bits)
    ensures Halves(l, h) == Rounds(Halves(l0, h0), ks, f)
  {
    l, h := l0, h0;
    var i := 0;
    while i < |ks|
      invariant 0 <= i <= |ks| && Halves(l, h) == Rounds(Halves(l0, h0), ks[..i], f)
    {
      var tmp := Xor(l, f(h, ks[i]));
      l := h;
      h := tmp;
      RoundsJoin(Halves(l0, h0), ks[..i], [ks[i]], f);
      assert ks[..i + 1] == ks[..i] + [ks[i]];
      i := i + 1;
    }
    assert ks[..|ks|] == ks;
  }

  /** One block through DES. */
  method CryptBlock(ks: seq<Subkey>, x: Bits, f: RoundFn) returns (y: Bits)
    requires |x| == 64 && |ks| == 16
    ensures y == Crypt(ks, x, f)
  {
    TablesAreInRange();
    hide InRange;
    var b := Permute(x, IpAt);
    RoundsKeepWords(Split(b), ks, f);
    var l, h := RunRounds(b[..32], b[32..], ks, f);
    y := Permute(h + l, FpAt);
  }

  /** One block through triple DES: three loops of rounds and no exchange between them. */
  method TripleCryptBlock(ks1: seq<Subkey>, ks2: seq<Subkey>, ks3: seq<Subkey>, x: Bits, f: RoundFn) returns (y: Bits)
    requires |x| == 64 && |ks1| == |ks2| == |ks3| == 16
    ensures y == Crypt(ks1 + ks2 + ks3, x, f)
  {
    TablesAreInRange();
    hide InRange;
    var b := Permute(x, IpAt);
    RoundsKeepWords(Split(b), ks1 + ks2 + ks3, f);
    RoundsJoin(Split(b), ks1 + ks2, ks3, f);
    RoundsJoin(Split(b), ks1, ks2, f);
    var l, h := RunRounds(b[..32], b[32..], ks1, f);
    l, h := RunRounds(l, h, ks2, f);
    l, h := RunRounds(l, h, ks3, f);
    y := Permute(h + l, FpAt);
  }
}
