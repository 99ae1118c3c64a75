/** The block operation and the subkeys of DES (muggle/c/crypt/des.c and tdes.c) followed step by
    step, as the Enciphering part of FIPS 46-3 describes them: the tables bit by bit, the halves
    after each round, and the key after each shift. */
module DesTrace {
  import opened CryptBase
  import opened Feistel

  // ---------------------------------------------------------------- the tables

  function InitialRow(r: nat): (row: seq<nat>)
    requires r < 8
    ensures |row| == 8
  {
    if r == 0 then [57, 49, 41, 33, 25, 17, 9, 1]
    else if r == 1 then [59, 51, 43, 35, 27, 19, 11, 3]
    else if r == 2 then [61, 53, 45, 37, 29, 21, 13, 5]
    else if r == 3 then [63, 55, 47, 39, 31, 23, 15, 7]
    else if r == 4 then [56, 48, 40, 32, 24, 16, 8, 0]
    else if r == 5 then [58, 50, 42, 34, 26, 18, 10, 2]
    else if r == 6 then [60, 52, 44, 36, 28, 20, 12, 4]
    else [62, 54, 46, 38, 30, 22, 14, 6]
  }

  function FinalRow(r: nat): (row: seq<nat>)
    requires r < 8
    ensures |row| == 8
  {
    if r == 0 then [39, 7, 47, 15, 55, 23, 63, 31]
    else if r == 1 then [38, 6, 46, 14, 54, 22, 62, 30]
    else if r == 2 then [37, 5, 45, 13, 53, 21, 61, 29]
    else if r == 3 then [36, 4, 44, 12, 52, 20, 60, 28]
    else if r == 4 then [35, 3, 43, 11, 51, 19, 59, 27]
    else if r == 5 then [34, 2, 42, 10, 50, 18, 58, 26]
    else if r == 6 then [33, 1, 41, 9, 49, 17, 57, 25]
    else [32, 0, 40, 8, 48, 16, 56, 24]
  }

  lemma RowAt(f: (nat, nat) -> int, r: nat, c: nat)
    requires c < 8
    ensures Row(f, r)[c] == f(r, c)
  {
  }

  lemma InitialEntry(r: nat, c: nat)
    requires r < 8 && c < 8
    ensures InitialRow(r)[c] == IpAt(r, c)
  {
    hide Row, IpAt;
    IpTable();
    RowAt(IpAt, r, c);
    assert Row(IpAt, r) == InitialRow(r);
  }

  lemma FinalEntry(r: nat, c: nat)
    requires r < 8 && c < 8
    ensures FinalRow(r)[c] == FpAt(r, c)
  {
    hide Row, FpAt;
    FpTable();
    RowAt(FpAt, r, c);
    assert Row(FpAt, r) == FinalRow(r);
  }

  // Bit 8r + c of y is the bit of x that entry c of row r of the table names.
  ghost predicate PickedByInitial(x: Bits, y: Bits) {
    && |x| == |y| == 64
    && forall r: nat, c: nat :: r < 8 && c < 8 ==> InitialRow(r)[c] < 64 && y[8 * r + c] == x[InitialRow(r)[c]]
  }

  ghost predicate PickedByFinal(x: Bits, y: Bits) {
    && |x| == |y| == 64
    && forall r: nat, c: nat :: r < 8 && c < 8 ==> FinalRow(r)[c] < 64 && y[8 * r + c] == x[FinalRow(r)[c]]
  }

  lemma PermutesByTables(x: Bits)
    requires |x| == 64
    ensures InRange(IpAt) && PickedByInitial(x, Permute(x, IpAt))
    ensures InRange(FpAt) && PickedByFinal(x, Permute(x, FpAt))
  {
    hide Permute, InRange, InitialRow, FinalRow, IpAt, FpAt;
    TablesAreInRange();
    forall r: nat, c: nat | r < 8 && c < 8
      ensures InitialRow(r)[c] < 64 && Permute(x, IpAt)[8 * r + c] == x[InitialRow(r)[c]]
      ensures FinalRow(r)[c] < 64 && Permute(x, FpAt)[8 * r + c] == x[FinalRow(r)[c]]
    {
      InitialEntry(r, c);
      PermutedBit(x, IpAt, r, c);
      FinalEntry(r, c);
      PermutedBit(x, FpAt, r, c);
    }
  }

  lemma PermutedBit(x: Bits, f: (nat, nat) -> int, r: nat, c: nat)
    requires |x| == 64 && InRange(f) && r < 8 && c < 8
    ensures 0 <= f(r, c) < 64 && Permute(x, f)[8 * r + c] == x[f(r, c)]
  {
    hide InRange, Permute;
    Digits(r, c);
    SourceInRange(f, 8 * r + c);
  }

  lemma SourceInRange(f: (nat, nat) -> int, i: nat)
    requires InRange(f) && i < 64
    ensures 0 <= Source(f, i) < 64
  {
  }

  // ---------------------------------------------------------------- the rounds

  // The halves before the first round and after each.
  ghost function Trace(p: Halves, ks: seq<Subkey>, f: RoundFn): (hs: seq<Halves>)
    ensures |hs| == |ks| + 1 && hs[0] == p && hs[|ks|] == Rounds(p, ks, f)
    decreases |ks|
  {
    if ks == [] then [p] else [p] + Trace(Round(p, ks[0], f), ks[1..], f)
  }

  lemma {:induction false} XorBit(a: Bits, b: Bits, i: nat)
    requires i < |a|
    ensures Xor(a, b)[i] == (a[i] != (i < |b| && b[i]))
  {
    if i == 0 {
    } else {
      XorBit(a[1..], if b == [] then [] else b[1..], i - 1);
    }
  }

  // h follows g by one round with subkey k; a bit that the round function does not give counts as 0.
  ghost predicate Follows(g: Halves, h: Halves, k: Subkey, f: RoundFn) {
    && h.l == g.h && |h.h| == |g.l|
    && forall b :: 0 <= b < |g.l| ==> h.h[b] == (g.l[b] != (b < |f(g.h, k)| && f(g.h, k)[b]))
  }

  lemma RoundFollows(g: Halves, k: Subkey, f: RoundFn)
    ensures Follows(g, Round(g, k, f), k, f)
  {
    forall b | 0 <= b < |g.l| ensures Xor(g.l, f(g.h, k))[b] == (g.l[b] != (b < |f(g.h, k)| && f(g.h, k)[b])) {
      XorBit(g.l, f(g.h, k), b);
    }
  }

  lemma {:induction false} TraceFollows(p: Halves, ks: seq<Subkey>, f: RoundFn, j: nat)
    requires j < |ks|
    ensures Follows(Trace(p, ks, f)[j], Trace(p, ks, f)[j + 1], ks[j], f)
    decreases |ks|
  {
    hide Follows, Round;
    RoundFollows(p, ks[0], f);
    if j == 0 {
    } else {
      TraceFollows(Round(p, ks[0], f), ks[1..], f, j - 1);
    }
  }

  /** The whole operation, for any subkeys and round function: the halves of the block after the
      initial table, round after round, and the exchanged halves of the last through the final
      table. */
  lemma CryptIsTraced(ks: seq<Subkey>, x: Bits, f: RoundFn) returns (hs: seq<Halves>)
    requires |x| == 64
    ensures |hs| == |ks| + 1 && forall j :: 0 <= j <= |ks| ==> Words(hs[j])
    ensures PickedByInitial(x, hs[0].l + hs[0].h)
    ensures forall j :: 0 <= j < |ks| ==> Follows(hs[j], hs[j + 1], ks[j], f)
    ensures PickedByFinal(hs[|ks|].h + hs[|ks|].l, Crypt(ks, x, f))
  {
    hide Permute, InRange, Rounds, Follows, Trace, PickedByInitial, PickedByFinal;
    PermutesByTables(x);
    var p := Split(Permute(x, IpAt));
    hs := Trace(p, ks, f);
    assert p.l + p.h == Permute(x, IpAt);
    forall j | 0 <= j < |ks| ensures Follows(hs[j], hs[j + 1], ks[j], f) { TraceFollows(p, ks, f, j); }
    forall j | 0 <= j <= |ks| ensures Words(hs[j]) { TraceIsWords(p, ks, f, j); }
    PermutesByTables(hs[|ks|].h + hs[|ks|].l);
  }

  lemma {:induction false} TraceIsWords(p: Halves, ks: seq<Subkey>, f: RoundFn, j: nat)
    requires Words(p) && j <= |ks|
    ensures Words(Trace(p, ks, f)[j])
    decreases |ks|
  {
    if j == 0 {
    } else {
      TraceIsWords(Round(p, ks[0], f), ks[1..], f, j - 1);
    }
  }

  // ---------------------------------------------------------------- the subkeys

  // The key after the first permutation and after each shift from round i on.
  ghost function Shifts(out: Bits, i: nat, s: Schedule): (cs: seq<Bits>)
    ensures |cs| == (if i < 16 then 16 - i else 0) + 1 && cs[0] == out
    decreases 16 - i
  {
    if i >= 16 then [out] else [out] + Shifts(s.shift(out, i), i + 1, s)
  }

  lemma ShiftsStart(out: Bits, i: nat, s: Schedule)
    requires i < 16
    ensures var next := s.shift(out, i);
            && Shifts(out, i, s) == [out] + Shifts(next, i + 1, s)
            && Subkeys(out, i, s) == [s.pc2(next)] + Subkeys(next, i + 1, s)
  {
  }

  lemma {:induction false} ShiftsGoOn(out: Bits, i: nat, s: Schedule, j: nat)
    requires i + j < 16
    ensures Shifts(out, i, s)[j + 1] == s.shift(Shifts(out, i, s)[j], i + j)
    ensures Subkeys(out, i, s)[j] == s.pc2(Shifts(out, i, s)[j + 1])
    decreases 16 - i
  {
    hide Shifts, Subkeys;
    ShiftsStart(out, i, s);
    if j == 0 {
    } else {
      ShiftsGoOn(s.shift(out, i), i + 1, s, j - 1);
    }
  }

  /** The subkey of each round is cut out of the key as shifted up to that round; an encrypt
      context holds them in order and a decrypt context backwards. */
  lemma KeysAreTraced(key: Bits, s: Schedule) returns (cs: seq<Bits>)
    ensures |cs| == 17 && cs[0] == s.pc1(key) && forall i :: 0 <= i < 16 ==> cs[i + 1] == s.shift(cs[i], i)
    ensures forall i :: 0 <= i < 16 ==> KeysFor(ENCRYPT, key, s)[i] == s.pc2(cs[i + 1])
    ensures forall i :: 0 <= i < 16 ==> KeysFor(DECRYPT, key, s)[i] == s.pc2(cs[16 - i])
  {
    hide Subkeys, Reversed, Shifts;
    cs := Shifts(s.pc1(key), 0, s);
    var ks := Subkeys(s.pc1(key), 0, s);
    forall i | 0 <= i < 16
      ensures cs[i + 1] == s.shift(cs[i], i) && ks[i] == s.pc2(cs[i + 1]) && Reversed(ks)[i] == s.pc2(cs[16 - i])
    {
      ShiftsGoOn(s.pc1(key), 0, s, i);
      ShiftsGoOn(s.pc1(key), 0, s, 15 - i);
      ReversedAt(ks, i);
    }
  }

  /** A triple DES context enciphers with the first key, deciphers with the second and enciphers
      with the third; for decryption the other way about, in the opposite order. */
  lemma TripleKeysAre(key1: Bits, key2: Bits, key3: Bits, s: Schedule)
    ensures var ks := TripleKeys(ENCRYPT, key1, key2, key3, s);
            && |ks| == 48 && ks[..16] == KeysFor(ENCRYPT, key1, s) && ks[16..32] == KeysFor(DECRYPT, key2, s)
            && ks[32..] == KeysFor(ENCRYPT, key3, s)
    ensures var ks := TripleKeys(DECRYPT, key1, key2, key3, s);
            && |ks| == 48 && ks[..16] == KeysFor(DECRYPT, key3, s) && ks[16..32] == KeysFor(ENCRYPT, key2, s)
            && ks[32..] == KeysFor(DECRYPT, key1, s)
  {
    hide KeysFor;
  }
}
