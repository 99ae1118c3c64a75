/** The sorts of muggle/c/dsaa/sort.c, in place on an array of data pointers and for any total
    preorder: insertion sort and merge sort (stable), quick sort and heap sort. */
module Sorting {
  import Heap
  import opened Ordering
  import opened Words

  // ---------------------------------------------------------------- what a sort promises

  ghost predicate Sorted(s: seq<Ptr>, cmp: Cmp) {
    forall i, j :: 0 <= i < j < |s| ==> cmp(s[i], s[j]) <= 0
  }

  // The elements that compare equal to k, in their order.
  function Class(s: seq<Ptr>, k: Ptr, cmp: Cmp): seq<Ptr> {
    if s == [] then [] else (if cmp(s[0], k) == 0 then [s[0]] else []) + Class(s[1..], k, cmp)
  }

  // t has the elements of s, and those that compare equal are in the same order.
  ghost predicate Stable(s: seq<Ptr>, t: seq<Ptr>, cmp: Cmp) {
    forall k :: Class(s, k, cmp) == Class(t, k, cmp)
  }

  lemma {:induction false} ClassJoin(s: seq<Ptr>, t: seq<Ptr>, k: Ptr, cmp: Cmp)
    ensures Class(s + t, k, cmp) == Class(s, k, cmp) + Class(t, k, cmp)
  {
    if s == [] {
      assert s + t == t;
    } else {
      var u := s + t;
      assert u[1..] == s[1..] + t && u[0] == s[0];
      ClassJoin(s[1..], t, k, cmp);
      var h := if cmp(s[0], k) == 0 then [s[0]] else [];
      assert Class(u, k, cmp) == h + Class(u[1..], k, cmp);
      assert Class(s, k, cmp) == h + Class(s[1..], k, cmp);
    }
  }

  lemma {:induction false} ClassEmpty(s: seq<Ptr>, k: Ptr, cmp: Cmp)
    requires forall i :: 0 <= i < |s| ==> cmp(s[i], k) != 0
    ensures Class(s, k, cmp) == []
  {
    if s == [] {
    } else {
      assert forall i :: 0 <= i < |s[1..]| ==> s[1..][i] == s[i + 1];
      ClassEmpty(s[1..], k, cmp);
    }
  }

  lemma {:induction false} ClassMembers(s: seq<Ptr>, k: Ptr, cmp: Cmp, x: Ptr)
    ensures multiset(Class(s, k, cmp))[x] == if cmp(x, k) == 0 then multiset(s)[x] else 0
  {
    if s == [] {
    } else {
      ClassMembers(s[1..], k, cmp, x);
      assert s == [s[0]] + s[1..];
    }
  }

  /** A stable rearrangement is a permutation. */
  lemma StableIsPermutation(s: seq<Ptr>, t: seq<Ptr>, cmp: Cmp)
    requires TotalPreorder(cmp) && Stable(s, t, cmp)
    ensures multiset(s) == multiset(t)
  {
    forall x: Ptr ensures multiset(s)[x] == multiset(t)[x] {
      Flip(cmp, x, x);
      assert Class(s, x, cmp) == Class(t, x, cmp);
      ClassMembers(s, x, cmp, x);
      ClassMembers(t, x, cmp, x);
    }
  }

  /** A sequence has one sorted stable rearrangement only. */
  lemma {:induction false} StableSortIsUnique(s: seq<Ptr>, t: seq<Ptr>, cmp: Cmp)
    requires TotalPreorder(cmp) && Sorted(s, cmp) && Sorted(t, cmp) && Stable(s, t, cmp)
    ensures s == t
    decreases |s|
  {
    hide TotalPreorder, Sorted, Stable;
    StableIsPermutation(s, t, cmp);
    assert |s| == |multiset(s)| == |t|;
    if s == [] {
    } else {
      HeadsAgree(s, t, cmp);
      TailsStable(s, t, cmp);
      TailSorted(s, cmp);
      TailSorted(t, cmp);
      StableSortIsUnique(s[1..], t[1..], cmp);
      assert s == [s[0]] + s[1..] && t == [t[0]] + t[1..];
    }
  }

  lemma HeadsAgree(s: seq<Ptr>, t: seq<Ptr>, cmp: Cmp)
    requires TotalPreorder(cmp) && Sorted(s, cmp) && Sorted(t, cmp) && Stable(s, t, cmp)
    requires s != [] && t != [] && multiset(s) == multiset(t)
    ensures s[0] == t[0]
  {
    hide TotalPreorder, Sorted;
    HeadIsLeast(s, t[0], cmp);
    HeadIsLeast(t, s[0], cmp);
    Flip(cmp, s[0], t[0]);
    var k := s[0];
    Flip(cmp, k, k);
    assert Class(s, k, cmp)[0] == s[0];
    assert Class(t, k, cmp)[0] == t[0];
  }

  lemma TailSorted(s: seq<Ptr>, cmp: Cmp)
    requires Sorted(s, cmp) && s != []
    ensures Sorted(s[1..], cmp)
  {
  }

  lemma HeadIsLeast(s: seq<Ptr>, x: Ptr, cmp: Cmp)
    requires TotalPreorder(cmp) && Sorted(s, cmp) && x in multiset(s)
    ensures s != [] && cmp(s[0], x) <= 0
  {
    Flip(cmp, x, x);
    var i :| 0 <= i < |s| && s[i] == x;
  }

  lemma TailsStable(s: seq<Ptr>, t: seq<Ptr>, cmp: Cmp)
    requires Stable(s, t, cmp) && s != [] && t != [] && s[0] == t[0]
    ensures Stable(s[1..], t[1..], cmp)
  {
    forall k ensures Class(s[1..], k, cmp) == Class(t[1..], k, cmp) {
      assert Class(s, k, cmp) == Class(t, k, cmp);
      var h := if cmp(s[0], k) == 0 then [s[0]] else [];
      assert Class(s, k, cmp) == h + Class(s[1..], k, cmp);
      assert Class(t, k, cmp) == h + Class(t[1..], k, cmp);
      assert (h + Class(s[1..], k, cmp))[|h|..] == Class(s[1..], k, cmp);
      assert (h + Class(t[1..], k, cmp))[|h|..] == Class(t[1..], k, cmp);
    }
  }

  // ---------------------------------------------------------------- insertion

  // x belongs behind the first j elements of s.
  ghost predicate Belongs(s: seq<Ptr>, x: Ptr, j: nat, cmp: Cmp) {
    j <= |s| && (forall i :: j <= i < |s| ==> cmp(s[i], x) > 0) && (j > 0 ==> cmp(s[j - 1], x) <= 0)
  }

  /** Putting x behind the last element that is not greater keeps a sequence sorted, and x
      comes after the elements equal to it. */
  lemma InsertKeepsSorted(s: seq<Ptr>, x: Ptr, j: nat, cmp: Cmp)
    requires TotalPreorder(cmp) && Sorted(s, cmp) && Belongs(s, x, j, cmp)
    ensures Sorted(s[..j] + [x] + s[j..], cmp)
  {
    hide TotalPreorder;
    var t := s[..j] + [x] + s[j..];
    forall a, b | 0 <= a < b < |t| ensures cmp(t[a], t[b]) <= 0 {
      if a < j && b == j {
        if a < j - 1 { Transitive(cmp, s[a], s[j - 1], x); }
      } else if a == j {
        Flip(cmp, s[b - 1], x);
      }
    }
  }

  lemma InsertIsStable(s: seq<Ptr>, x: Ptr, j: nat, cmp: Cmp)
    requires TotalPreorder(cmp) && Belongs(s, x, j, cmp)
    ensures Stable(s + [x], s[..j] + [x] + s[j..], cmp)
  {
    forall k ensures Class(s + [x], k, cmp) == Class(s[..j] + [x] + s[j..], k, cmp) {
      InsertClass(s[..j], s[j..], x, k, cmp);
      assert s == s[..j] + s[j..];
    }
  }

  lemma InsertClass(u: seq<Ptr>, v: seq<Ptr>, x: Ptr, k: Ptr, cmp: Cmp)
    requires TotalPreorder(cmp) && forall i :: 0 <= i < |v| ==> cmp(v[i], x) > 0
    ensures Class(u + v + [x], k, cmp) == Class(u + [x] + v, k, cmp)
  {
    hide Class, TotalPreorder;
    ClassJoin(u + v, [x], k, cmp);
    ClassJoin(u + [x], v, k, cmp);
    ClassJoin(u, [x], k, cmp);
    ClassJoin(u, v, k, cmp);
    var cu, cv, cx := Class(u, k, cmp), Class(v, k, cmp), Class([x], k, cmp);
    if cmp(x, k) == 0 {
      GreaterIsNotEqual(v, x, k, cmp);
      ClassEmpty(v, k, cmp);
    } else {
      ClassEmpty([x], k, cmp);
    }
    assert cv == [] || cx == [];
    assert cu + cv + cx == cu + cx + cv;
  }

  lemma GreaterIsNotEqual(v: seq<Ptr>, x: Ptr, k: Ptr, cmp: Cmp)
    requires TotalPreorder(cmp) && cmp(x, k) == 0 && forall i :: 0 <= i < |v| ==> cmp(v[i], x) > 0
    ensures forall i :: 0 <= i < |v| ==> cmp(v[i], k) != 0
  {
    hide TotalPreorder;
    forall i | 0 <= i < |v| ensures cmp(v[i], k) != 0 {
      Flip(cmp, x, k);
      if cmp(v[i], k) == 0 { Transitive(cmp, v[i], k, x); }
    }
  }

  lemma StableAppend(s: seq<Ptr>, t: seq<Ptr>, u: seq<Ptr>, x: Ptr, cmp: Cmp)
    requires Stable(s, t, cmp) && Stable(t + [x], u, cmp)
    ensures Stable(s + [x], u, cmp)
  {
    forall k ensures Class(s + [x], k, cmp) == Class(u, k, cmp) {
      ClassJoin(s, [x], k, cmp);
      ClassJoin(t, [x], k, cmp);
      assert Class(t + [x], k, cmp) == Class(u, k, cmp) && Class(s, k, cmp) == Class(t, k, cmp);
    }
  }

  /** Sorts a[lo..hi] in place, stably. */
  method InsertionSort(a: array<Ptr>, lo: nat, hi: nat, cmp: Cmp)
    requires TotalPreorder(cmp) && lo <= hi <= a.Length
    modifies a
    ensures Sorted(a[lo..hi], cmp) && Stable(old(a[lo..hi]), a[lo..hi], cmp)
    ensures a[..lo] == old(a[..lo]) && a[hi..] == old(a[hi..])
  {
    hide TotalPreorder, Class;
    if lo == hi { return; }
    var i := lo + 1;
    while i < hi
      invariant lo < i <= hi
      invariant Sorted(a[lo..i], cmp) && Stable(old(a[lo..i]), a[lo..i], cmp)
      invariant a[..lo] == old(a[..lo]) && a[i..] == old(a[i..])
    {
      ghost var s := a[lo..i];
      var x := a[i];
      InsertStep(a, lo, i, cmp);
      StableAppend(old(a[lo..i]), s, a[lo..i + 1], x, cmp);
      assert old(a[lo..i + 1]) == old(a[lo..i]) + [x];
      i := i + 1;
    }
  }

  // The inner loop of insertion sort.
  method InsertStep(a: array<Ptr>, lo: nat, i: nat, cmp: Cmp)
    requires TotalPreorder(cmp) && lo <= i < a.Length && Sorted(a[lo..i], cmp)
    modifies a
    ensures Sorted(a[lo..i + 1], cmp) && Stable(old(a[lo..i]) + [old(a[i])], a[lo..i + 1], cmp)
    ensures a[..lo] == old(a[..lo]) && a[i + 1..] == old(a[i + 1..])
  {
    hide TotalPreorder, Class, Stable, Sorted, Belongs, Moved;
    ghost var v := a[..];
    assert a[lo..i] == v[lo..i];
    var j := Shift(a, lo, i, cmp);
    MovedParts(v, lo, j, i);
    assert a[lo..i + 1] == a[..][lo..i + 1];
    InsertKeepsSorted(v[lo..i], v[i], j - lo, cmp);
    InsertIsStable(v[lo..i], v[i], j - lo, cmp);
  }

  // s with element i moved to place j.
  function Moved(s: seq<Ptr>, j: nat, i: nat): (t: seq<Ptr>)
    requires j <= i < |s|
    ensures |t| == |s|
    ensures forall k :: 0 <= k < |s| ==> t[k] == if k < j || k > i then s[k] else if k == j then s[i] else s[k - 1]
  {
    s[..j] + [s[i]] + s[j..i] + s[i + 1..]
  }

  lemma MovedParts(s: seq<Ptr>, lo: nat, j: nat, i: nat)
    requires lo <= j <= i < |s|
    ensures var v, t := s[lo..i], Moved(s, j, i);
            && t[..lo] == s[..lo] && t[i + 1..] == s[i + 1..]
            && t[lo..i + 1] == v[..j - lo] + [s[i]] + v[j - lo..]
  {
  }

  method Shift(a: array<Ptr>, lo: nat, i: nat, cmp: Cmp) returns (j: nat)
    requires lo <= i < a.Length
    modifies a
    ensures lo <= j <= i && Belongs(old(a[lo..i]), old(a[i]), j - lo, cmp) && a[..] == Moved(old(a[..]), j, i)
  {
    ghost var s := a[..];
    var x := a[i];
    j := i;
    assert a[..][j := x] == Moved(s, j, i);
    hide Moved, Belongs;
    while j > lo
      invariant lo <= j <= i && a[..][j := x] == Moved(s, j, i)
      invariant forall k :: j <= k < i ==> cmp(s[k], x) > 0
    {
      assert a[j - 1] == a[..][j := x][j - 1] == s[j - 1];
      if cmp(a[j - 1], x) > 0 {
        MovedStep(s, a[..], j, i);
        a[j] := a[j - 1];
      } else {
        break;
      }
      j := j - 1;
    }
    BelongsInSlice(s, lo, i, j, x, cmp);
    a[j] := x;
    assert old(a[lo..i]) == s[lo..i];
  }

  lemma MovedStep(s: seq<Ptr>, t: seq<Ptr>, j: nat, i: nat)
    requires 0 < j <= i < |s| == |t| && t[j := s[i]] == Moved(s, j, i)
    ensures t[j := t[j - 1]][j - 1 := s[i]] == Moved(s, j - 1, i)
  {
    var u := t[j := t[j - 1]][j - 1 := s[i]];
    var m := Moved(s, j, i);
    assert t[j - 1] == m[j - 1];
    forall k | 0 <= k < |s| ensures u[k] == Moved(s, j - 1, i)[k] {
      assert k != j ==> t[k] == m[k];
    }
  }

  lemma BelongsInSlice(s: seq<Ptr>, lo: nat, i: nat, j: nat, x: Ptr, cmp: Cmp)
    requires lo <= j <= i <= |s| && (forall k :: j <= k < i ==> cmp(s[k], x) > 0) && (j > lo ==> cmp(s[j - 1], x) <= 0)
    ensures Belongs(s[lo..i], x, j - lo, cmp)
  {
  }

  // ---------------------------------------------------------------- merging

  // The merge of two sequences; on a tie the left one goes first.
  function Merge(l: seq<Ptr>, r: seq<Ptr>, cmp: Cmp): (m: seq<Ptr>)
    ensures |m| == |l| + |r|
    decreases |l| + |r|
  {
    if l == [] then r
    else if r == [] then l
    else if cmp(l[0], r[0]) <= 0 then [l[0]] + Merge(l[1..], r, cmp)
    else [r[0]] + Merge(l, r[1..], cmp)
  }

  // x is not greater than any element of s.
  ghost predicate Bounds(x: Ptr, s: seq<Ptr>, cmp: Cmp) {
    forall i :: 0 <= i < |s| ==> cmp(x, s[i]) <= 0
  }

  lemma {:induction false} MergeBounds(x: Ptr, l: seq<Ptr>, r: seq<Ptr>, cmp: Cmp)
    requires Bounds(x, l, cmp) && Bounds(x, r, cmp)
    ensures Bounds(x, Merge(l, r, cmp), cmp)
    decreases |l| + |r|
  {
    if l == [] || r == [] {
    } else if cmp(l[0], r[0]) <= 0 {
      assert forall i :: 0 <= i < |l[1..]| ==> l[1..][i] == l[i + 1];
      MergeBounds(x, l[1..], r, cmp);
    } else {
      assert forall i :: 0 <= i < |r[1..]| ==> r[1..][i] == r[i + 1];
      MergeBounds(x, l, r[1..], cmp);
    }
  }

  lemma HeadBounds(s: seq<Ptr>, x: Ptr, cmp: Cmp)
    requires TotalPreorder(cmp) && Sorted(s, cmp) && s != [] && cmp(x, s[0]) <= 0
    ensures Bounds(x, s, cmp)
  {
    hide TotalPreorder;
    forall i | 0 < i < |s| ensures cmp(x, s[i]) <= 0 { Transitive(cmp, x, s[0], s[i]); }
  }

  lemma SortedCons(x: Ptr, s: seq<Ptr>, cmp: Cmp)
    requires Sorted(s, cmp) && Bounds(x, s, cmp)
    ensures Sorted([x] + s, cmp)
  {
  }

  /** Merging sorted sequences gives a sorted one. */
  lemma {:induction false} MergeSorted(l: seq<Ptr>, r: seq<Ptr>, cmp: Cmp)
    requires TotalPreorder(cmp) && Sorted(l, cmp) && Sorted(r, cmp)
    ensures Sorted(Merge(l, r, cmp), cmp)
    decreases |l| + |r|
  {
    hide TotalPreorder, Sorted, Bounds;
    if l == [] || r == [] {
    } else {
      Flip(cmp, l[0], r[0]);
      Flip(cmp, l[0], l[0]);
      Flip(cmp, r[0], r[0]);
      TailSorted(l, cmp);
      TailSorted(r, cmp);
      var (x, u, v) := if cmp(l[0], r[0]) <= 0 then (l[0], l[1..], r) else (r[0], l, r[1..]);
      HeadBounds(l, x, cmp);
      HeadBounds(r, x, cmp);
      BoundsTail(x, l, cmp);
      BoundsTail(x, r, cmp);
      MergeBounds(x, u, v, cmp);
      MergeSorted(u, v, cmp);
      SortedCons(x, Merge(u, v, cmp), cmp);
    }
  }

  lemma BoundsTail(x: Ptr, s: seq<Ptr>, cmp: Cmp)
    requires Bounds(x, s, cmp) && s != []
    ensures Bounds(x, s[1..], cmp)
  {
    assert forall i :: 0 <= i < |s[1..]| ==> s[1..][i] == s[i + 1];
  }

  /** Merging keeps equal elements in order, those of the left sequence first. */
  lemma {:induction false} MergeIsStable(l: seq<Ptr>, r: seq<Ptr>, cmp: Cmp, k: Ptr)
    requires TotalPreorder(cmp) && Sorted(l, cmp)
    ensures Class(Merge(l, r, cmp), k, cmp) == Class(l, k, cmp) + Class(r, k, cmp)
    decreases |l| + |r|
  {
    hide TotalPreorder, Sorted, Class;
    if l == [] || r == [] {
      ClassEmpty([], k, cmp);
    } else if cmp(l[0], r[0]) <= 0 {
      TailSorted(l, cmp);
      MergeIsStable(l[1..], r, cmp, k);
      ClassCons(l[0], l[1..], k, cmp);
      ClassCons(l[0], Merge(l[1..], r, cmp), k, cmp);
      assert l == [l[0]] + l[1..];
    } else {
      MergeIsStable(l, r[1..], cmp, k);
      ClassCons(r[0], r[1..], k, cmp);
      ClassCons(r[0], Merge(l, r[1..], cmp), k, cmp);
      assert r == [r[0]] + r[1..];
      if cmp(r[0], k) == 0 {
        AllGreater(l, r[0], cmp);
        GreaterIsNotEqual(l, r[0], k, cmp);
        ClassEmpty(l, k, cmp);
      }
    }
  }

  lemma ClassCons(x: Ptr, s: seq<Ptr>, k: Ptr, cmp: Cmp)
    ensures Class([x] + s, k, cmp) == (if cmp(x, k) == 0 then [x] else []) + Class(s, k, cmp)
  {
    assert ([x] + s)[1..] == s;
  }

  lemma AllGreater(s: seq<Ptr>, x: Ptr, cmp: Cmp)
    requires TotalPreorder(cmp) && Sorted(s, cmp) && s != [] && cmp(s[0], x) > 0
    ensures forall i :: 0 <= i < |s| ==> cmp(s[i], x) > 0
  {
    hide TotalPreorder;
    forall i | 0 < i < |s| ensures cmp(s[i], x) > 0 {
      Flip(cmp, s[0], x);
      Transitive(cmp, x, s[0], s[i]);
      Flip(cmp, x, s[i]);
    }
  }

  lemma MergedHalves(s: seq<Ptr>, t: seq<Ptr>, l: seq<Ptr>, r: seq<Ptr>, cmp: Cmp)
    requires TotalPreorder(cmp) && Sorted(l, cmp) && Sorted(r, cmp) && Stable(s, l, cmp) && Stable(t, r, cmp)
    ensures Sorted(Merge(l, r, cmp), cmp) && Stable(s + t, Merge(l, r, cmp), cmp)
  {
    MergeSorted(l, r, cmp);
    forall k ensures Class(s + t, k, cmp) == Class(Merge(l, r, cmp), k, cmp) {
      hide Class, Merge;
      ClassJoin(s, t, k, cmp);
      MergeIsStable(l, r, cmp, k);
      assert Class(s, k, cmp) == Class(l, k, cmp) && Class(t, k, cmp) == Class(r, k, cmp);
    }
  }

  lemma MergeLeft(l: seq<Ptr>, r: seq<Ptr>, cmp: Cmp)
    requires l != [] && (r == [] || cmp(l[0], r[0]) <= 0)
    ensures Merge(l, r, cmp) == [l[0]] + Merge(l[1..], r, cmp)
  {
    if r == [] { assert Merge(l[1..], r, cmp) == l[1..] && l == [l[0]] + l[1..]; }
  }

  lemma MergeRight(l: seq<Ptr>, r: seq<Ptr>, cmp: Cmp)
    requires r != [] && (l == [] || cmp(l[0], r[0]) > 0)
    ensures Merge(l, r, cmp) == [r[0]] + Merge(l, r[1..], cmp)
  {
    if l == [] { assert Merge(l, r[1..], cmp) == r[1..] && r == [r[0]] + r[1..]; }
  }

  // The part of the merge loops that is left over.
  ghost predicate Merging(a: seq<Ptr>, out: seq<Ptr>, l: nat, center: nat, r: nat, right: nat, m: seq<Ptr>, cmp: Cmp) {
    && l <= center + 1 <= r <= right + 1 <= |a|
    && out + Merge(a[l..center + 1], a[r..right + 1], cmp) == m
  }

  lemma TakeLeft(a: seq<Ptr>, out: seq<Ptr>, l: nat, center: nat, r: nat, right: nat, m: seq<Ptr>, cmp: Cmp)
    requires Merging(a, out, l, center, r, right, m, cmp) && l <= center && (r > right || cmp(a[l], a[r]) <= 0)
    ensures Merging(a, out + [a[l]], l + 1, center, r, right, m, cmp)
  {
    MergeLeft(a[l..center + 1], a[r..right + 1], cmp);
    hide Merge;
    assert a[l..center + 1][1..] == a[l + 1..center + 1];
    var rest := Merge(a[l + 1..center + 1], a[r..right + 1], cmp);
    assert out + ([a[l]] + rest) == (out + [a[l]]) + rest;
  }

  lemma TakeRight(a: seq<Ptr>, out: seq<Ptr>, l: nat, center: nat, r: nat, right: nat, m: seq<Ptr>, cmp: Cmp)
    requires Merging(a, out, l, center, r, right, m, cmp) && r <= right && (l > center || cmp(a[l], a[r]) > 0)
    ensures Merging(a, out + [a[r]], l, center, r + 1, right, m, cmp)
  {
    MergeRight(a[l..center + 1], a[r..right + 1], cmp);
    hide Merge;
    assert a[r..right + 1][1..] == a[r + 1..right + 1];
    var rest := Merge(a[l..center + 1], a[r + 1..right + 1], cmp);
    assert out + ([a[r]] + rest) == (out + [a[r]]) + rest;
  }

  method Emit(arr: array<Ptr>, left: nat, idx: nat, x: Ptr)
    requires left <= idx < arr.Length
    modifies arr
    ensures arr[left..idx + 1] == old(arr[left..idx]) + [x]
  {
    arr[idx] := x;
  }

  // The merge loops, from ptr into arr.
  method MergeInto(ptr: array<Ptr>, arr: array<Ptr>, left: nat, center: nat, right: nat, cmp: Cmp)
    requires ptr != arr && ptr.Length == arr.Length && left <= center < right < ptr.Length
    modifies arr
    ensures arr[left..right + 1] == Merge(ptr[left..center + 1], ptr[center + 1..right + 1], cmp)
  {
    hide Merging, Merge;
    ghost var a := ptr[..];
    ghost var m := Merge(a[left..center + 1], a[center + 1..right + 1], cmp);
    var l, r, idx := left, center + 1, left;
    MergingStarts(a, left, center, right, m, cmp);
    assert arr[left..idx] == [];
    while l <= center && r <= right
      invariant left <= l <= center + 1 <= r <= right + 1 && idx == l + r - (center + 1)
      invariant Merging(a, arr[left..idx], l, center, r, right, m, cmp)
    {
      if cmp(ptr[l], ptr[r]) <= 0 {
        TakeLeft(a, arr[left..idx], l, center, r, right, m, cmp);
        Emit(arr, left, idx, ptr[l]);
        l := l + 1;
      } else {
        TakeRight(a, arr[left..idx], l, center, r, right, m, cmp);
        Emit(arr, left, idx, ptr[r]);
        r := r + 1;
      }
      idx := idx + 1;
    }
    MergeRest(ptr, arr, left, l, center, r, right, m, cmp);
    assert ptr[left..center + 1] == a[left..center + 1] && ptr[center + 1..right + 1] == a[center + 1..right + 1];
  }

  // The two loops that copy what is left of one side.
  method MergeRest(ptr: array<Ptr>, arr: array<Ptr>, left: nat, l0: nat, center: nat, r0: nat, right: nat,
                   ghost m: seq<Ptr>, cmp: Cmp)
    requires ptr != arr && ptr.Length == arr.Length && right < ptr.Length
    requires left <= l0 <= center + 1 <= r0 <= right + 1 && (l0 > center || r0 > right)
    requires Merging(ptr[..], arr[left..l0 + r0 - (center + 1)], l0, center, r0, right, m, cmp)
    modifies arr
    ensures arr[left..right + 1] == m
  {
    hide Merging, Merge;
    ghost var a := ptr[..];
    var l, r, idx := l0, r0, l0 + r0 - (center + 1);
    while l <= center
      invariant left <= l <= center + 1 && (l > center || r > right) && idx == l + r - (center + 1)
      invariant Merging(a, arr[left..idx], l, center, r, right, m, cmp)
    {
      TakeLeft(a, arr[left..idx], l, center, r, right, m, cmp);
      Emit(arr, left, idx, ptr[l]);
      l, idx := l + 1, idx + 1;
    }
    while r <= right
      invariant l == center + 1 <= r <= right + 1 && idx == r
      invariant Merging(a, arr[left..idx], l, center, r, right, m, cmp)
    {
      TakeRight(a, arr[left..idx], l, center, r, right, m, cmp);
      Emit(arr, left, idx, ptr[r]);
      r, idx := r + 1, idx + 1;
    }
    MergingEnds(a, arr[left..idx], center, right, m, cmp);
  }

  lemma MergingStarts(a: seq<Ptr>, left: nat, center: nat, right: nat, m: seq<Ptr>, cmp: Cmp)
    requires left <= center < right < |a| && m == Merge(a[left..center + 1], a[center + 1..right + 1], cmp)
    ensures Merging(a, [], left, center, center + 1, right, m, cmp)
  {
  }

  lemma MergingEnds(a: seq<Ptr>, out: seq<Ptr>, center: nat, right: nat, m: seq<Ptr>, cmp: Cmp)
    requires Merging(a, out, center + 1, center, right + 1, right, m, cmp)
    ensures out == m
  {
  }

  lemma OneIsSorted(s: seq<Ptr>, cmp: Cmp)
    requires |s| == 1
    ensures Sorted(s, cmp) && Stable(s, s, cmp)
  {
  }

  // The copying loop behind the merge.
  method CopyBack(ptr: array<Ptr>, arr: array<Ptr>, left: nat, right: nat)
    requires ptr != arr && ptr.Length == arr.Length && left <= right < ptr.Length
    modifies ptr
    ensures ptr[left..right + 1] == arr[left..right + 1]
    ensures ptr[..left] == old(ptr[..left]) && ptr[right + 1..] == old(ptr[right + 1..])
  {
    var idx := left;
    while idx <= right
      invariant left <= idx <= right + 1
      invariant forall k :: left <= k < idx ==> ptr[k] == arr[k]
      invariant forall k :: 0 <= k < left || right < k < ptr.Length ==> ptr[k] == old(ptr[k])
    {
      ptr[idx] := arr[idx];
      idx := idx + 1;
    }
  }

  // muggle_merge_sort_recursive.
  method MergeSortRange(ptr: array<Ptr>, arr: array<Ptr>, left: nat, right: nat, cmp: Cmp)
    requires TotalPreorder(cmp) && ptr != arr && ptr.Length == arr.Length && left <= right < ptr.Length
    modifies ptr, arr
    ensures Sorted(ptr[left..right + 1], cmp) && Stable(old(ptr[left..right + 1]), ptr[left..right + 1], cmp)
    ensures ptr[..left] == old(ptr[..left]) && ptr[right + 1..] == old(ptr[right + 1..])
    decreases right - left, 1
  {
    hide TotalPreorder, Sorted, Stable;
    if left < right {
      var center := (left + right) / 2;
      SortHalves(ptr, arr, left, center, right, cmp);
      ghost var l, r := ptr[left..center + 1], ptr[center + 1..right + 1];
      MergedHalves(old(ptr[left..center + 1]), old(ptr[center + 1..right + 1]), l, r, cmp);
      MergeInto(ptr, arr, left, center, right, cmp);
      CopyBack(ptr, arr, left, right);
      assert old(ptr[left..right + 1]) == old(ptr[left..center + 1]) + old(ptr[center + 1..right + 1]);
    } else {
      OneIsSorted(ptr[left..right + 1], cmp);
    }
  }

  // The two recursive calls.
  method SortHalves(ptr: array<Ptr>, arr: array<Ptr>, left: nat, center: nat, right: nat, cmp: Cmp)
    requires TotalPreorder(cmp) && ptr != arr && ptr.Length == arr.Length && left <= center < right < ptr.Length
    modifies ptr, arr
    ensures Sorted(ptr[left..center + 1], cmp) && Stable(old(ptr[left..center + 1]), ptr[left..center + 1], cmp)
    ensures Sorted(ptr[center + 1..right + 1], cmp)
    ensures Stable(old(ptr[center + 1..right + 1]), ptr[center + 1..right + 1], cmp)
    ensures ptr[..left] == old(ptr[..left]) && ptr[right + 1..] == old(ptr[right + 1..])
    decreases right - left, 0
  {
    hide TotalPreorder, Sorted, Stable;
    MergeSortRange(ptr, arr, left, center, cmp);
    ghost var u := ptr[..];
    assert ptr[center + 1..right + 1] == ptr[center + 1..][..right - center] == old(ptr[center + 1..right + 1]);
    assert ptr[right + 1..] == ptr[center + 1..][right - center..] == old(ptr[right + 1..]);
    MergeSortRange(ptr, arr, center + 1, right, cmp);
    assert ptr[left..center + 1] == ptr[..center + 1][left..] == u[..center + 1][left..] == u[left..center + 1];
    assert ptr[..left] == ptr[..center + 1][..left] == u[..center + 1][..left] == u[..left];
  }

  /** Merge sort yields the sorted stable rearrangement. */
  method MergeSort(ptr: array<Ptr>, cmp: Cmp)
    requires TotalPreorder(cmp) && ptr.Length > 0
    modifies ptr
    ensures Sorted(ptr[..], cmp) && Stable(old(ptr[..]), ptr[..], cmp)
  {
    var arr := new Ptr[ptr.Length];
    MergeSortRange(ptr, arr, 0, ptr.Length - 1, cmp);
    assert ptr[0..ptr.Length] == ptr[..] && old(ptr[0..ptr.Length]) == old(ptr[..]);
  }

  // count - 1, in a size_t.
  function LastIndex(count: nat): nat { if count == 0 then TWO_TO_64 - 1 else count - 1 }

  // The range that muggle_merge_sort_recursive merges first.
  function FirstMerge(left: nat, right: nat): (nat, nat)
    requires left < right
    decreases right - left
  {
    var center := (left + right) / 2;
    if left < center then FirstMerge(left, center) else (left, right)  // center + 1 == right then
  }

  lemma {:induction false} FirstMergeIs(left: nat, right: nat)
    requires left < right
    ensures FirstMerge(left, right) == (left, left + 1)
    decreases right - left
  {
    var center := (left + right) / 2;
    if left == center {
    } else {
      FirstMergeIs(left, center);
    }
  }

  /** With no element the last index wraps, and the recursion goes over the whole of the address
      space: what it merges first, if anything, lies inside the array if and only if the array
      has an element. */
  lemma MergeStaysInsideIff(count: nat)
    requires count < TWO_TO_64
    ensures (0 < LastIndex(count) ==> FirstMerge(0, LastIndex(count)).1 < count) <==> count > 0
  {
    if 0 < LastIndex(count) { FirstMergeIs(0, LastIndex(count)); }
  }

  // ---------------------------------------------------------------- quick sort

  // t rearranges s[lo..hi] and keeps the rest.
  ghost predicate Rearranged(s: seq<Ptr>, t: seq<Ptr>, lo: nat, hi: nat) {
    && |s| == |t| && lo <= hi <= |s| && s[..lo] == t[..lo] && s[hi..] == t[hi..]
    && multiset(s[lo..hi]) == multiset(t[lo..hi])
  }

  lemma RearrangedTwice(s: seq<Ptr>, t: seq<Ptr>, u: seq<Ptr>, lo: nat, hi: nat)
    requires Rearranged(s, t, lo, hi) && Rearranged(t, u, lo, hi)
    ensures Rearranged(s, u, lo, hi)
  {
  }

  lemma RearrangedWithin(s: seq<Ptr>, t: seq<Ptr>, lo: nat, hi: nat, from: nat, to: nat)
    requires Rearranged(s, t, from, to) && lo <= from && to <= hi <= |s|
    ensures Rearranged(s, t, lo, hi)
  {
    Slices(s, lo, from, to, hi);
    Slices(t, lo, from, to, hi);
  }

  lemma Slices(s: seq<Ptr>, lo: nat, from: nat, to: nat, hi: nat)
    requires lo <= from <= to <= hi <= |s|
    ensures s[lo..hi] == s[..from][lo..] + s[from..to] + s[to..][..hi - to]
    ensures s[..lo] == s[..from][..lo] && s[hi..] == s[to..][hi - to..]
  {
  }

  lemma SwapBag(v: seq<Ptr>, i: nat, j: nat)
    requires i < |v| && j < |v|
    ensures multiset(v[i := v[j]][j := v[i]]) == multiset(v)
  {
  }

  lemma SwapRearranges(s: seq<Ptr>, i: nat, j: nat, lo: nat, hi: nat)
    requires lo <= i < hi <= |s| && lo <= j < hi
    ensures Rearranged(s, s[i := s[j]][j := s[i]], lo, hi)
  {
    var v, u := s[lo..hi], s[i := s[j]][j := s[i]];
    SwapBag(v, i - lo, j - lo);
    assert u[lo..hi] == v[i - lo := v[j - lo]][j - lo := v[i - lo]];
    assert u[..lo] == s[..lo] && u[hi..] == s[hi..];
  }

  // No element of s[lo..hi] is greater, or none is smaller, than p.
  ghost predicate Low(s: seq<Ptr>, lo: nat, hi: nat, p: Ptr, cmp: Cmp) {
    lo <= hi <= |s| && forall k :: lo <= k < hi ==> cmp(s[k], p) <= 0
  }

  ghost predicate High(s: seq<Ptr>, lo: nat, hi: nat, p: Ptr, cmp: Cmp) {
    lo <= hi <= |s| && forall k :: lo <= k < hi ==> cmp(s[k], p) >= 0
  }

  lemma RearrangedBounds(s: seq<Ptr>, t: seq<Ptr>, lo: nat, hi: nat, p: Ptr, cmp: Cmp)
    requires Rearranged(s, t, lo, hi)
    ensures Low(s, lo, hi, p, cmp) ==> Low(t, lo, hi, p, cmp)
    ensures High(s, lo, hi, p, cmp) ==> High(t, lo, hi, p, cmp)
  {
    forall k | lo <= k < hi ensures exists j :: lo <= j < hi && t[k] == s[j] {
      assert t[lo..hi][k - lo] in multiset(s[lo..hi]);
      var j :| 0 <= j < |s[lo..hi]| && s[lo..hi][j] == t[k];
      assert s[lo + j] == t[k];
    }
  }

  lemma RearrangedKeeps(s: seq<Ptr>, t: seq<Ptr>, lo: nat, hi: nat, k: nat)
    requires Rearranged(s, t, lo, hi) && (k < lo || hi <= k < |s|)
    ensures s[k] == t[k]
  {
    if k < lo { assert s[..lo][k] == t[..lo][k]; } else { assert s[hi..][k - hi] == t[hi..][k - hi]; }
  }

  // The pivot stands at i, nothing greater before it and nothing smaller behind it.
  ghost predicate Parted(s: seq<Ptr>, left: nat, i: nat, right: nat, cmp: Cmp) {
    left <= i <= right < |s| && Low(s, left, i, s[i], cmp) && High(s, i + 1, right + 1, s[i], cmp)
  }

  lemma PartsSorted(s: seq<Ptr>, left: nat, i: nat, right: nat, cmp: Cmp)
    requires TotalPreorder(cmp) && Parted(s, left, i, right, cmp)
    requires Sorted(s[left..i], cmp) && Sorted(s[i + 1..right + 1], cmp)
    ensures Sorted(s[left..right + 1], cmp)
  {
    hide TotalPreorder;
    var t, p := s[left..right + 1], s[i];
    forall a, b | 0 <= a < b < |t| ensures cmp(t[a], t[b]) <= 0 {
      if left + b < i {
        assert t[a] == s[left..i][a] && t[b] == s[left..i][b];
      } else if left + a > i {
        assert t[a] == s[i + 1..right + 1][left + a - i - 1] && t[b] == s[i + 1..right + 1][left + b - i - 1];
      } else {
        if left + b > i { Flip(cmp, t[b], p); }
        if left + a < i && left + b > i { Transitive(cmp, t[a], p, t[b]); }
      }
    }
  }

  method SwapAt(a: array<Ptr>, i: nat, j: nat, ghost lo: nat, ghost hi: nat)
    requires lo <= i < hi <= a.Length && lo <= j < hi
    modifies a
    ensures a[..] == old(a[..])[i := old(a[j])][j := old(a[i])] && Rearranged(old(a[..]), a[..], lo, hi)
  {
    SwapRearranges(a[..], i, j, lo, hi);
    a[i], a[j] := a[j], a[i];
  }

  // The first scan: stops at the latest at the sentinel j.
  method ScanUp(a: array<Ptr>, i0: nat, ghost j: nat, p: Ptr, cmp: Cmp) returns (i: nat)
    requires i0 < j < a.Length && cmp(a[j], p) >= 0
    ensures i0 < i <= j && cmp(a[i], p) >= 0 && forall k :: i0 < k < i ==> cmp(a[k], p) < 0
  {
    i := i0 + 1;
    while cmp(a[i], p) < 0
      invariant i0 < i <= j && forall k :: i0 < k < i ==> cmp(a[k], p) < 0
      decreases j - i
    {
      i := i + 1;
    }
  }

  // The second scan: stops at the latest at the sentinel i.
  method ScanDown(a: array<Ptr>, ghost i: nat, j0: nat, p: Ptr, cmp: Cmp) returns (j: nat)
    requires i < j0 < a.Length && cmp(a[i], p) <= 0
    ensures i <= j < j0 && cmp(a[j], p) <= 0 && forall k :: j < k < j0 ==> cmp(a[k], p) > 0
  {
    j := j0 - 1;
    while cmp(a[j], p) > 0
      invariant i <= j < j0 && forall k :: j < k < j0 ==> cmp(a[k], p) > 0
      decreases j
    {
      j := j - 1;
    }
  }

  // s with elements i and j exchanged if they are out of order.
  function InOrder(s: seq<Ptr>, i: nat, j: nat, cmp: Cmp): (t: seq<Ptr>)
    requires i < |s| && j < |s|
    ensures |t| == |s|
  {
    if cmp(s[i], s[j]) > 0 then s[i := s[j]][j := s[i]] else s
  }

  method Order(a: array<Ptr>, i: nat, j: nat, ghost lo: nat, ghost hi: nat, cmp: Cmp)
    requires lo <= i < j < hi <= a.Length
    modifies a
    ensures a[..] == InOrder(old(a[..]), i, j, cmp) && Rearranged(old(a[..]), a[..], lo, hi)
  {
    if cmp(a[i], a[j]) > 0 { SwapAt(a, i, j, lo, hi); }
  }

  // The three exchanges put three elements in order.
  lemma ThreeInOrder(s: seq<Ptr>, l: nat, c: nat, r: nat, cmp: Cmp)
    requires TotalPreorder(cmp) && l < c < r < |s|
    ensures var t := InOrder(InOrder(InOrder(s, l, c, cmp), l, r, cmp), c, r, cmp);
            cmp(t[l], t[c]) <= 0 && cmp(t[c], t[r]) <= 0
  {
    hide TotalPreorder;
    var x, y, z := s[l], s[c], s[r];
    Flip(cmp, x, y);
    Flip(cmp, x, z);
    Flip(cmp, y, z);
    if cmp(x, y) > 0 && cmp(y, z) > 0 {
      Transitive(cmp, z, y, x);
    } else if cmp(x, y) <= 0 && cmp(x, z) > 0 {
      Transitive(cmp, z, x, y);
    }
  }

  method OrderThree(a: array<Ptr>, left: nat, center: nat, right: nat, cmp: Cmp)
    requires TotalPreorder(cmp) && left < center < right < a.Length
    modifies a
    ensures Rearranged(old(a[..]), a[..], left, right + 1)
    ensures cmp(a[left], a[center]) <= 0 && cmp(a[center], a[right]) <= 0
  {
    hide TotalPreorder, Rearranged, InOrder;
    ghost var s0 := a[..];
    Order(a, left, center, left, right + 1, cmp);
    ghost var s1 := a[..];
    Order(a, left, right, left, right + 1, cmp);
    ghost var s2 := a[..];
    Order(a, center, right, left, right + 1, cmp);
    RearrangedTwice(s0, s1, s2, left, right + 1);
    RearrangedTwice(s0, s2, a[..], left, right + 1);
    ThreeInOrder(s0, left, center, right, cmp);
  }

  // The middle element, known to be between the other two, goes next to last.
  method PlaceMedian(a: array<Ptr>, left: nat, center: nat, right: nat, cmp: Cmp) returns (pivot: Ptr)
    requires TotalPreorder(cmp) && left < center < right - 1 && right < a.Length
    requires cmp(a[left], a[center]) <= 0 && cmp(a[center], a[right]) <= 0
    modifies a
    ensures Rearranged(old(a[..]), a[..], left, right + 1)
    ensures pivot == a[right - 1] && cmp(a[left], pivot) <= 0 && cmp(a[right], pivot) >= 0
  {
    hide TotalPreorder, Rearranged;
    Flip(cmp, a[center], a[right]);
    SwapAt(a, center, right - 1, left, right + 1);
    pivot := a[right - 1];
  }

  /** Puts the median of the first, middle and last element next to last, with the smallest of
      them first and the greatest last. */
  method Median3(a: array<Ptr>, left: nat, right: nat, cmp: Cmp) returns (pivot: Ptr)
    requires TotalPreorder(cmp) && left + 3 <= right < a.Length
    modifies a
    ensures Rearranged(old(a[..]), a[..], left, right + 1)
    ensures pivot == a[right - 1] && cmp(a[left], pivot) <= 0 && cmp(a[right], pivot) >= 0
  {
    hide TotalPreorder, Rearranged;
    var center := (left + right) / 2;
    ghost var s0 := a[..];
    OrderThree(a, left, center, right, cmp);
    ghost var s := a[..];
    pivot := PlaceMedian(a, left, center, right, cmp);
    RearrangedTwice(s0, s, a[..], left, right + 1);
  }

  lemma SwapNarrows(s: seq<Ptr>, left: nat, i: nat, j: nat, hi: nat, p: Ptr, cmp: Cmp)
    requires Low(s, left, i, p, cmp) && High(s, j + 1, hi, p, cmp) && i < j
    requires cmp(s[i], p) >= 0 && cmp(s[j], p) <= 0
    ensures var t := s[i := s[j]][j := s[i]]; Low(t, left, i + 1, p, cmp) && High(t, j, hi, p, cmp)
  {
  }

  lemma PivotParts(s: seq<Ptr>, left: nat, i: nat, j: nat, right: nat, p: Ptr, cmp: Cmp)
    requires Low(s, left, i, p, cmp) && High(s, j + 1, right + 1, p, cmp) && j <= i < right && s[right - 1] == p
    requires cmp(s[i], p) >= 0
    ensures Parted(s[i := p][right - 1 := s[i]], left, i, right, cmp)
  {
  }

  lemma NotRearranged(s: seq<Ptr>, lo: nat, hi: nat)
    requires lo <= hi <= |s|
    ensures Rearranged(s, s, lo, hi)
  {
  }

  lemma Sentinels(s: seq<Ptr>, left: nat, i: nat, j: nat, hi: nat, p: Ptr, cmp: Cmp)
    requires left <= i < |s| && j < hi <= |s|
    ensures Low(s, left, i + 1, p, cmp) ==> cmp(s[i], p) <= 0
    ensures High(s, j, hi, p, cmp) ==> cmp(s[j], p) >= 0
    ensures cmp(s[left], p) <= 0 ==> Low(s, left, left + 1, p, cmp)
    ensures hi == j + 2 && cmp(s[j], p) >= 0 && cmp(s[j + 1], p) >= 0 ==> High(s, j, hi, p, cmp)
  {
  }

  lemma ScannedUp(s: seq<Ptr>, left: nat, i0: nat, i: nat, p: Ptr, cmp: Cmp)
    requires Low(s, left, i0 + 1, p, cmp) && i0 < i < |s| && forall k :: i0 < k < i ==> cmp(s[k], p) < 0
    ensures Low(s, left, i, p, cmp)
  {
  }

  lemma ScannedDown(s: seq<Ptr>, j: nat, j0: nat, hi: nat, p: Ptr, cmp: Cmp)
    requires High(s, j0, hi, p, cmp) && j < j0 && forall k :: j < k < j0 ==> cmp(s[k], p) > 0
    ensures High(s, j + 1, hi, p, cmp)
  {
  }

  method SwapSides(a: array<Ptr>, left: nat, i: nat, j: nat, right: nat, pivot: Ptr, cmp: Cmp)
    requires left <= i < j < right - 1 && right < a.Length && cmp(a[i], pivot) >= 0 && cmp(a[j], pivot) <= 0
    requires Low(a[..], left, i, pivot, cmp) && High(a[..], j + 1, right + 1, pivot, cmp)
    modifies a
    ensures Rearranged(old(a[..]), a[..], left, right + 1) && a[right - 1] == old(a[right - 1])
    ensures Low(a[..], left, i + 1, pivot, cmp) && High(a[..], j, right + 1, pivot, cmp)
  {
    hide Low, High, Rearranged;
    SwapNarrows(a[..], left, i, j, right + 1, pivot, cmp);
    SwapAt(a, i, j, left, right + 1);
  }

  // The scanning loop; the pivot stands next to last and every element at or before left, or
  // at or behind right - 1, is already on its side.
  method ScanAndSwap(a: array<Ptr>, left: nat, right: nat, pivot: Ptr, cmp: Cmp) returns (i: nat, j: nat)
    requires left + 1 < right < a.Length && a[right - 1] == pivot
    requires Low(a[..], left, left + 1, pivot, cmp) && High(a[..], right - 1, right + 1, pivot, cmp)
    modifies a
    ensures Rearranged(old(a[..]), a[..], left, right + 1) && a[right - 1] == pivot
    ensures left < i < right && j <= i && cmp(a[i], pivot) >= 0
    ensures Low(a[..], left, i, pivot, cmp) && High(a[..], j + 1, right + 1, pivot, cmp)
  {
    hide Low, High, Rearranged;
    ghost var s := a[..];
    NotRearranged(s, left, right + 1);
    i, j := left, right - 1;
    while true
      invariant left <= i < j < right && a[right - 1] == pivot
      invariant Low(a[..], left, i + 1, pivot, cmp) && High(a[..], j, right + 1, pivot, cmp)
      invariant Rearranged(s, a[..], left, right + 1)
      decreases j - i
    {
      ghost var v := a[..];
      Sentinels(v, left, i, j, right + 1, pivot, cmp);
      var i1 := ScanUp(a, i, j, pivot, cmp);
      var j1 := ScanDown(a, i, j, pivot, cmp);
      ScannedUp(v, left, i, i1, pivot, cmp);
      ScannedDown(v, j1, j, right + 1, pivot, cmp);
      i, j := i1, j1;
      if i < j { SwapSides(a, left, i, j, right, pivot, cmp); } else { break; }
      RearrangedTwice(s, v, a[..], left, right + 1);
    }
  }

  /** Parts a[left..right] around a median; both unguarded scans stay inside. */
  method Partition(a: array<Ptr>, left: nat, right: nat, cmp: Cmp) returns (i: nat)
    requires TotalPreorder(cmp) && left + 3 <= right < a.Length
    modifies a
    ensures Rearranged(old(a[..]), a[..], left, right + 1)
    ensures left < i < right && Parted(a[..], left, i, right, cmp)
  {
    hide TotalPreorder, Rearranged, Parted, Low, High;
    ghost var s := a[..];
    var pivot := Median3(a, left, right, cmp);
    Flip(cmp, pivot, pivot);
    ghost var u := a[..];
    Sentinels(u, left, left, right - 1, right + 1, pivot, cmp);
    var j;
    i, j := ScanAndSwap(a, left, right, pivot, cmp);
    ghost var v := a[..];
    RearrangedTwice(s, u, v, left, right + 1);
    PivotParts(v, left, i, j, right, pivot, cmp);
    SwapAt(a, i, right - 1, left, right + 1);
    RearrangedTwice(s, v, a[..], left, right + 1);
  }

  const QUICK_SORT_CUTOFF: nat := 10

  // muggle_quick_sort_recursive.
  method QuickSortRange(a: array<Ptr>, left: nat, right: nat, cmp: Cmp)
    requires TotalPreorder(cmp) && left <= right < a.Length
    modifies a
    ensures Sorted(a[left..right + 1], cmp) && Rearranged(old(a[..]), a[..], left, right + 1)
    decreases right - left
  {
    hide TotalPreorder, Sorted, Rearranged, Parted;
    ghost var s0 := a[..];
    if left + QUICK_SORT_CUTOFF <= right {
      var i := Partition(a, left, right, cmp);
      ghost var s1 := a[..];
      QuickSortRange(a, left, i - 1, cmp);
      ghost var s2 := a[..];
      QuickSortRange(a, i + 1, right, cmp);
      ghost var s3 := a[..];
      BothParts(s0, s1, s2, s3, left, i, right, cmp);
      assert a[left..right + 1] == s3[left..right + 1];
    } else {
      SortShort(a, left, right, cmp);
    }
  }

  lemma BothParts(s0: seq<Ptr>, s1: seq<Ptr>, s2: seq<Ptr>, s3: seq<Ptr>, left: nat, i: nat, right: nat, cmp: Cmp)
    requires TotalPreorder(cmp) && left < i < right < |s0| == |s1|
    requires Rearranged(s0, s1, left, right + 1) && Parted(s1, left, i, right, cmp)
    requires Rearranged(s1, s2, left, i) && Sorted(s2[left..i], cmp)
    requires Rearranged(s2, s3, i + 1, right + 1) && Sorted(s3[i + 1..right + 1], cmp)
    ensures Sorted(s3[left..right + 1], cmp) && Rearranged(s0, s3, left, right + 1)
  {
    hide TotalPreorder, Sorted, Rearranged, Parted;
    StaysParted(s1, s2, s3, left, i, right, cmp);
    RearrangedWithin(s1, s2, left, right + 1, left, i);
    RearrangedWithin(s2, s3, left, right + 1, i + 1, right + 1);
    RearrangedTwice(s1, s2, s3, left, right + 1);
    RearrangedTwice(s0, s1, s3, left, right + 1);
    KeptSlice(s2, s3, i + 1, right + 1, left, i);
    PartsSorted(s3, left, i, right, cmp);
  }

  lemma StaysParted(s1: seq<Ptr>, s2: seq<Ptr>, s3: seq<Ptr>, left: nat, i: nat, right: nat, cmp: Cmp)
    requires left < i < right < |s1| && Parted(s1, left, i, right, cmp)
    requires Rearranged(s1, s2, left, i) && Rearranged(s2, s3, i + 1, right + 1)
    ensures |s1| == |s2| == |s3| && Parted(s3, left, i, right, cmp)
  {
    assert |s1| == |s2| == |s3|;
    hide Rearranged, Low, High;
    RearrangedKeeps(s1, s2, left, i, i);
    RearrangedKeeps(s2, s3, i + 1, right + 1, i);
    KeptSlice(s1, s2, left, i, i + 1, right + 1);
    KeptSlice(s2, s3, i + 1, right + 1, left, i);
    RearrangedBounds(s1, s2, left, i, s1[i], cmp);
    SliceBounds(s2, s3, left, i, s1[i], cmp);
    SliceBounds(s1, s2, i + 1, right + 1, s1[i], cmp);
    RearrangedBounds(s2, s3, i + 1, right + 1, s1[i], cmp);
  }

  lemma KeptSlice(s: seq<Ptr>, t: seq<Ptr>, lo: nat, hi: nat, from: nat, to: nat)
    requires Rearranged(s, t, lo, hi) && from <= to <= |s| && (to <= lo || hi <= from)
    ensures s[from..to] == t[from..to]
  {
    forall k | from <= k < to ensures s[k] == t[k] { RearrangedKeeps(s, t, lo, hi, k); }
  }

  lemma SliceBounds(s: seq<Ptr>, t: seq<Ptr>, lo: nat, hi: nat, p: Ptr, cmp: Cmp)
    requires |s| == |t| && lo <= hi <= |s| && s[lo..hi] == t[lo..hi]
    ensures Low(s, lo, hi, p, cmp) ==> Low(t, lo, hi, p, cmp)
    ensures High(s, lo, hi, p, cmp) ==> High(t, lo, hi, p, cmp)
  {
    forall k | lo <= k < hi ensures s[k] == t[k] { assert s[lo..hi][k - lo] == t[lo..hi][k - lo]; }
  }

  // The cutoff: a short range is sorted by insertion.
  method SortShort(a: array<Ptr>, left: nat, right: nat, cmp: Cmp)
    requires TotalPreorder(cmp) && left <= right < a.Length
    modifies a
    ensures Sorted(a[left..right + 1], cmp) && Rearranged(old(a[..]), a[..], left, right + 1)
  {
    hide TotalPreorder, Sorted, Stable;
    ghost var s := a[..];
    InsertionSort(a, left, right + 1, cmp);
    StableIsPermutation(s[left..right + 1], a[left..right + 1], cmp);
  }

  /** Quick sort yields a sorted permutation. */
  method QuickSort(a: array<Ptr>, cmp: Cmp)
    requires TotalPreorder(cmp) && a.Length > 0
    modifies a
    ensures Sorted(a[..], cmp) && multiset(a[..]) == multiset(old(a[..]))
  {
    ghost var s := a[..];
    QuickSortRange(a, 0, a.Length - 1, cmp);
    assert s[0..a.Length] == s && a[0..a.Length] == a[..];
  }

  // The elements that muggle_quick_sort_median3 looks at first.
  function FirstThree(left: nat, right: nat): (nat, nat, nat) { (left, (left + right) / 2, right) }

  /** The same for quick sort: with no element the wrapped range is not short, and the elements
      that it looks at lie inside the array if and only if there is one. */
  lemma QuickStaysInsideIff(count: nat)
    requires count < TWO_TO_64
    ensures (QUICK_SORT_CUTOFF <= LastIndex(count) ==>
               var (a, b, c) := FirstThree(0, LastIndex(count)); a < count && b < count && c < count)
            <==> count > 0
  {
  }

  // ---------------------------------------------------------------- heap sort

  // The nodes that heap sort makes of the pointers.
  function Keyed(s: seq<Ptr>): (n: seq<Heap.Node>)
    ensures |n| == |s|
  {
    if s == [] then [] else Keyed(s[..|s| - 1]) + [Heap.Node(s[|s| - 1], Heap.NULL)]
  }

  lemma {:induction false} KeyedCount(s: seq<Ptr>, x: Ptr)
    ensures multiset(Keyed(s))[Heap.Node(x, Heap.NULL)] == multiset(s)[x]
  {
    if s == [] {
    } else {
      KeyedCount(s[..|s| - 1], x);
      assert s == s[..|s| - 1] + [s[|s| - 1]];
    }
  }

  lemma {:induction false} KeyedMember(s: seq<Ptr>, n: Heap.Node)
    requires n in multiset(Keyed(s))
    ensures n.value == Heap.NULL
  {
    if n !in multiset(Keyed(s[..|s| - 1])) {
    } else {
      KeyedMember(s[..|s| - 1], n);
    }
  }

  lemma KeyedSame(s: seq<Ptr>, t: seq<Ptr>)
    requires multiset(Keyed(s)) == multiset(Keyed(t))
    ensures multiset(s) == multiset(t)
  {
    forall x: Ptr ensures multiset(s)[x] == multiset(t)[x] {
      KeyedCount(s, x);
      KeyedCount(t, x);
    }
  }

  // Everything still in the heap is at least as great as everything taken out.
  ghost predicate Drained(out: seq<Ptr>, bag: multiset<Heap.Node>, cmp: Cmp) {
    Sorted(out, cmp) && forall n, k :: n in bag && 0 <= k < |out| ==> cmp(out[k], n.key) <= 0
  }

  lemma DrainedNext(out: seq<Ptr>, bag: multiset<Heap.Node>, rest: multiset<Heap.Node>, n: Heap.Node, cmp: Cmp)
    requires Drained(out, bag, cmp) && bag == rest + multiset{n} && forall m :: m in bag ==> Heap.Le(cmp, n, m)
    ensures Drained(out + [n.key], rest, cmp)
  {
    assert n in bag;
    forall m | m in rest ensures m in bag {}
  }

  lemma DrainedNone(bag: multiset<Heap.Node>, cmp: Cmp)
    ensures Drained([], bag, cmp) && multiset(Keyed([])) == multiset{}
  {
  }

  lemma DrainedSorted(out: seq<Ptr>, bag: multiset<Heap.Node>, cmp: Cmp)
    requires Drained(out, bag, cmp)
    ensures Sorted(out, cmp)
  {
  }

  // The capacity that heap sort asks for: the count is cut to 32 bits before 1 is added.
  function HeapCapacity(count: nat): nat { (count % TWO_TO_32 + 1) % TWO_TO_32 }

  lemma HeapCapacityIs(count: nat)
    ensures count + 1 < TWO_TO_32 ==> HeapCapacity(count) == count + 1
  {
  }

  // The elements that the heap takes of the first i of s, and its capacity then.  An element
  // that it has no room for is lost, unless the heap can double and there is memory for that.
  function TakenIn(s: seq<Ptr>, i: nat, cap: nat, more: nat -> bool): (r: (seq<Ptr>, nat))
    requires i <= |s|
    ensures |r.0| <= i
    decreases i
  {
    if i == 0 then ([], cap)
    else
      var (kept, c) := TakenIn(s, i - 1, cap, more);
      if |kept| < c then (kept + [s[i - 1]], c)
      else if 2 * c < Heap.CAP_LIMIT && more(i - 1) then (kept + [s[i - 1]], 2 * c)
      else (kept, c)
  }

  // The kept elements are sorted, and the last of them fills the rest.
  ghost predicate SortedAndFilled(kept: seq<Ptr>, t: seq<Ptr>, cmp: Cmp) {
    && |kept| <= |t| && Sorted(t[..|kept|], cmp) && multiset(t[..|kept|]) == multiset(kept)
    && (|kept| < |t| ==> 0 < |kept| && forall i :: |kept| <= i < |t| ==> t[i] == t[|kept| - 1])
  }

  // Capacity 0 stands for 8.
  function FirstCapacity(count: nat): nat {
    if HeapCapacity(count) == 0 then 8 else HeapCapacity(count)
  }

  /** Heap sort refuses from 2^31 - 1 elements on, up to where the count no longer fits into 32
      bits.  Below, it yields a sorted permutation.  Beyond, if the count cut to 32 bits is
      accepted, elements that the heap has no room for are lost: the others come out sorted and
      the last of them is repeated.  kept is what the heap took; granted says whether the system
      has memory for the heap, and more whether it has for the heap to double at an insertion. */
  method HeapSort(ptr: array<Ptr>, cmp: Cmp, granted: bool, more: nat -> bool) returns (ok: bool, ghost kept: seq<Ptr>)
    requires TotalPreorder(cmp)
    modifies ptr
    ensures ok == (HeapCapacity(ptr.Length) < Heap.CAP_LIMIT && granted)
    ensures !ok ==> ptr[..] == old(ptr[..])
    ensures ok ==> kept == TakenIn(old(ptr[..]), ptr.Length, FirstCapacity(ptr.Length), more).0
    ensures ok ==> SortedAndFilled(kept, ptr[..], cmp)
    ensures ok ==> (kept == old(ptr[..]) <==> ptr.Length + 1 < Heap.CAP_LIMIT)
    ensures ok && ptr.Length + 1 < Heap.CAP_LIMIT ==>
              Sorted(ptr[..], cmp) && multiset(ptr[..]) == multiset(old(ptr[..]))
  {
    HeapCapacityIs(ptr.Length);
    kept := [];
    var heap := Heap.Heap.Init(cmp, HeapCapacity(ptr.Length), granted);
    if heap == null { return false, []; }
    hide *;
    ghost var s := ptr[..];
    kept := FillHeap(ptr, heap, more);
    DrainHeap(ptr, heap, kept);
    AllKept(s, ptr[..], kept, cmp);
    ok := true;
  }

  lemma AllKept(s: seq<Ptr>, t: seq<Ptr>, kept: seq<Ptr>, cmp: Cmp)
    requires SortedAndFilled(kept, t, cmp) && |s| == |t|
    ensures kept == s ==> Sorted(t, cmp) && multiset(t) == multiset(s)
  {
    if kept == s { assert t[..|kept|] == t; }
  }

  lemma TakenNext(s: seq<Ptr>, i: nat, cap: nat, more: nat -> bool)
    requires i < |s|
    ensures var (kept, c) := TakenIn(s, i, cap, more);
            TakenIn(s, i + 1, cap, more) ==
            if |kept| < c then (kept + [s[i]], c)
            else if 2 * c < Heap.CAP_LIMIT && more(i) then (kept + [s[i]], 2 * c)
            else (kept, c)
  {
  }

  lemma TakenNone(s: seq<Ptr>, cap: nat, more: nat -> bool)
    ensures TakenIn(s, 0, cap, more) == ([], cap) && multiset(Keyed([])) == multiset{} && s[..0] == []
  {
  }

  // The heap holds what it took of the first i elements.
  ghost predicate Filling(heap: Heap.Heap, s: seq<Ptr>, i: nat, cap: nat, more: nat -> bool, kept: seq<Ptr>)
    requires heap.Valid() && i <= |s|
    reads heap, heap.nodes
  {
    && heap.size == |kept| && heap.Contents() == multiset(Keyed(kept))
    && (kept, heap.capacity) == TakenIn(s, i, cap, more)
  }

  // One turn of the inserting loop, which does not look at the result of the insertion.
  method InsertNext(ptr: array<Ptr>, i: nat, heap: Heap.Heap, ghost cap: nat, more: nat -> bool, ghost kept: seq<Ptr>)
    returns (ghost next: seq<Ptr>)
    requires i < ptr.Length && heap.Valid() && Filling(heap, ptr[..], i, cap, more, kept)
    requires heap.nodes as object != ptr
    modifies heap, heap.nodes
    ensures heap.Valid() && Filling(heap, ptr[..], i + 1, cap, more, next)
    ensures heap.nodes == old(heap.nodes) || fresh(heap.nodes)
  {
    hide Keyed, TakenIn;
    heap.CapacityFacts();
    TakenNext(ptr[..], i, cap, more);
    KeyedAppend(kept, ptr[i]);
    var ok := heap.Insert(ptr[i], Heap.NULL, more(i));
    next := if ok then kept + [ptr[i]] else kept;
  }

  lemma TakenFits(s: seq<Ptr>, i: nat, cap: nat, more: nat -> bool)
    requires i <= |s| && 1 <= cap < Heap.CAP_LIMIT
    ensures var (kept, c) := TakenIn(s, i, cap, more);
            && |kept| <= c && cap <= c < Heap.CAP_LIMIT && (0 < i ==> 0 < |kept|) && (i < cap ==> kept == s[..i])
  {
    if i == 0 {
    } else {
      TakenFits(s, i - 1, cap, more);
      assert s[..i] == s[..i - 1] + [s[i - 1]];
    }
  }

  lemma FillingStarts(heap: Heap.Heap, s: seq<Ptr>, more: nat -> bool)
    requires heap.Valid() && heap.size == 0 && heap.Contents() == multiset{}
    ensures Filling(heap, s, 0, heap.capacity, more, [])
  {
    TakenNone(s, heap.capacity, more);
  }

  lemma Filled(heap: Heap.Heap, s: seq<Ptr>, cap: nat, more: nat -> bool, kept: seq<Ptr>)
    requires heap.Valid() && Filling(heap, s, |s|, cap, more, kept) && 1 <= cap < Heap.CAP_LIMIT
    requires |s| + 1 < Heap.CAP_LIMIT ==> |s| < cap
    requires |s| + 1 != Heap.CAP_LIMIT
    ensures heap.size == |kept| <= |s| && heap.Contents() == multiset(Keyed(kept))
    ensures kept == TakenIn(s, |s|, cap, more).0 && (kept == s <==> |s| + 1 < Heap.CAP_LIMIT)
    ensures 0 < |s| ==> 0 < |kept|
  {
    hide Keyed, TakenIn;
    TakenFits(s, |s|, cap, more);
    assert s[..|s|] == s;
  }

  // The inserting loop.
  method FillHeap(ptr: array<Ptr>, heap: Heap.Heap, more: nat -> bool) returns (ghost kept: seq<Ptr>)
    requires heap.Valid() && heap.size == 0 && heap.Contents() == multiset{}
    requires ptr.Length + 1 < Heap.CAP_LIMIT ==> ptr.Length < heap.capacity
    requires ptr.Length + 1 != Heap.CAP_LIMIT && heap.nodes as object != ptr
    modifies heap, heap.nodes
    ensures heap.Valid() && heap.size == |kept| <= ptr.Length && (heap.nodes == old(heap.nodes) || fresh(heap.nodes))
    ensures heap.Contents() == multiset(Keyed(kept)) && ptr[..] == old(ptr[..])
    ensures kept == TakenIn(old(ptr[..]), ptr.Length, old(heap.capacity), more).0
    ensures kept == old(ptr[..]) <==> ptr.Length + 1 < Heap.CAP_LIMIT
    ensures 0 < ptr.Length ==> 0 < |kept|
  {
    hide *;
    ghost var s, cap := ptr[..], heap.capacity;
    heap.CapacityFacts();
    FillingStarts(heap, s, more);
    kept := [];
    var i := 0;
    while i < ptr.Length
      invariant 0 <= i <= ptr.Length && heap.Valid() && ptr[..] == s && Filling(heap, s, i, cap, more, kept)
      invariant heap.nodes == old(heap.nodes) || fresh(heap.nodes)
    {
      kept := InsertNext(ptr, i, heap, cap, more, kept);
      i := i + 1;
    }
    Filled(heap, s, cap, more, kept);
  }

  // One turn of the extracting loop; from an empty heap the node stays what it was.
  method TakeNext(heap: Heap.Heap, node: Heap.Node, ghost out: seq<Ptr>, ghost all: seq<Ptr>)
    returns (next: Heap.Node, ghost taken: seq<Ptr>)
    requires heap.Valid() && Drained(out, heap.Contents(), heap.cmp)
    requires heap.Contents() + multiset(Keyed(out)) == multiset(Keyed(all))
    modifies heap, heap.nodes
    ensures heap.Valid() && Drained(taken, heap.Contents(), heap.cmp) && heap.nodes == old(heap.nodes)
    ensures heap.Contents() + multiset(Keyed(taken)) == multiset(Keyed(all))
    ensures old(heap.size) > 0 ==> taken == out + [next.key] && heap.size == old(heap.size) - 1
    ensures old(heap.size) == 0 ==> taken == out && next == node && heap.size == 0
  {
    hide *;
    ghost var bag := heap.Contents();
    next, taken := node, out;
    var ok, n := heap.Extract();
    if ok {
      next := n;
      DrainedNext(out, bag, heap.Contents(), n, heap.cmp);
      KeyedMember(all, n);
      KeyedAppend(out, n.key);
      taken := out + [n.key];
    }
  }

  // full is out, followed by copies of its last element.
  ghost predicate Extends(full: seq<Ptr>, out: seq<Ptr>) {
    && |out| <= |full| && full[..|out|] == out
    && (|out| < |full| ==> 0 < |out| && forall j :: |out| <= j < |full| ==> full[j] == out[|out| - 1])
  }

  lemma ExtendsMore(full: seq<Ptr>, out: seq<Ptr>, x: Ptr)
    requires Extends(full, out)
    ensures |full| == |out| ==> Extends(full + [x], out + [x])
    ensures 0 < |out| && x == out[|out| - 1] ==> Extends(full + [x], out)
  {
    if |full| == |out| { assert full == out; }
  }

  // After i turns, full having been stored and bag being left in the heap.
  ghost predicate Draining(out: seq<Ptr>, all: seq<Ptr>, bag: multiset<Heap.Node>, full: seq<Ptr>, node: Heap.Node,
                           cmp: Cmp) {
    && |out| == (if |full| < |all| then |full| else |all|) && Extends(full, out)
    && bag + multiset(Keyed(out)) == multiset(Keyed(all)) && Drained(out, bag, cmp)
    && (0 < |full| && 0 < |all| ==> node.key == out[|out| - 1])
  }

  lemma DrainingStarts(all: seq<Ptr>, node: Heap.Node, cmp: Cmp)
    ensures Draining([], all, multiset(Keyed(all)), [], node, cmp)
  {
    hide Drained;
    DrainedNone(multiset(Keyed(all)), cmp);
  }

  lemma DrainingGoesOn(out: seq<Ptr>, all: seq<Ptr>, bag: multiset<Heap.Node>, full: seq<Ptr>, node: Heap.Node,
                       taken: seq<Ptr>, bag': multiset<Heap.Node>, node': Heap.Node, cmp: Cmp)
    requires Draining(out, all, bag, full, node, cmp) && 0 < |all|
    requires if |out| < |all| then taken == out + [node'.key] else taken == out && node' == node
    requires bag' + multiset(Keyed(taken)) == multiset(Keyed(all)) && Drained(taken, bag', cmp)
    ensures Draining(taken, all, bag', full + [node'.key], node', cmp)
  {
    hide Keyed, Drained, Extends;
    ExtendsMore(full, out, node'.key);
  }

  lemma DrainingEnds(out: seq<Ptr>, kept: seq<Ptr>, full: seq<Ptr>, node: Heap.Node, cmp: Cmp)
    requires |kept| <= |full| && Draining(out, kept, multiset{}, full, node, cmp)
    ensures SortedAndFilled(kept, full, cmp)
  {
    hide Keyed, Extends;
    DrainedSorted(out, multiset{}, cmp);
    KeyedSame(out, kept);
    FilledIs(kept, full, out, cmp);
  }

  // The extracting loop, which does not look at the result either: once the heap is empty
  // the last node is stored again.
  method DrainHeap(ptr: array<Ptr>, heap: Heap.Heap, ghost kept: seq<Ptr>)
    requires heap.Valid() && heap.size == |kept| <= ptr.Length && (0 < ptr.Length ==> 0 < |kept|)
    requires heap.Contents() == multiset(Keyed(kept)) && heap.nodes as object != ptr
    modifies ptr, heap, heap.nodes
    ensures SortedAndFilled(kept, ptr[..], heap.cmp)
  {
    hide *;
    var i, node := 0, Heap.Node(Heap.NULL, Heap.NULL);
    ghost var out: seq<Ptr> := [];
    DrainingStarts(kept, node, heap.cmp);
    assert ptr[..0] == [];
    while i < ptr.Length
      invariant 0 <= i <= ptr.Length && heap.Valid() && heap.nodes == old(heap.nodes)
      invariant heap.size == |kept| - |out| && |out| <= |kept|
      invariant Draining(out, kept, heap.Contents(), ptr[..i], node, heap.cmp)
    {
      node, out := StoreNext(ptr, i, heap, node, out, kept);
      i := i + 1;
    }
    DrainedAll(out, kept, heap.Contents(), ptr[..i], node, heap.cmp);
    heap.EmptyContents();
    assert ptr[..i] == ptr[..];
    DrainingEnds(out, kept, ptr[..], node, heap.cmp);
  }

  lemma DrainedAll(out: seq<Ptr>, all: seq<Ptr>, bag: multiset<Heap.Node>, full: seq<Ptr>, node: Heap.Node, cmp: Cmp)
    requires Draining(out, all, bag, full, node, cmp) && |all| <= |full|
    ensures |out| == |all|
  {
  }

  method StoreNext(ptr: array<Ptr>, i: nat, heap: Heap.Heap, node: Heap.Node, ghost out: seq<Ptr>, ghost all: seq<Ptr>)
    returns (next: Heap.Node, ghost taken: seq<Ptr>)
    requires heap.Valid() && i < ptr.Length && 0 < |all| && heap.nodes as object != ptr
    requires |out| <= |all| && heap.size == |all| - |out|
    requires Draining(out, all, heap.Contents(), ptr[..i], node, heap.cmp)
    modifies ptr, heap, heap.nodes
    ensures heap.Valid() && heap.nodes == old(heap.nodes) && |taken| <= |all| && heap.size == |all| - |taken|
    ensures Draining(taken, all, heap.Contents(), ptr[..i + 1], next, heap.cmp)
  {
    hide *;
    ghost var full, bag := ptr[..i], heap.Contents();
    DrainingParts(out, all, bag, full, node, heap.cmp);
    next, taken := TakeNext(heap, node, out, all);
    DrainingGoesOn(out, all, bag, full, node, taken, heap.Contents(), next, heap.cmp);
    ptr[i] := next.key;
    assert ptr[..i + 1] == full + [next.key];
  }

  lemma DrainingParts(out: seq<Ptr>, all: seq<Ptr>, bag: multiset<Heap.Node>, full: seq<Ptr>, node: Heap.Node, cmp: Cmp)
    requires Draining(out, all, bag, full, node, cmp)
    ensures bag + multiset(Keyed(out)) == multiset(Keyed(all)) && Drained(out, bag, cmp)
  {
  }

  lemma FilledIs(kept: seq<Ptr>, t: seq<Ptr>, out: seq<Ptr>, cmp: Cmp)
    requires |out| == |kept| <= |t| && Extends(t, out) && Sorted(out, cmp) && multiset(out) == multiset(kept)
    ensures SortedAndFilled(kept, t, cmp)
  {
    var n := |kept|;
    assert t[..n] == out;
    if n < |t| {
      assert t[n - 1] == out[n - 1];
    }
  }

  lemma KeyedAppend(s: seq<Ptr>, x: Ptr)
    ensures multiset(Keyed(s + [x])) == multiset(Keyed(s)) + multiset{Heap.Node(x, Heap.NULL)}
  {
    assert (s + [x])[..|s|] == s;
  }
}
