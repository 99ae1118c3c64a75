/** The value side of the AVL tree (muggle/c/dsaa/avl_tree.c): what a linked tree denotes,
    the four rotations as rewritings of that value, and their laws. */
module AvlShape {
  import opened Ordering
  import opened PowerOfTwo

  // A node of the tree is known by its address; 0 is NULL.
  datatype Node = Node(left: Ptr, right: Ptr, parent: Ptr, balance: int, key: Ptr, value: Ptr)

  // A subtree: which node sits where, and what it stores.
  datatype Tree = E | N(l: Tree, n: Ptr, k: Ptr, v: Ptr, b: int, r: Tree)

  // A tree with a hole: the way from a subtree up to the root.  left says on which side of
  // n the hole is, sib is the subtree on the other side.
  datatype Path = Top | In(up: Path, left: bool, n: Ptr, k: Ptr, v: Ptr, b: int, sib: Tree)

  ghost function Kid(t: Tree, left: bool): Tree
    requires t.N?
  {
    if left then t.l else t.r
  }

  ghost function Max(a: nat, b: nat): nat { if a < b then b else a }

  ghost function Height(t: Tree): nat {
    if t.E? then 0 else 1 + Max(Height(t.l), Height(t.r))
  }

  ghost function Size(t: Tree): nat {
    if t.E? then 0 else Size(t.l) + 1 + Size(t.r)
  }

  ghost function Nodes(t: Tree): set<Ptr> {
    if t.E? then {} else Nodes(t.l) + {t.n} + Nodes(t.r)
  }

  // Which node holds which data.
  ghost function Cells(t: Tree): set<(Ptr, Ptr, Ptr)> {
    if t.E? then {} else Cells(t.l) + {(t.n, t.k, t.v)} + Cells(t.r)
  }

  ghost function Inorder(t: Tree): seq<(Ptr, Ptr)> {
    if t.E? then [] else Inorder(t.l) + [(t.k, t.v)] + Inorder(t.r)
  }

  // Stored balances are right height minus left height, within [-1, 1].
  ghost predicate Avl(t: Tree) {
    t.N? ==> t.b == Height(t.r) - Height(t.l) && -1 <= t.b <= 1 && Avl(t.l) && Avl(t.r)
  }

  // The same, but the root may be off by two.
  ghost predicate Tilted(t: Tree) {
    t.N? && t.b == Height(t.r) - Height(t.l) && (t.b == 2 || t.b == -2) && Avl(t.l) && Avl(t.r)
  }

  ghost predicate Distinct(t: Tree) {
    t.N? ==> t.n !in Nodes(t.l) && t.n !in Nodes(t.r) && Nodes(t.l) !! Nodes(t.r)
             && Distinct(t.l) && Distinct(t.r)
  }

  ghost predicate Sorted(cmp: Cmp, s: seq<(Ptr, Ptr)>) {
    forall i, j :: 0 <= i < j < |s| ==> cmp(s[i].0, s[j].0) < 0
  }

  ghost predicate AllBelow(cmp: Cmp, s: seq<(Ptr, Ptr)>, k: Ptr) {
    forall i :: 0 <= i < |s| ==> cmp(k, s[i].0) > 0
  }

  ghost predicate AllAbove(cmp: Cmp, s: seq<(Ptr, Ptr)>, k: Ptr) {
    forall i :: 0 <= i < |s| ==> cmp(k, s[i].0) < 0
  }

  ghost predicate Present(cmp: Cmp, s: seq<(Ptr, Ptr)>, k: Ptr) {
    exists i :: 0 <= i < |s| && cmp(k, s[i].0) == 0
  }

  // s' is s with x added at one place.
  ghost predicate Inserted(s: seq<(Ptr, Ptr)>, x: (Ptr, Ptr), s': seq<(Ptr, Ptr)>) {
    exists i :: 0 <= i <= |s| && s' == s[..i] + [x] + s[i..]
  }

  lemma InsertedBetween(a: seq<(Ptr, Ptr)>, x: (Ptr, Ptr), b: seq<(Ptr, Ptr)>)
    ensures Inserted(a + b, x, a + [x] + b)
  {
    assert (a + b)[..|a|] == a && (a + b)[|a|..] == b;
  }

  // Comparing with the element between a and b settles one of the sides.
  lemma SearchStep(cmp: Cmp, a: seq<(Ptr, Ptr)>, x: (Ptr, Ptr), b: seq<(Ptr, Ptr)>, k: Ptr)
    requires TotalPreorder(cmp) && Sorted(cmp, a + [x] + b)
    ensures cmp(k, x.0) < 0 ==> AllAbove(cmp, [x] + b, k)
    ensures cmp(k, x.0) > 0 ==> AllBelow(cmp, a + [x], k)
  {
    hide TotalPreorder;
    var s := a + [x] + b;
    assert s[|a|] == x;
    if cmp(k, x.0) < 0 {
      forall i | 0 <= i < |b|
        ensures cmp(k, b[i].0) < 0
      {
        assert s[|a| + 1 + i] == b[i];
        Transitive(cmp, k, x.0, b[i].0);
      }
    }
    if cmp(k, x.0) > 0 {
      Flip(cmp, x.0, k);
      forall i | 0 <= i < |a|
        ensures cmp(k, a[i].0) > 0
      {
        assert s[i] == a[i];
        Transitive(cmp, a[i].0, x.0, k);
        Flip(cmp, a[i].0, k);
      }
    }
  }

  // A key between the two parts keeps the whole sorted.
  lemma SortedAround(cmp: Cmp, a: seq<(Ptr, Ptr)>, x: (Ptr, Ptr), b: seq<(Ptr, Ptr)>)
    requires TotalPreorder(cmp) && Sorted(cmp, a + b) && AllBelow(cmp, a, x.0) && AllAbove(cmp, b, x.0)
    ensures Sorted(cmp, a + [x] + b)
  {
    hide TotalPreorder;
    var s, t := a + [x] + b, a + b;
    forall i, j | 0 <= i < j < |s|
      ensures cmp(s[i].0, s[j].0) < 0
    {
      if i == |a| {
        assert s[i] == x && s[j] == b[j - |a| - 1];
      } else if j == |a| {
        assert s[j] == x && s[i] == a[i];
        Flip(cmp, a[i].0, x.0);
      } else {
        assert t[if i < |a| then i else i - 1] == s[i] && t[if j < |a| then j else j - 1] == s[j];
      }
    }
  }

  lemma SortedWithout(cmp: Cmp, a: seq<(Ptr, Ptr)>, x: (Ptr, Ptr), b: seq<(Ptr, Ptr)>)
    requires Sorted(cmp, a + [x] + b)
    ensures Sorted(cmp, a + b)
  {
    var s, t := a + [x] + b, a + b;
    forall i, j | 0 <= i < j < |t|
      ensures cmp(t[i].0, t[j].0) < 0
    {
      assert t[i] == s[if i < |a| then i else i + 1] && t[j] == s[if j < |a| then j else j + 1];
    }
  }

  lemma SortedAfterRemoval(cmp: Cmp, s: seq<(Ptr, Ptr)>, x: (Ptr, Ptr), s': seq<(Ptr, Ptr)>)
    requires Inserted(s', x, s) && Sorted(cmp, s)
    ensures Sorted(cmp, s')
  {
    var i :| 0 <= i <= |s'| && s == s'[..i] + [x] + s'[i..];
    SortedWithout(cmp, s'[..i], x, s'[i..]);
    assert s' == s'[..i] + s'[i..];
  }

  // ---------------------------------------------------------------- paths

  // The tree one level up once the hole is filled with t.
  ghost function Join(p: Path, t: Tree): Tree
    requires p.In?
  {
    if p.left then N(t, p.n, p.k, p.v, p.b, p.sib) else N(p.sib, p.n, p.k, p.v, p.b, t)
  }

  ghost function Plug(p: Path, t: Tree): Tree {
    if p.Top? then t else Plug(p.up, Join(p, t))
  }

  ghost function PathNodes(p: Path): set<Ptr> {
    if p.Top? then {} else PathNodes(p.up) + {p.n} + Nodes(p.sib)
  }

  ghost function PathCells(p: Path): set<(Ptr, Ptr, Ptr)> {
    if p.Top? then {} else PathCells(p.up) + {(p.n, p.k, p.v)} + Cells(p.sib)
  }

  ghost function Before(p: Path): seq<(Ptr, Ptr)> {
    if p.Top? then [] else if p.left then Before(p.up) else Before(p.up) + Inorder(p.sib) + [(p.k, p.v)]
  }

  ghost function After(p: Path): seq<(Ptr, Ptr)> {
    if p.Top? then [] else if p.left then [(p.k, p.v)] + Inorder(p.sib) + After(p.up) else After(p.up)
  }

  ghost predicate PathDistinct(p: Path) {
    p.In? ==> p.n !in Nodes(p.sib) && p.n !in PathNodes(p.up) && Nodes(p.sib) !! PathNodes(p.up)
              && Distinct(p.sib) && PathDistinct(p.up)
  }

  // Every stored balance on the path is right if the hole has height h.
  ghost predicate PathAvl(p: Path, h: nat) {
    p.In? ==>
      && p.b == (if p.left then Height(p.sib) - h else h - Height(p.sib))
      && -1 <= p.b <= 1 && Avl(p.sib) && PathAvl(p.up, 1 + Max(h, Height(p.sib)))
  }

  ghost function Depth(p: Path): nat { if p.Top? then 0 else 1 + Depth(p.up) }

  lemma JoinAvl(p: Path, t: Tree)
    requires p.In?
    ensures Height(Join(p, t)) == 1 + Max(Height(t), Height(p.sib))
    ensures Avl(Join(p, t)) <==>
              && Avl(t) && Avl(p.sib) && -1 <= p.b <= 1
              && p.b == if p.left then Height(p.sib) - Height(t) else Height(t) - Height(p.sib)
  {
  }

  lemma {:induction false} PlugAvl(p: Path, t: Tree)
    ensures Avl(Plug(p, t)) <==> Avl(t) && PathAvl(p, Height(t))
    decreases p
  {
    hide Avl, Height;
    if p.Top? {
    } else {
      JoinAvl(p, t);
      PlugAvl(p.up, Join(p, t));
    }
  }

  lemma JoinInorder(p: Path, t: Tree)
    requires p.In?
    ensures var x := [(p.k, p.v)];
            Inorder(Join(p, t)) == if p.left then Inorder(t) + x + Inorder(p.sib) else Inorder(p.sib) + x + Inorder(t)
  {
  }

  lemma {:induction false} PlugInorder(p: Path, t: Tree)
    ensures Inorder(Plug(p, t)) == Before(p) + Inorder(t) + After(p)
    decreases p
  {
    hide Inorder;
    if p.Top? {
    } else {
      var x := [(p.k, p.v)];
      JoinInorder(p, t);
      PlugInorder(p.up, Join(p, t));
      Regroup(Before(p.up), if p.left then Inorder(t) else Inorder(p.sib), x,
              if p.left then Inorder(p.sib) else Inorder(t), After(p.up));
    }
  }

  lemma Regroup<T>(a: seq<T>, b: seq<T>, c: seq<T>, d: seq<T>, e: seq<T>)
    ensures a + (b + c + d) + e == a + b + (c + d + e)
    ensures a + (b + c + d) + e == (a + b + c) + d + e
    ensures a + (b + c + d) + e == (a + b) + c + (d + e) && c + (d + e) == c + d + e
  {
  }

  lemma {:induction false} PlugNodes(p: Path, t: Tree)
    ensures Nodes(Plug(p, t)) == Nodes(t) + PathNodes(p)
    ensures Distinct(Plug(p, t)) <==> Distinct(t) && PathDistinct(p) && Nodes(t) !! PathNodes(p)
    decreases p
  {
    if p.Top? {
    } else {
      PlugNodes(p.up, Join(p, t));
    }
  }

  lemma {:induction false} PlugCells(p: Path, t: Tree)
    ensures Cells(Plug(p, t)) == Cells(t) + PathCells(p)
    decreases p
  {
    if p.Top? {
    } else {
      PlugCells(p.up, Join(p, t));
    }
  }

  lemma {:induction false} PlugHeight(p: Path, t: Tree)
    ensures Height(t) + Depth(p) <= Height(Plug(p, t))
    decreases p
  {
    if p.Top? {
    } else {
      PlugHeight(p.up, Join(p, t));
    }
  }

  // One level down, with the hole on the given side of t's root.
  ghost function DownPath(p: Path, t: Tree, left: bool): Path
    requires t.N?
  {
    In(p, left, t.n, t.k, t.v, t.b, Kid(t, !left))
  }

  lemma DownOrder(cmp: Cmp, p: Path, t: Tree, k: Ptr, left: bool)
    requires TotalPreorder(cmp) && Sorted(cmp, Before(p) + Inorder(t) + After(p)) && t.N?
    requires AllBelow(cmp, Before(p), k) && AllAbove(cmp, After(p), k)
    requires if left then cmp(k, t.k) < 0 else cmp(k, t.k) > 0
    ensures AllBelow(cmp, Before(DownPath(p, t, left)), k) && AllAbove(cmp, After(DownPath(p, t, left)), k)
  {
    hide *;
    var l, x, r := Inorder(t.l), (t.k, t.v), Inorder(t.r);
    DownSequences(p, t, left);
    Regroup(Before(p), l, [x], r, After(p));
    SearchStep(cmp, Before(p) + l, x, r + After(p), k);
  }

  lemma {:induction false} PlugSameHeight(p: Path, t: Tree, u: Tree)
    requires Height(t) == Height(u)
    ensures Height(Plug(p, t)) == Height(Plug(p, u))
    decreases p
  {
    if p.Top? {
    } else {
      PlugSameHeight(p.up, Join(p, t), Join(p, u));
    }
  }

  // Data do not matter for balance and height.
  lemma PlugOtherData(p: Path, t: Tree, k: Ptr, v: Ptr)
    requires t.N?
    ensures Avl(Plug(p, t.(k := k, v := v))) <==> Avl(Plug(p, t))
    ensures Height(Plug(p, t.(k := k, v := v))) == Height(Plug(p, t))
  {
    var u := t.(k := k, v := v);
    assert Height(u) == Height(t) && (Avl(u) <==> Avl(t));
    hide *;
    PlugAvl(p, t);
    PlugAvl(p, u);
    PlugSameHeight(p, t, u);
  }

  // ---------------------------------------------------------------- rotations

  ghost function RotateLeft(x: Tree): Tree
    requires x.N? && x.r.N?
  {
    var z := x.r;
    if z.b == 0 then z.(l := x.(b := 1, r := z.l), b := -1) else z.(l := x.(b := 0, r := z.l), b := 0)
  }

  ghost function RotateRight(x: Tree): Tree
    requires x.N? && x.l.N?
  {
    var z := x.l;
    if z.b == 0 then z.(r := x.(b := -1, l := z.r), b := 1) else z.(r := x.(b := 0, l := z.r), b := 0)
  }

  ghost function RotateRightLeft(x: Tree): Tree
    requires x.N? && x.r.N? && x.r.l.N?
  {
    var z := x.r;
    var y := z.l;
    y.(l := x.(r := y.l, b := if y.b > 0 then -1 else 0),
       r := z.(l := y.r, b := if y.b < 0 then 1 else 0), b := 0)
  }

  ghost function RotateLeftRight(x: Tree): Tree
    requires x.N? && x.l.N? && x.l.r.N?
  {
    var z := x.l;
    var y := z.r;
    y.(l := z.(r := y.l, b := if y.b > 0 then -1 else 0),
       r := x.(l := y.r, b := if y.b < 0 then 1 else 0), b := 0)
  }

  // muggle_avl_tree_rebalance on a tilted tree.
  ghost function Rebalanced(t: Tree): Tree
    requires Tilted(t)
  {
    if t.b < -1 then
      if t.l.b <= 0 then RotateRight(t) else RotateLeftRight(t)
    else
      if t.r.b >= 0 then RotateLeft(t) else RotateRightLeft(t)
  }

  // What rebalance returns: whether the height went down.
  ghost function Shrinks(t: Tree): bool
    requires Tilted(t)
  {
    if t.b < -1 then t.l.b != 0 else t.r.b != 0
  }

  lemma SingleRotations(x: Tree)
    requires Tilted(x) && (if x.b < -1 then x.l.b <= 0 else x.r.b >= 0)
    ensures Avl(Rebalanced(x)) && Height(Rebalanced(x)) == Height(x) - (if Shrinks(x) then 1 else 0)
  {
    if x.b < -1 {
      var z := x.l;
      assert Avl(x.(b := if z.b == 0 then -1 else 0, l := z.r));
    } else {
      var z := x.r;
      assert Avl(x.(b := if z.b == 0 then 1 else 0, r := z.l));
    }
  }

  lemma DoubleLeftRight(x: Tree)
    requires Tilted(x) && x.b < -1 && x.l.b > 0
    ensures Avl(RotateLeftRight(x)) && Height(RotateLeftRight(x)) == Height(x) - 1
  {
    var t, y := RotateLeftRight(x), x.l.r;
    assert Avl(y) && Avl(y.l) && Avl(y.r);
    assert Avl(t.l) && Height(t.l) == Height(y);
    assert Avl(t.r) && Height(t.r) == Height(y);
  }

  lemma DoubleRightLeft(x: Tree)
    requires Tilted(x) && 1 < x.b && x.r.b < 0
    ensures Avl(RotateRightLeft(x)) && Height(RotateRightLeft(x)) == Height(x) - 1
  {
    var t, y := RotateRightLeft(x), x.r.l;
    assert Avl(y) && Avl(y.l) && Avl(y.r);
    assert Avl(t.l) && Height(t.l) == Height(y);
    assert Avl(t.r) && Height(t.r) == Height(y);
  }

  /** Rebalancing restores the AVL property and reports truthfully whether the height
      decreased. */
  lemma RebalancedIsAvl(t: Tree)
    requires Tilted(t)
    ensures Avl(Rebalanced(t))
    ensures Height(Rebalanced(t)) == Height(t) - (if Shrinks(t) then 1 else 0)
  {
    if if t.b < -1 then t.l.b <= 0 else t.r.b >= 0 {
      SingleRotations(t);
    } else if t.b < -1 {
      DoubleLeftRight(t);
    } else {
      DoubleRightLeft(t);
    }
  }

  // t rearranges x: same contents in the same order, same nodes holding the same data, none twice.
  ghost predicate Rearranges(t: Tree, x: Tree) {
    && Inorder(t) == Inorder(x) && Nodes(t) == Nodes(x) && Size(t) == Size(x) && Cells(t) == Cells(x)
    && (Distinct(x) ==> Distinct(t))
  }

  lemma RotateLeftDistinct(x: Tree)
    requires x.N? && x.r.N? && Distinct(x)
    ensures Distinct(RotateLeft(x))
  {
    assert Distinct(x.r) && Distinct(RotateLeft(x).l);
  }

  lemma RotateLeftRearranges(x: Tree)
    requires x.N? && x.r.N?
    ensures Rearranges(RotateLeft(x), x)
  {
    hide Distinct;
    var z, t := x.r, RotateLeft(x);
    assert Inorder(t) == (Inorder(x.l) + [(x.k, x.v)] + Inorder(z.l)) + [(z.k, z.v)] + Inorder(z.r);
    assert Inorder(x) == Inorder(x.l) + [(x.k, x.v)] + (Inorder(z.l) + [(z.k, z.v)] + Inorder(z.r));
    assert Nodes(t.l) == Nodes(x.l) + {x.n} + Nodes(z.l) && Size(t.l) == Size(x.l) + 1 + Size(z.l);
    assert Cells(t.l) == Cells(x.l) + {(x.n, x.k, x.v)} + Cells(z.l);
    if Distinct(x) {
      RotateLeftDistinct(x);
    }
    assert Inorder(t) == Inorder(x) && Nodes(t) == Nodes(x) && Size(t) == Size(x) && Cells(t) == Cells(x);
  }

  lemma RotateRightDistinct(x: Tree)
    requires x.N? && x.l.N? && Distinct(x)
    ensures Distinct(RotateRight(x))
  {
    assert Distinct(x.l) && Distinct(RotateRight(x).r);
  }

  lemma RotateRightRearranges(x: Tree)
    requires x.N? && x.l.N?
    ensures Rearranges(RotateRight(x), x)
  {
    hide Distinct;
    var z, t := x.l, RotateRight(x);
    assert Inorder(t) == Inorder(z.l) + [(z.k, z.v)] + (Inorder(z.r) + [(x.k, x.v)] + Inorder(x.r));
    assert Inorder(x) == (Inorder(z.l) + [(z.k, z.v)] + Inorder(z.r)) + [(x.k, x.v)] + Inorder(x.r);
    assert Nodes(t.r) == Nodes(z.r) + {x.n} + Nodes(x.r) && Size(t.r) == Size(z.r) + 1 + Size(x.r);
    assert Cells(t.r) == Cells(z.r) + {(x.n, x.k, x.v)} + Cells(x.r);
    if Distinct(x) {
      RotateRightDistinct(x);
    }
    assert Inorder(t) == Inorder(x) && Nodes(t) == Nodes(x) && Size(t) == Size(x) && Cells(t) == Cells(x);
  }

  // A double rotation is two single ones, up to the stored balances.
  ghost function Unweighted(t: Tree): Tree {
    if t.E? then E else N(Unweighted(t.l), t.n, t.k, t.v, 0, Unweighted(t.r))
  }

  lemma {:induction false} UnweightedRearranges(t: Tree)
    ensures Inorder(Unweighted(t)) == Inorder(t) && Nodes(Unweighted(t)) == Nodes(t)
    ensures Cells(Unweighted(t)) == Cells(t)
    ensures Size(Unweighted(t)) == Size(t) && Distinct(Unweighted(t)) == Distinct(t)
  {
    if t.E? {
    } else {
      UnweightedRearranges(t.l);
      UnweightedRearranges(t.r);
    }
  }

  lemma SameUnweighted(t: Tree, x: Tree)
    requires Unweighted(t) == Unweighted(x)
    ensures Rearranges(t, x)
  {
    UnweightedRearranges(t);
    UnweightedRearranges(x);
  }

  lemma InsideRearranges(x: Tree, l: Tree, r: Tree)
    requires x.N? && Rearranges(l, x.l) && Rearranges(r, x.r)
    ensures Rearranges(x.(l := l, r := r), x)
  {
  }

  lemma RotateRightLeftRearranges(x: Tree)
    requires x.N? && x.r.N? && x.r.l.N?
    ensures Rearranges(RotateRightLeft(x), x)
  {
    var u := x.(r := RotateRight(x.r));
    RotateRightRearranges(x.r);
    InsideRearranges(x, x.l, u.r);
    RotateLeftRearranges(u);
    SameUnweighted(RotateRightLeft(x), RotateLeft(u));
  }

  lemma RotateLeftRightRearranges(x: Tree)
    requires x.N? && x.l.N? && x.l.r.N?
    ensures Rearranges(RotateLeftRight(x), x)
  {
    var u := x.(l := RotateLeft(x.l));
    RotateLeftRearranges(x.l);
    InsideRearranges(x, u.l, x.r);
    RotateRightRearranges(u);
    SameUnweighted(RotateLeftRight(x), RotateRight(u));
  }

  /** Rebalancing keeps the in-order contents and the nodes. */
  lemma RebalancedRearranges(t: Tree)
    requires Tilted(t)
    ensures Rearranges(Rebalanced(t), t)
  {
    hide Rearranges;
    if t.b < -1 {
      if t.l.b <= 0 { RotateRightRearranges(t); } else { RotateLeftRightRearranges(t); }
    } else {
      if t.r.b >= 0 { RotateLeftRearranges(t); } else { RotateRightLeftRearranges(t); }
    }
  }

  // ---------------------------------------------------------------- retracing

  // The height of t when its child on the given side had height h.
  ghost function HeightWith(t: Tree, left: bool, h: nat): nat
    requires t.N?
  {
    1 + Max(h, Height(Kid(t, !left)))
  }

  // The balance t should have if its child on the given side had height h.
  ghost function BalanceWith(t: Tree, left: bool, h: nat): int
    requires t.N?
  {
    if left then Height(Kid(t, !left)) - h else h - Height(Kid(t, !left))
  }

  // The child of t on the given side had height h; t's balance is still the one for that.
  ghost predicate Stale(t: Tree, left: bool, h: nat) {
    t.N? && Avl(t.l) && Avl(t.r) && -1 <= t.b <= 1 && t.b == BalanceWith(t, left, h)
  }

  // That child has grown by one, and the path above still fits the old height.
  ghost predicate Grew(p: Path, t: Tree, left: bool) {
    && t.N?
    && var g := Kid(t, left);
    && g.N? && (g.b != 0 || Height(g) == 1)
    && Stale(t, left, Height(g) - 1) && PathAvl(p, HeightWith(t, left, Height(g) - 1))
  }

  // That child has shrunk by one.
  ghost predicate Shrank(p: Path, t: Tree, left: bool) {
    && t.N?
    && var h := Height(Kid(t, left)) + 1;
    && Stale(t, left, h) && PathAvl(p, HeightWith(t, left, h))
  }

  ghost predicate Balanced(p: Path, t: Tree) {
    Avl(t) && PathAvl(p, Height(t))
  }

  lemma ClimbAfterGrowth(p: Path, y: Tree, h: nat)
    requires p.In? && PathAvl(p, h) && Avl(y) && y.N? && Height(y) == h + 1 && (y.b != 0 || h == 0)
    ensures Grew(p.up, Join(p, y), p.left)
  {
    hide Height, Avl;
  }

  lemma ClimbAfterShrinking(p: Path, y: Tree, h: nat)
    requires p.In? && PathAvl(p, h) && Avl(y) && Height(y) == h - 1
    ensures Shrank(p.up, Join(p, y), p.left)
  {
    hide Height, Avl;
  }

  lemma GrewHeights(t: Tree, left: bool, u: Tree)
    requires t.N? && Kid(t, left).N? && Stale(t, left, Height(Kid(t, left)) - 1)
    requires u == t.(b := if left then t.b - 1 else t.b + 1)
    ensures var h := HeightWith(t, left, Height(Kid(t, left)) - 1);
            && (-1 <= u.b <= 1 ==> Avl(u) && Height(u) == if u.b == 0 then h else h + 1)
            && (u.b < -1 || 1 < u.b ==> Tilted(u) && Height(u) == h + 1)
  {
  }

  lemma ShrankHeights(t: Tree, left: bool, u: Tree)
    requires t.N? && Stale(t, left, Height(Kid(t, left)) + 1)
    requires u == t.(b := if left then t.b + 1 else t.b - 1)
    ensures var h := HeightWith(t, left, Height(Kid(t, left)) + 1);
            && (-1 <= u.b <= 1 ==> Avl(u) && Height(u) == if u.b == 0 then h - 1 else h)
            && (u.b < -1 || 1 < u.b ==> Tilted(u) && Height(u) == h)
  {
  }

  ghost function WithKid(t: Tree, left: bool, c: Tree): Tree
    requires t.N?
  {
    if left then t.(l := c) else t.(r := c)
  }

  // Hanging a leaf into an empty place makes that child grow from 0 to 1.
  lemma LeafGrew(p: Path, t: Tree, left: bool, leaf: Tree)
    requires Balanced(p, t) && t.N? && Kid(t, left).E? && leaf.N? && leaf.l.E? && leaf.r.E? && leaf.b == 0
    ensures Grew(p, WithKid(t, left, leaf), left)
  {
    assert Height(leaf) == 1 && Avl(leaf);
  }

  // The same data in the same order, each in the same node.
  ghost predicate SameData(t: Tree, u: Tree) {
    Inorder(t) == Inorder(u) && Cells(t) == Cells(u)
  }

  lemma PlugSameData(p: Path, t: Tree, u: Tree)
    requires SameData(t, u)
    ensures SameData(Plug(p, t), Plug(p, u))
  {
    PlugInorder(p, t);
    PlugInorder(p, u);
    PlugCells(p, t);
    PlugCells(p, u);
  }

  lemma KidHasHeight(t: Tree, left: bool)
    requires t.N? && Kid(t, left).N?
    ensures 1 <= Height(Kid(t, left))
  {
  }

  // One round of the loop in muggle_avl_tree_insert, u being t with its balance corrected.
  lemma GrewStep(p: Path, t: Tree, left: bool, u: Tree)
    requires Grew(p, t, left) && u == t.(b := if left then t.b - 1 else t.b + 1)
    ensures u.b == 0 ==> Balanced(p, u)
    ensures u.b == 1 || u.b == -1 ==> Avl(u) && if p.Top? then Balanced(p, u) else Grew(p.up, Join(p, u), p.left)
    ensures u.b < -1 || 1 < u.b ==> Tilted(u) && Shrinks(u) && Balanced(p, Rebalanced(u))
  {
    hide Height, Avl, Rebalanced;
    KidHasHeight(t, left);
    GrewHeights(t, left, u);
    var h := HeightWith(t, left, Height(Kid(t, left)) - 1);
    if u.b < -1 || 1 < u.b {
      assert Shrinks(u);
      RebalancedIsAvl(u);
    } else if u.b != 0 {
      if p.In? {
        ClimbAfterGrowth(p, u, h);
      }
    }
  }

  // One round of the loop in muggle_avl_tree_remove.
  lemma ShrankStep(p: Path, t: Tree, left: bool, u: Tree)
    requires Shrank(p, t, left) && u == t.(b := if left then t.b + 1 else t.b - 1)
    ensures u.b == 1 || u.b == -1 ==> Balanced(p, u)
    ensures u.b == 0 ==> Avl(u) && if p.Top? then Balanced(p, u) else Shrank(p.up, Join(p, u), p.left)
    ensures u.b < -1 || 1 < u.b ==>
              && Tilted(u)
              && if !Shrinks(u) || p.Top? then Balanced(p, Rebalanced(u))
                 else Shrank(p.up, Join(p, Rebalanced(u)), p.left)
  {
    hide Height, Avl, Rebalanced;
    ShrankHeights(t, left, u);
    var h := HeightWith(t, left, Height(Kid(t, left)) + 1);
    if u.b < -1 || 1 < u.b {
      RebalancedIsAvl(u);
      if Shrinks(u) && p.In? {
        ClimbAfterShrinking(p, Rebalanced(u), h);
      }
    } else if u.b == 0 && p.In? {
      ClimbAfterShrinking(p, u, h);
    }
  }

  // ---------------------------------------------------------------- moving data to a leaf

  // The last node reached from the root of u by always going to the given side.
  ghost function FarTree(u: Tree, left: bool): (w: Tree)
    requires u.N?
    ensures w.N? && Kid(w, left).E?
  {
    if Kid(u, left).E? then u else FarTree(Kid(u, left), left)
  }

  ghost function FarPath(p: Path, u: Tree, left: bool): Path
    requires u.N?
    decreases u
  {
    if Kid(u, left).E? then p else FarPath(DownPath(p, u, left), Kid(u, left), left)
  }

  lemma {:induction false} FarPlug(p: Path, u: Tree, left: bool)
    requires u.N?
    ensures var w := FarTree(u, left);
            Height(w) <= Height(u) && Plug(FarPath(p, u, left), w) == Plug(p, u)
    decreases u
  {
    if Kid(u, left).E? {
    } else {
      FarPlug(DownPath(p, u, left), Kid(u, left), left);
      assert Join(DownPath(p, u, left), Kid(u, left)) == u;
    }
  }

  lemma DownSequences(p: Path, u: Tree, left: bool)
    requires u.N?
    ensures Inorder(u) == Inorder(u.l) + [(u.k, u.v)] + Inorder(u.r)
    ensures Before(DownPath(p, u, left)) == if left then Before(p) else Before(p) + Inorder(u.l) + [(u.k, u.v)]
    ensures After(DownPath(p, u, left)) == if left then [(u.k, u.v)] + Inorder(u.r) + After(p) else After(p)
  {
  }

  lemma {:induction false} FarOrder(p: Path, u: Tree, left: bool)
    requires u.N?
    ensures var q, w := FarPath(p, u, left), FarTree(u, left);
            if left then Before(q) == Before(p) && Inorder(w) + After(q) == Inorder(u) + After(p)
            else After(q) == After(p) && Before(q) + Inorder(w) == Before(p) + Inorder(u)
    decreases u
  {
    hide Inorder, Before, After;
    if Kid(u, left).E? {
    } else {
      var q, x := DownPath(p, u, left), [(u.k, u.v)];
      DownSequences(p, u, left);
      FarOrder(q, Kid(u, left), left);
      Associate(Inorder(u.l), x, Inorder(u.r), After(p));
      Associate(Before(p), Inorder(u.l), x, Inorder(u.r));
    }
  }

  lemma Associate<T>(a: seq<T>, b: seq<T>, c: seq<T>, d: seq<T>)
    ensures a + (b + c + d) == a + b + c + d && (a + b + c) + d == a + b + c + d
    ensures a + (b + c) == a + b + c
  {
  }

  // Everything in order but the data of the current node.
  ghost function Rest(p: Path, t: Tree): seq<(Ptr, Ptr)>
    requires t.N?
  {
    Before(p) + Inorder(t.l) + Inorder(t.r) + After(p)
  }

  // The current node's data changes places with those of its in-order neighbour below it on
  // the given side: what remains besides the moved data is the same sequence.
  lemma SwapKeepsRest(p: Path, t: Tree, left: bool)
    requires t.N? && Kid(t, left).N?
    ensures var w := FarTree(Kid(t, left), !left);
            var t1 := t.(k := w.k, v := w.v);
            Rest(FarPath(DownPath(p, t1, left), Kid(t1, left), !left), w) == Rest(p, t)
  {
    var u := Kid(t, left);
    FarPlug(p, u, !left);
    var w := FarTree(u, !left);
    var t1, y := t.(k := w.k, v := w.v), [(w.k, w.v)];
    var q := DownPath(p, t1, left);
    FarOrder(q, u, !left);
    var f := FarPath(q, u, !left);
    assert Inorder(w) == Inorder(w.l) + y + Inorder(w.r);
    if left {
      assert Inorder(w.r) == [] && After(q) == y + Inorder(t.r) + After(p);
      assert Before(f) + Inorder(w) == Before(p) + Inorder(u);
      SwapLeft(Before(f), Inorder(w.l), y, Before(p), Inorder(t.l), Inorder(t.r), After(p));
    } else {
      assert Inorder(w.l) == [] && Before(q) == Before(p) + Inorder(t.l) + y;
      assert Inorder(w) + After(f) == Inorder(u) + After(p);
      SwapRight(After(f), Inorder(w.r), y, Before(p), Inorder(t.l), Inorder(t.r), After(p));
    }
  }

  lemma SwapLeft<T>(bf: seq<T>, wl: seq<T>, y: seq<T>, b: seq<T>, l: seq<T>, r: seq<T>, a: seq<T>)
    requires bf + (wl + y) == b + l
    ensures bf + wl + [] + (y + r + a) == b + l + r + a
  {
    assert bf + wl + [] + (y + r + a) == (bf + (wl + y)) + r + a;
  }

  lemma SwapRight<T>(af: seq<T>, wr: seq<T>, y: seq<T>, b: seq<T>, l: seq<T>, r: seq<T>, a: seq<T>)
    requires y + wr + af == r + a
    ensures (b + l + y) + [] + wr + af == b + l + r + a
  {
    assert (b + l + y) + [] + wr + af == b + l + (y + wr + af);
    assert b + l + r + a == b + l + (r + a);
  }

  // Taking the data out of the contents, whether they sit at t or have left the tree.
  lemma RestIsWithout(p: Path, t: Tree)
    requires t.N?
    ensures Inserted(Rest(p, t), (t.k, t.v), Inorder(Plug(p, t)))
  {
    hide Plug, Inserted;
    PlugInorder(p, t);
    var l, x, r := Inorder(t.l), [(t.k, t.v)], Inorder(t.r);
    assert Inorder(t) == l + x + r;
    Regroup(Before(p), l, x, r, After(p));
    Regroup(Before(p), l, [], r, After(p));
    assert l + [] == l;
    InsertedBetween(Before(p) + l, (t.k, t.v), r + After(p));
    Associate(Before(p) + l, r, After(p), []);
  }

  lemma RestOfLeaf(p: Path, t: Tree)
    requires t.N? && t.l.E? && t.r.E?
    ensures Inorder(Plug(p, E)) == Rest(p, t)
  {
    PlugInorder(p, E);
  }

  // ---------------------------------------------------------------- height bound

  ghost function Fib(n: nat): nat {
    if n < 2 then n else Fib(n - 2) + Fib(n - 1)
  }

  lemma {:induction false} FibMonotone(m: nat, n: nat)
    requires m <= n
    ensures Fib(m) <= Fib(n)
    decreases n
  {
    if m == n {
    } else {
      FibMonotone(m, n - 1);
    }
  }

  lemma FibStep(hl: nat, hr: nat)
    requires -1 <= hr - hl <= 1
    ensures Fib(1 + Max(hl, hr) + 2) <= Fib(hl + 2) + Fib(hr + 2)
  {
    var h := 1 + Max(hl, hr);
    FibMonotone(h, hl + 2);
    FibMonotone(h, hr + 2);
    assert Fib(h + 2) == Fib(h) + Fib(h + 1);
  }

  lemma FibTwo()
    ensures Fib(2) == 1
  {
  }

  /** An AVL tree of height h has at least Fib(h + 2) - 1 nodes. */
  lemma {:induction false} SizeAtLeastFib(t: Tree)
    requires Avl(t)
    ensures Size(t) >= Fib(Height(t) + 2) - 1
  {
    hide Fib;
    if t.E? {
      FibTwo();
    } else {
      FibStep(Height(t.l), Height(t.r));
      SizeAtLeastFib(t.l);
      SizeAtLeastFib(t.r);
    }
  }

  lemma {:induction false} FibDoubles(n: nat)
    ensures Pow2(n / 2) <= Fib(n + 2)
  {
    if n < 2 {
    } else {
      FibDoubles(n - 2);
      FibMonotone(n, n + 1);
      assert (n - 2) / 2 == n / 2 - 1;
      assert Fib(n + 2) == Fib(n) + Fib(n + 1);
    }
  }

  lemma {:induction false} NodesCount(t: Tree)
    requires Distinct(t)
    ensures |Nodes(t)| == Size(t)
  {
    if t.E? {
    } else {
      NodesCount(t.l);
      NodesCount(t.r);
      assert |Nodes(t.l) + {t.n}| == |Nodes(t.l)| + 1;
    }
  }

  // A number of steps is at most logarithmic in n.
  ghost predicate Logarithmic(steps: nat, n: nat) { Pow2(steps / 2) <= n + 1 }

  /** Hence any number of steps up to the height is logarithmic in the number of nodes. */
  lemma HeightIsLogarithmic(t: Tree, steps: nat)
    requires Avl(t) && Distinct(t) && steps <= Height(t)
    ensures Logarithmic(steps, |Nodes(t)|)
  {
    hide Avl, Distinct, Height, Fib, Pow2, Nodes, Size;
    SizeAtLeastFib(t);
    FibDoubles(Height(t));
    NodesCount(t);
    Pow2Grows(steps / 2, Height(t) / 2);
  }
}
