/** The AVL tree itself (muggle/c/dsaa/avl_tree.c): linked nodes with parent pointers and
    stored balances, changed in place.  The node memory is a map from addresses to nodes;
    an address outside the map is not allocated.  A tree value (AvlShape.Tree) says what
    the links denote; a path value says how the current node hangs below the root. */
module AvlTree {
  import opened Ordering
  import opened AvlShape

  type Memory = map<Ptr, Node>

  function Root(t: Tree): Ptr { if t.E? then 0 else t.n }

  function ParentIn(p: Path): Ptr { if p.Top? then 0 else p.n }

  ghost function RootAbove(p: Path, n: Ptr): Ptr { if p.Top? then n else RootAbove(p.up, p.n) }

  // The links below the root of t, and its parent link, are as t says.
  ghost predicate Linked(h: Memory, t: Tree, parent: Ptr)
    decreases t
  {
    t.N? ==>
      && t.n != 0 && t.n in h && h[t.n] == Node(Root(t.l), Root(t.r), parent, t.b, t.k, t.v)
      && Linked(h, t.l, t.n) && Linked(h, t.r, t.n)
  }

  // The links above the hole are as p says, hole being the node there.
  ghost predicate LinkedPath(h: Memory, p: Path, hole: Ptr)
    decreases p
  {
    p.In? ==>
      && p.n != 0 && p.n in h
      && h[p.n] == Node(if p.left then hole else Root(p.sib), if p.left then Root(p.sib) else hole,
                        ParentIn(p.up), p.b, p.k, p.v)
      && Linked(h, p.sib, p.n) && LinkedPath(h, p.up, p.n)
  }

  // The memory holds exactly the tree made of t plugged into p.
  ghost predicate At(h: Memory, root: Ptr, p: Path, t: Tree) {
    && root == RootAbove(p, Root(t))
    && Linked(h, t, ParentIn(p)) && LinkedPath(h, p, Root(t))
    && Distinct(t) && PathDistinct(p) && Nodes(t) !! PathNodes(p)
    && Nodes(t) + PathNodes(p) == h.Keys && 0 !in h
  }

  // The nodes outside S are as before.
  ghost predicate Same(h: Memory, h': Memory, S: set<Ptr>) {
    h'.Keys == h.Keys && forall n :: n in h && n !in S ==> h'[n] == h[n]
  }

  lemma {:induction false} LinkedFrame(h: Memory, h': Memory, t: Tree, parent: Ptr, S: set<Ptr>)
    requires Linked(h, t, parent) && Same(h, h', S) && Nodes(t) !! S
    ensures Linked(h', t, parent)
    decreases t
  {
    if t.E? {
    } else {
      LinkedFrame(h, h', t.l, t.n, S);
      LinkedFrame(h, h', t.r, t.n, S);
    }
  }

  lemma {:induction false} PathFrame(h: Memory, h': Memory, p: Path, hole: Ptr, S: set<Ptr>)
    requires LinkedPath(h, p, hole) && Same(h, h', S) && PathNodes(p) !! S
    ensures LinkedPath(h', p, hole)
    decreases p
  {
    if p.Top? {
    } else {
      LinkedFrame(h, h', p.sib, p.n, S);
      PathFrame(h, h', p.up, p.n, S);
    }
  }

  // h' is h with the root of u given a new parent.
  ghost predicate Reparented(h: Memory, h': Memory, u: Tree, parent: Ptr) {
    u.N? ==> u.n in h && u.n in h' && h'[u.n] == h[u.n].(parent := parent)
  }

  lemma Adopted(h: Memory, h': Memory, t: Tree, parent: Ptr, parent': Ptr, S: set<Ptr>)
    requires Linked(h, t, parent) && Distinct(t) && Same(h, h', S) && Reparented(h, h', t, parent')
    requires t.N? ==> Nodes(t) * S <= {t.n}
    ensures Linked(h', t, parent')
  {
    if t.N? {
      LinkedFrame(h, h', t.l, t.n, S);
      LinkedFrame(h, h', t.r, t.n, S);
    }
  }

  // h' is h with hole put below the parent the path p leads to.
  ghost predicate Hung(h: Memory, h': Memory, p: Path, hole: Ptr) {
    p.In? ==>
      p.n in h && p.n in h' && h'[p.n] == (if p.left then h[p.n].(left := hole) else h[p.n].(right := hole))
  }

  lemma Rehung(h: Memory, h': Memory, p: Path, hole: Ptr, hole': Ptr, S: set<Ptr>)
    requires LinkedPath(h, p, hole) && PathDistinct(p) && Same(h, h', S) && Hung(h, h', p, hole')
    requires p.In? ==> PathNodes(p) * S <= {p.n}
    ensures LinkedPath(h', p, hole')
  {
    if p.In? {
      LinkedFrame(h, h', p.sib, p.n, S);
      PathFrame(h, h', p.up, p.n, S);
    }
  }

  lemma {:induction false} RootIsAbove(p: Path, n: Ptr)
    requires p.In?
    ensures RootAbove(p, n) in PathNodes(p)
    decreases p
  {
    if p.up.Top? {
    } else {
      RootIsAbove(p.up, p.n);
    }
  }

  // ---------------------------------------------------------------- moving the focus

  lemma Down(h: Memory, root: Ptr, p: Path, t: Tree, left: bool)
    requires At(h, root, p, t) && t.N?
    ensures At(h, root, DownPath(p, t, left), Kid(t, left))
    ensures Join(DownPath(p, t, left), Kid(t, left)) == t
  {
  }

  lemma Up(h: Memory, root: Ptr, p: Path, t: Tree)
    requires At(h, root, p, t) && p.In?
    ensures At(h, root, p.up, Join(p, t))
  {
  }

  lemma {:induction false} UpToTheRoot(h: Memory, root: Ptr, p: Path, t: Tree)
    requires At(h, root, p, t)
    ensures At(h, root, Top, Plug(p, t))
    decreases p
  {
    if p.Top? {
    } else {
      Up(h, root, p, t);
      UpToTheRoot(h, root, p.up, Join(p, t));
    }
  }

  // ---------------------------------------------------------------- changes to one node

  // What the current node holds.
  lemma RootIsNode(h: Memory, root: Ptr, p: Path, t: Tree)
    requires At(h, root, p, t)
    ensures t.N? ==> t.n != 0 && t.n in h && h[t.n] == Node(Root(t.l), Root(t.r), ParentIn(p), t.b, t.k, t.v)
    ensures t.N? ==> t.n in Nodes(t) && t.n !in PathNodes(p)
    ensures Root(t) == 0 <==> t.E?
  {
    hide LinkedPath, PathDistinct, Distinct;
    assert t.N? ==> t.n in Nodes(t);
  }

  // The search at the root, one level down, at a key found and at an empty place.
  lemma SearchStarts(cmp: Cmp, t: Tree, k: Ptr)
    ensures AllBelow(cmp, Before(Top), k) && AllAbove(cmp, After(Top), k) && Plug(Top, t) == t && Depth(Top) == 0
  {
  }

  lemma SearchGoesDown(p: Path, t: Tree, left: bool)
    requires t.N?
    ensures Depth(DownPath(p, t, left)) == Depth(p) + 1 && Height(Kid(t, left)) < Height(t)
    ensures Plug(DownPath(p, t, left), Kid(t, left)) == Plug(p, t)
  {
    PlugDown(p, t, left);
  }

  lemma SearchFinds(cmp: Cmp, p: Path, t: Tree, k: Ptr)
    requires t.N? && cmp(k, t.k) == 0
    ensures Present(cmp, Inorder(Plug(p, t)), k)
  {
    PlugInorder(p, t);
    assert Inorder(Plug(p, t))[|Before(p)| + |Inorder(t.l)|] == (t.k, t.v);
  }

  lemma SearchFails(cmp: Cmp, p: Path, k: Ptr)
    requires AllBelow(cmp, Before(p), k) && AllAbove(cmp, After(p), k)
    ensures !Present(cmp, Inorder(Plug(p, E)), k)
  {
    PlugInorder(p, E);
  }

  lemma RootIsHere(h: Memory, root: Ptr, t: Tree)
    requires At(h, root, Top, t)
    ensures root == Root(t) && (root == 0 <==> t.E?)
  {
  }

  // Storing a balance and data in the current node.
  lemma NodeStored(h: Memory, root: Ptr, p: Path, t: Tree, b: int, k: Ptr, v: Ptr)
    requires At(h, root, p, t) && t.N?
    ensures t.n in h && h[t.n].balance == t.b && h[t.n].key == t.k && h[t.n].value == t.v
    ensures At(h[t.n := h[t.n].(balance := b, key := k, value := v)], root, p, t.(b := b, k := k, v := v))
  {
    var h' := h[t.n := h[t.n].(balance := b, key := k, value := v)];
    assert t.n in Nodes(t) && Same(h, h', {t.n});
    LinkedFrame(h, h', t.l, t.n, {t.n});
    LinkedFrame(h, h', t.r, t.n, {t.n});
    PathFrame(h, h', p, t.n, {t.n});
  }

  // More memory does not disturb what is stored.
  lemma {:induction false} LinkedGrow(h: Memory, g: Memory, t: Tree, parent: Ptr)
    requires Linked(h, t, parent) && h.Keys <= g.Keys && forall n :: n in h ==> g[n] == h[n]
    ensures Linked(g, t, parent)
    decreases t
  {
    if t.E? {
    } else {
      LinkedGrow(h, g, t.l, t.n);
      LinkedGrow(h, g, t.r, t.n);
    }
  }

  lemma {:induction false} PathGrow(h: Memory, g: Memory, p: Path, hole: Ptr)
    requires LinkedPath(h, p, hole) && h.Keys <= g.Keys && forall n :: n in h ==> g[n] == h[n]
    ensures LinkedPath(g, p, hole)
    decreases p
  {
    if p.Top? {
    } else {
      LinkedGrow(h, g, p.sib, p.n);
      PathGrow(h, g, p.up, p.n);
    }
  }

  lemma LeafLinked(h: Memory, h': Memory, t: Tree, parent: Ptr, left: bool, a: Ptr, k: Ptr, v: Ptr)
    requires Linked(h, t, parent) && t.N? && Kid(t, left).E? && Distinct(t) && a !in h && a !in Nodes(t) && a != 0
    requires h'.Keys == h.Keys + {a} && h'[a] == Node(0, 0, t.n, 0, k, v)
    requires forall n :: n in h && n != t.n ==> h'[n] == h[n]
    requires h'[t.n] == if left then h[t.n].(left := a) else h[t.n].(right := a)
    ensures Linked(h', WithKid(t, left, N(E, a, k, v, 0, E)), parent)
  {
    var o := Kid(t, !left);
    var g := h'[t.n := h[t.n]];
    LinkedGrow(h, g, o, t.n);
    LinkedFrame(g, h', o, t.n, {t.n});
    assert Linked(h', N(E, a, k, v, 0, E), t.n);
  }

  lemma LeafBelowPath(h: Memory, h': Memory, p: Path, n: Ptr, a: Ptr)
    requires LinkedPath(h, p, n) && n in h && n !in PathNodes(p) && a !in h
    requires h'.Keys == h.Keys + {a} && forall m :: m in h && m != n ==> h'[m] == h[m]
    ensures LinkedPath(h', p, n)
  {
    var g := h'[n := h[n]];
    PathGrow(h, g, p, n);
    PathFrame(g, h', p, n, {n});
  }

  lemma LeafNodes(t: Tree, left: bool, leaf: Tree)
    requires t.N? && Kid(t, left).E? && Distinct(t) && leaf.N? && leaf.l.E? && leaf.r.E? && leaf.n !in Nodes(t)
    ensures Nodes(WithKid(t, left, leaf)) == Nodes(t) + {leaf.n} && Distinct(WithKid(t, left, leaf))
  {
    assert Nodes(leaf) == {leaf.n};
  }

  // A new node below the current one.
  lemma LeafStored(h: Memory, root: Ptr, p: Path, t: Tree, left: bool, a: Ptr, k: Ptr, v: Ptr)
    requires At(h, root, p, t) && t.N? && Kid(t, left).E? && a != 0 && a !in h
    ensures t.n in h
    ensures var m := h[t.n];
            var h' := h[t.n := if left then m.(left := a) else m.(right := a)][a := Node(0, 0, t.n, 0, k, v)];
            At(h', root, p, WithKid(t, left, N(E, a, k, v, 0, E)))
  {
    RootIsNode(h, root, p, t);
    hide Linked, LinkedPath, Nodes, PathNodes, Distinct, PathDistinct;
    var m := h[t.n];
    var h' := h[t.n := if left then m.(left := a) else m.(right := a)][a := Node(0, 0, t.n, 0, k, v)];
    LeafNodes(t, left, N(E, a, k, v, 0, E));
    LeafLinked(h, h', t, ParentIn(p), left, a, k, v);
    LeafBelowPath(h, h', p, t.n, a);
  }

  // Which child of its parent the current node is.
  lemma SideOfParent(h: Memory, root: Ptr, p: Path, t: Tree)
    requires At(h, root, p, t) && t.N?
    ensures t.n in h && h[t.n].parent == ParentIn(p)
    ensures p.In? ==> p.n != 0 && p.n in h && (h[p.n].left == t.n <==> p.left)
  {
    assert t.n in Nodes(t);
    assert p.In? && p.sib.N? ==> p.sib.n in Nodes(p.sib) && Nodes(p.sib) <= PathNodes(p);
  }

  lemma {:induction false} CellsAreStored(h: Memory, t: Tree, parent: Ptr, n: Ptr, k: Ptr, v: Ptr)
    requires Linked(h, t, parent) && (n, k, v) in Cells(t)
    ensures n in Nodes(t) && n in h && h[n].key == k && h[n].value == v
    decreases t
  {
    if (n, k, v) == (t.n, t.k, t.v) {
    } else if (n, k, v) in Cells(t.l) {
      CellsAreStored(h, t.l, t.n, n, k, v);
    } else {
      CellsAreStored(h, t.r, t.n, n, k, v);
    }
  }

  // The last node given back.
  lemma OnlyLeaf(h: Memory, root: Ptr, p: Path, t: Tree)
    requires At(h, root, p, t) && t.N? && t.l.E? && t.r.E? && p.Top?
    ensures At(h - {t.n}, 0, Top, E) && Avl(E) && Plug(p, E) == E
  {
    assert Nodes(t) == {t.n};
  }

  // A leaf cut off from its parent and given back.
  lemma LeafErased(h: Memory, root: Ptr, p: Path, t: Tree)
    requires At(h, root, p, t) && t.N? && t.l.E? && t.r.E? && p.In?
    ensures p.n in h
    ensures var m := h[p.n];
            At(h[p.n := if p.left then m.(left := 0) else m.(right := 0)] - {t.n}, root, p, E)
  {
    var m := h[p.n];
    var h1 := h[p.n := if p.left then m.(left := 0) else m.(right := 0)];
    assert Nodes(t) == {t.n} && p.n in PathNodes(p);
    Rehung(h, h1, p, t.n, 0, {p.n});
    PathShrink(h1, h1 - {t.n}, p, 0);
  }

  lemma {:induction false} LinkedShrink(h: Memory, g: Memory, t: Tree, parent: Ptr)
    requires Linked(h, t, parent) && Nodes(t) <= g.Keys && forall n :: n in g ==> n in h && g[n] == h[n]
    ensures Linked(g, t, parent)
    decreases t
  {
    if t.E? {
    } else {
      LinkedShrink(h, g, t.l, t.n);
      LinkedShrink(h, g, t.r, t.n);
    }
  }

  lemma {:induction false} PathShrink(h: Memory, g: Memory, p: Path, hole: Ptr)
    requires LinkedPath(h, p, hole) && PathNodes(p) <= g.Keys && forall n :: n in g ==> n in h && g[n] == h[n]
    ensures LinkedPath(g, p, hole)
    decreases p
  {
    if p.Top? {
    } else {
      LinkedShrink(h, g, p.sib, p.n);
      PathShrink(h, g, p.up, p.n);
    }
  }

  lemma {:induction false} FarAt(h: Memory, root: Ptr, p: Path, u: Tree, left: bool)
    requires At(h, root, p, u) && u.N?
    ensures At(h, root, FarPath(p, u, left), FarTree(u, left))
    decreases u
  {
    hide At;
    if Kid(u, left).E? {
    } else {
      Down(h, root, p, u, left);
      FarAt(h, root, DownPath(p, u, left), Kid(u, left), left);
    }
  }

  // Every node of the tree can be brought into focus.
  lemma {:induction false} Locate(h: Memory, root: Ptr, p: Path, t: Tree, n: Ptr) returns (q: Path, u: Tree)
    requires At(h, root, p, t) && n in Nodes(t)
    ensures At(h, root, q, u) && u.N? && u.n == n && Plug(q, u) == Plug(p, t)
    decreases t
  {
    hide At;
    if n == t.n {
      q, u := p, t;
    } else {
      var left := n in Nodes(t.l);
      Down(h, root, p, t, left);
      q, u := Locate(h, root, DownPath(p, t, left), Kid(t, left), n);
    }
  }

  // ---------------------------------------------------------------- rotations

  lemma SameKeys(h: Memory, h': Memory, S: set<Ptr>)
    requires Same(h, h', S)
    ensures h'.Keys == h.Keys
  {
  }

  // The subtrees a single rotation moves around share nothing with what it rewrites.
  lemma OncePartsApart(h: Memory, p: Path, t: Tree, left: bool)
    requires t.N? && Distinct(t) && Nodes(t) !! PathNodes(p) && Kid(t, left).N? && 0 !in Nodes(t) + PathNodes(p)
    ensures var z, t1 := Kid(t, left), Kid(t, !left);
            var inner, outer := Kid(z, !left), Kid(z, left);
            var S := {t.n, z.n, Root(inner), ParentIn(p)};
            && Distinct(inner) && Nodes(t1) !! S && Nodes(outer) !! S
            && (inner.N? ==> Nodes(inner) * S <= {inner.n})
            && (p.In? ==> PathNodes(p) * S <= {p.n})
  {
    var inner := Kid(Kid(t, left), !left);
    assert Distinct(Kid(t, left));
    assert inner.N? ==> inner.n in Nodes(inner);
    assert p.In? ==> p.n in PathNodes(p);
  }

  // A node whose child on the given side is a and whose other child is c.
  function Sided(left: bool, a: Ptr, c: Ptr, parent: Ptr, b: int, k: Ptr, v: Ptr): Node {
    if left then Node(a, c, parent, b, k, v) else Node(c, a, parent, b, k, v)
  }

  // What a single rotation does to the memory: the child z of t on the given side comes up,
  // its inner subtree changes sides.
  ghost predicate TurnedOnce(h: Memory, h': Memory, p: Path, t: Tree, left: bool)
    requires t.N? && Kid(t, left).N?
  {
    var z, y := Kid(t, left), if left then RotateRight(t) else RotateLeft(t);
    var inner, outer := Kid(z, !left), Kid(z, left);
    && t.n in h' && h'[t.n] == Sided(left, Root(inner), Root(Kid(t, !left)), z.n, Kid(y, !left).b, t.k, t.v)
    && z.n in h' && h'[z.n] == Sided(left, Root(outer), t.n, ParentIn(p), y.b, z.k, z.v)
    && Reparented(h, h', inner, t.n) && Hung(h, h', p, z.n)
    && Same(h, h', {t.n, z.n, Root(inner), ParentIn(p)})
  }

  lemma OnceSpine(h: Memory, h': Memory, p: Path, t: Tree, left: bool)
    requires t.N? && Kid(t, left).N? && TurnedOnce(h, h', p, t, left) && t.n != 0 && Kid(t, left).n != 0
    requires var z := Kid(t, left);
             && Linked(h', Kid(t, !left), t.n) && Linked(h', Kid(z, !left), t.n) && Linked(h', Kid(z, left), z.n)
    ensures Linked(h', if left then RotateRight(t) else RotateLeft(t), ParentIn(p))
  {
    var z, y := Kid(t, left), if left then RotateRight(t) else RotateLeft(t);
    assert Linked(h', Kid(y, !left), z.n);
  }

  lemma TurnedOnceLinked(h: Memory, h': Memory, root: Ptr, p: Path, t: Tree, left: bool)
    requires At(h, root, p, t) && t.N? && Kid(t, left).N? && TurnedOnce(h, h', p, t, left)
    ensures At(h', RootAbove(p, Kid(t, left).n), p, if left then RotateRight(t) else RotateLeft(t))
  {
    hide Distinct, PathDistinct, Nodes, PathNodes, Inorder, Size, Same, Cells;
    var z := Kid(t, left);
    var inner, outer, t1 := Kid(z, !left), Kid(z, left), Kid(t, !left);
    var S := {t.n, z.n, Root(inner), ParentIn(p)};
    if left { RotateRightRearranges(t); } else { RotateLeftRearranges(t); }
    assert Linked(h, z, t.n);
    OncePartsApart(h, p, t, left);
    LinkedFrame(h, h', t1, t.n, S);
    LinkedFrame(h, h', outer, z.n, S);
    Adopted(h, h', inner, z.n, t.n, S);
    Rehung(h, h', p, t.n, z.n, S);
    OnceSpine(h, h', p, t, left);
    SameKeys(h, h', S);
  }

  // The nodes a single rotation handles, and what they hold beforehand.
  lemma OnceNodes(h: Memory, root: Ptr, p: Path, t: Tree, left: bool)
    requires At(h, root, p, t) && t.N? && Kid(t, left).N?
    ensures var z := Kid(t, left); var inner := Kid(z, !left);
            && t.n in h && h[t.n] == Sided(left, z.n, Root(Kid(t, !left)), ParentIn(p), t.b, t.k, t.v)
            && z.n in h && h[z.n] == Sided(left, Root(Kid(z, left)), Root(inner), t.n, z.b, z.k, z.v)
            && 0 !in {t.n, z.n} && t.n != z.n && t.n !in PathNodes(p) && z.n !in PathNodes(p)
            && (inner.N? ==> inner.n in h && inner.n !in {0, t.n, z.n, ParentIn(p)})
            && (p.In? ==> p.n in h && p.n !in {0, t.n, z.n} && Root(p.sib) != t.n)
  {
    var z := Kid(t, left);
    var inner := Kid(z, !left);
    assert Linked(h, z, t.n) && Distinct(z);
    assert z.n in Nodes(z) && (inner.N? ==> inner.n in Nodes(inner));
    assert p.In? ==> p.n in PathNodes(p) && Nodes(p.sib) <= PathNodes(p);
    assert p.In? && p.sib.N? ==> p.sib.n in Nodes(p.sib);
  }

  lemma TwiceNodes(h: Memory, root: Ptr, p: Path, t: Tree, left: bool)
    requires At(h, root, p, t) && t.N? && Kid(t, left).N? && Kid(Kid(t, left), !left).N?
    ensures var z := Kid(t, left); var y := Kid(z, !left); var toX, toZ := Kid(y, !left), Kid(y, left);
            && y.n in h && h[y.n] == Sided(left, Root(toZ), Root(toX), z.n, y.b, y.k, y.v) && y.n !in PathNodes(p)
            && (toX.N? ==> toX.n in h && toX.n !in {0, t.n, z.n, y.n, Root(toZ), ParentIn(p)})
            && (toZ.N? ==> toZ.n in h && toZ.n !in {0, t.n, z.n, y.n, Root(toX), ParentIn(p)})
  {
    var z := Kid(t, left);
    var y := Kid(z, !left);
    var toX, toZ := Kid(y, !left), Kid(y, left);
    assert Linked(h, z, t.n) && Linked(h, y, z.n) && Distinct(z) && Distinct(y);
    assert Nodes(y) == Nodes(toX) + {y.n} + Nodes(toZ) && Nodes(y) <= Nodes(z) <= Nodes(t);
    assert (toX.N? ==> toX.n in Nodes(toX)) && (toZ.N? ==> toZ.n in Nodes(toZ));
    assert p.In? ==> p.n in PathNodes(p);
  }

  // What a double rotation does: the inner grandchild y comes up, its subtrees are shared out.
  ghost predicate TurnedTwice(h: Memory, h': Memory, p: Path, t: Tree, left: bool)
    requires t.N? && Kid(t, left).N? && Kid(Kid(t, left), !left).N?
  {
    var z := Kid(t, left);
    var y, u := Kid(z, !left), if left then RotateLeftRight(t) else RotateRightLeft(t);
    var toX, toZ := Kid(y, !left), Kid(y, left);
    && t.n in h' && h'[t.n] == Sided(left, Root(toX), Root(Kid(t, !left)), y.n, Kid(u, !left).b, t.k, t.v)
    && z.n in h' && h'[z.n] == Sided(left, Root(Kid(z, left)), Root(toZ), y.n, Kid(u, left).b, z.k, z.v)
    && y.n in h' && h'[y.n] == Sided(left, z.n, t.n, ParentIn(p), 0, y.k, y.v)
    && Reparented(h, h', toX, t.n) && Reparented(h, h', toZ, z.n) && Hung(h, h', p, y.n)
    && Same(h, h', {t.n, z.n, y.n, Root(toX), Root(toZ), ParentIn(p)})
  }

  lemma TwicePartsApart(h: Memory, p: Path, t: Tree, left: bool)
    requires t.N? && Distinct(t) && Nodes(t) !! PathNodes(p) && 0 !in Nodes(t) + PathNodes(p)
    requires Kid(t, left).N? && Kid(Kid(t, left), !left).N?
    ensures var z := Kid(t, left);
            var y := Kid(z, !left);
            var toX, toZ := Kid(y, !left), Kid(y, left);
            var S := {t.n, z.n, y.n, Root(toX), Root(toZ), ParentIn(p)};
            && Distinct(toX) && Distinct(toZ) && Nodes(Kid(t, !left)) !! S && Nodes(Kid(z, left)) !! S
            && (toX.N? ==> Nodes(toX) * S <= {toX.n}) && (toZ.N? ==> Nodes(toZ) * S <= {toZ.n})
            && (p.In? ==> PathNodes(p) * S <= {p.n})
  {
    var z := Kid(t, left);
    var y := Kid(z, !left);
    var toX, toZ := Kid(y, !left), Kid(y, left);
    assert Distinct(z) && Distinct(y);
    assert Nodes(z) == Nodes(Kid(z, left)) + {z.n} + Nodes(y) && Nodes(y) == Nodes(toX) + {y.n} + Nodes(toZ);
    assert (toX.N? ==> toX.n in Nodes(toX)) && (toZ.N? ==> toZ.n in Nodes(toZ));
    assert p.In? ==> p.n in PathNodes(p);
  }

  lemma TwiceSpine(h: Memory, h': Memory, p: Path, t: Tree, left: bool)
    requires t.N? && Kid(t, left).N? && Kid(Kid(t, left), !left).N? && TurnedTwice(h, h', p, t, left)
    requires t.n != 0 && Kid(t, left).n != 0 && Kid(Kid(t, left), !left).n != 0
    requires var z := Kid(t, left); var y := Kid(z, !left);
             && Linked(h', Kid(t, !left), t.n) && Linked(h', Kid(y, !left), t.n)
             && Linked(h', Kid(z, left), z.n) && Linked(h', Kid(y, left), z.n)
    ensures Linked(h', if left then RotateLeftRight(t) else RotateRightLeft(t), ParentIn(p))
  {
    var y, u := Kid(Kid(t, left), !left), if left then RotateLeftRight(t) else RotateRightLeft(t);
    assert Linked(h', Kid(u, !left), y.n) && Linked(h', Kid(u, left), y.n);
  }

  lemma TurnedTwiceLinked(h: Memory, h': Memory, root: Ptr, p: Path, t: Tree, left: bool)
    requires At(h, root, p, t) && t.N? && Kid(t, left).N? && Kid(Kid(t, left), !left).N?
    requires TurnedTwice(h, h', p, t, left)
    ensures At(h', RootAbove(p, Kid(Kid(t, left), !left).n), p, if left then RotateLeftRight(t) else RotateRightLeft(t))
  {
    hide Distinct, PathDistinct, Nodes, PathNodes, Inorder, Size, Same, Cells;
    var z := Kid(t, left);
    var y := Kid(z, !left);
    var toX, toZ := Kid(y, !left), Kid(y, left);
    var S := {t.n, z.n, y.n, Root(toX), Root(toZ), ParentIn(p)};
    if left { RotateLeftRightRearranges(t); } else { RotateRightLeftRearranges(t); }
    assert Linked(h, z, t.n) && Linked(h, y, z.n);
    TwicePartsApart(h, p, t, left);
    LinkedFrame(h, h', Kid(t, !left), t.n, S);
    LinkedFrame(h, h', Kid(z, left), z.n, S);
    Adopted(h, h', toX, y.n, t.n, S);
    Adopted(h, h', toZ, y.n, z.n, S);
    Rehung(h, h', p, t.n, y.n, S);
    TwiceSpine(h, h', p, t, left);
    SameKeys(h, h', S);
  }

  // Shares the subtrees of y out between x and z, which become its children: z on the
  // side where it hangs below x.
  ghost predicate Shared(h: Memory, h': Memory, x: Ptr, z: Ptr, y: Ptr, left: bool)
    requires x in h && z in h && y in h
  {
    var toX, toZ := if left then h[y].right else h[y].left, if left then h[y].left else h[y].right;
    var bx, bz := if left then (if h[y].balance < 0 then 1 else 0) else (if h[y].balance > 0 then -1 else 0),
                  if left then (if h[y].balance > 0 then -1 else 0) else (if h[y].balance < 0 then 1 else 0);
    && Same(h, h', {x, z, y, toX, toZ})
    && h'[x] == (if left then h[x].(left := toX, parent := y, balance := bx)
                 else h[x].(right := toX, parent := y, balance := bx))
    && h'[z] == (if left then h[z].(right := toZ, parent := y, balance := bz)
                 else h[z].(left := toZ, parent := y, balance := bz))
    && h'[y] == (if left then h[y].(left := z, right := x, balance := 0)
                 else h[y].(left := x, right := z, balance := 0))
    && (toX != 0 ==> toX in h && h'[toX] == h[toX].(parent := x))
    && (toZ != 0 ==> toZ in h && h'[toZ] == h[toZ].(parent := z))
  }

  ghost predicate AllDifferent(h: Memory, x: Ptr, z: Ptr, y: Ptr) {
    && x in h && z in h && y in h && x != z && x != y && y != z && 0 !in {x, y, z}
    && var l, r := h[y].left, h[y].right;
    && (l != 0 ==> l in h && l !in {x, y, z, r})
    && (r != 0 ==> r in h && r !in {x, y, z, l})
  }

  lemma SharedKeys(h: Memory, h': Memory, x: Ptr, z: Ptr, y: Ptr, left: bool)
    requires x in h && z in h && y in h && Shared(h, h', x, z, y, left)
    ensures h'.Keys == h.Keys
  {
  }

  // Once y hangs below the parent of t, what is still to be shared out.
  lemma TwiceReady(h: Memory, h1: Memory, root: Ptr, p: Path, t: Tree, left: bool)
    requires At(h, root, p, t) && t.N? && Kid(t, left).N? && Kid(Kid(t, left), !left).N?
    requires var y := Kid(Kid(t, left), !left);
             && Same(h, h1, {y.n, ParentIn(p)}) && y.n in h1
             && h1[y.n] == Sided(left, Root(Kid(y, left)), Root(Kid(y, !left)), ParentIn(p), y.b, y.k, y.v)
    ensures AllDifferent(h1, t.n, Kid(t, left).n, Kid(Kid(t, left), !left).n)
  {
    hide Linked, LinkedPath, Nodes, PathNodes, Distinct, PathDistinct;
    OnceNodes(h, root, p, t, left);
    TwiceNodes(h, root, p, t, left);
  }

  lemma TwiceDone(h: Memory, h1: Memory, h2: Memory, root: Ptr, p: Path, t: Tree, left: bool)
    requires At(h, root, p, t) && t.N? && Kid(t, left).N? && Kid(Kid(t, left), !left).N?
    requires var z, y := Kid(t, left), Kid(Kid(t, left), !left);
             && Same(h, h1, {y.n, ParentIn(p)}) && y.n in h1 && Hung(h, h1, p, y.n)
             && h1[y.n] == Sided(left, Root(Kid(y, left)), Root(Kid(y, !left)), ParentIn(p), y.b, y.k, y.v)
             && t.n in h1 && z.n in h1 && Shared(h1, h2, t.n, z.n, y.n, left)
    ensures TurnedTwice(h, h2, p, t, left)
  {
    hide Linked, LinkedPath, Nodes, PathNodes, Distinct, PathDistinct;
    OnceNodes(h, root, p, t, left);
    TwiceNodes(h, root, p, t, left);
  }

  class AvlTree {
    var root: Ptr
    var mem: Memory
    const cmp: Cmp
    ghost var shape: Tree

    ghost predicate Valid()
      reads this
    {
      && TotalPreorder(cmp)
      && At(mem, root, Top, shape) && Avl(shape) && Sorted(cmp, Inorder(shape))
    }

    constructor (cmp: Cmp)
      requires TotalPreorder(cmp)
      ensures Valid() && shape == E && this.cmp == cmp
    {
      this.cmp := cmp;
      root, mem, shape := 0, map[], E;
    }

    // The part common to the four rotations: z takes the place of x below x's parent.
    method Replace(x: Ptr, z: Ptr, ghost p: Path)
      requires x in mem && z in mem && x != z && 0 !in mem && mem[x].parent == ParentIn(p)
      requires root == RootAbove(p, x) && LinkedPath(mem, p, x) && x !in PathNodes(p) && z !in PathNodes(p)
      requires p.In? ==> x != Root(p.sib)
      modifies this`root, this`mem
      ensures root == RootAbove(p, z) && mem.Keys == old(mem.Keys)
      ensures mem[z] == old(mem)[z].(parent := ParentIn(p)) && Hung(old(mem), mem, p, z)
      ensures Same(old(mem), mem, {z, ParentIn(p)})
    {
      if p.In? {
        RootIsAbove(p, x);
      }
      hide PathNodes;
      var parent := mem[x].parent;
      if parent != 0 {
        if x == mem[parent].left {
          mem := mem[parent := mem[parent].(left := z)];
        } else {
          mem := mem[parent := mem[parent].(right := z)];
        }
      }
      mem := mem[z := mem[z].(parent := parent)];
      if root == x {
        root := z;
      }
    }

    // Makes c, if there is one, the child of x on the given side.
    method Attach(x: Ptr, c: Ptr, left: bool)
      requires x in mem && c != x && (c != 0 ==> c in mem)
      modifies this`mem
      ensures Same(old(mem), mem, {x, c})
      ensures mem[x] == (if left then old(mem)[x].(left := c) else old(mem)[x].(right := c))
      ensures c != 0 ==> mem[c] == old(mem)[c].(parent := x)
    {
      mem := mem[x := if left then mem[x].(left := c) else mem[x].(right := c)];
      if c != 0 {
        mem := mem[c := mem[c].(parent := x)];
      }
    }

    // The rest of a left rotation, once z hangs below x's old parent.
    method TurnLeft(x: Ptr, z: Ptr) returns (shrunk: bool)
      requires x in mem && z in mem && x != z && x != 0 && z != 0
      requires var c := mem[z].left; c != 0 ==> c in mem && c != x && c != z
      modifies this`mem
      ensures var c, h := old(mem)[z].left, old(mem);
              && shrunk == (h[z].balance != 0) && Same(h, mem, {x, z, c})
              && mem[x] == h[x].(right := c, parent := z, balance := if shrunk then 0 else 1)
              && mem[z] == h[z].(left := x, balance := if shrunk then 0 else -1)
              && (c != 0 ==> mem[c] == h[c].(parent := x))
    {
      Attach(x, mem[z].left, false);
      Attach(z, x, true);
      if mem[z].balance == 0 {
        mem := mem[x := mem[x].(balance := 1)];
        mem := mem[z := mem[z].(balance := -1)];
        shrunk := false;
      } else {
        mem := mem[x := mem[x].(balance := 0)];
        mem := mem[z := mem[z].(balance := 0)];
        shrunk := true;
      }
    }

    method RotateLeftAt(node: Ptr, ghost p: Path, ghost t: Tree) returns (shrunk: bool)
      requires At(mem, root, p, t) && t.N? && t.n == node && t.b == 2 && t.r.N? && (t.r.b == 0 || t.r.b == 1)
      modifies this`root, this`mem
      ensures At(mem, root, p, RotateLeft(t)) && shrunk == (t.r.b != 0)
      ensures mem.Keys == old(mem.Keys)
    {
      hide Nodes, PathNodes, Distinct, PathDistinct, Linked, LinkedPath;
      ghost var h, r := mem, root;
      OnceNodes(h, r, p, t, false);
      var x := node;
      var z := mem[x].right;
      Replace(x, z, p);
      shrunk := TurnLeft(x, z);
      TurnedOnceLinked(h, mem, r, p, t, false);
    }

    // The rest of a right rotation, once z hangs below x's old parent.
    method TurnRight(x: Ptr, z: Ptr) returns (shrunk: bool)
      requires x in mem && z in mem && x != z && x != 0 && z != 0
      requires var c := mem[z].right; c != 0 ==> c in mem && c != x && c != z
      modifies this`mem
      ensures var c, h := old(mem)[z].right, old(mem);
              && shrunk == (h[z].balance != 0) && Same(h, mem, {x, z, c})
              && mem[x] == h[x].(left := c, parent := z, balance := if shrunk then 0 else -1)
              && mem[z] == h[z].(right := x, balance := if shrunk then 0 else 1)
              && (c != 0 ==> mem[c] == h[c].(parent := x))
    {
      Attach(x, mem[z].right, true);
      Attach(z, x, false);
      if mem[z].balance == 0 {
        mem := mem[x := mem[x].(balance := -1)];
        mem := mem[z := mem[z].(balance := 1)];
        shrunk := false;
      } else {
        mem := mem[x := mem[x].(balance := 0)];
        mem := mem[z := mem[z].(balance := 0)];
        shrunk := true;
      }
    }

    method RotateRightAt(node: Ptr, ghost p: Path, ghost t: Tree) returns (shrunk: bool)
      requires At(mem, root, p, t) && t.N? && t.n == node && t.b == -2 && t.l.N? && (t.l.b == 0 || t.l.b == -1)
      modifies this`root, this`mem
      ensures At(mem, root, p, RotateRight(t)) && shrunk == (t.l.b != 0)
      ensures mem.Keys == old(mem.Keys)
    {
      hide Nodes, PathNodes, Distinct, PathDistinct, Linked, LinkedPath;
      ghost var h, r := mem, root;
      OnceNodes(h, r, p, t, true);
      var x := node;
      var z := mem[x].left;
      Replace(x, z, p);
      shrunk := TurnRight(x, z);
      TurnedOnceLinked(h, mem, r, p, t, true);
    }

    // The subtrees of y go below x and z.
    method ShareOut(x: Ptr, z: Ptr, y: Ptr, toX: Ptr, toZ: Ptr, left: bool)
      requires AllDifferent(mem, x, z, y) && toX == (if left then mem[y].right else mem[y].left)
      requires toZ == if left then mem[y].left else mem[y].right
      modifies this`mem
      ensures Same(old(mem), mem, {x, z, toX, toZ}) && mem[y] == old(mem)[y]
      ensures mem[x] == if left then old(mem)[x].(left := toX) else old(mem)[x].(right := toX)
      ensures mem[z] == if left then old(mem)[z].(right := toZ) else old(mem)[z].(left := toZ)
      ensures toX != 0 ==> mem[toX] == old(mem)[toX].(parent := x)
      ensures toZ != 0 ==> mem[toZ] == old(mem)[toZ].(parent := z)
    {
      Attach(x, toX, left);
      Attach(z, toZ, !left);
    }

    // a and c become the children of y.
    method Crown(y: Ptr, a: Ptr, c: Ptr)
      requires y in mem && a in mem && c in mem && a != c && a != y && c != y && 0 !in {a, c}
      modifies this`mem
      ensures Same(old(mem), mem, {y, a, c}) && mem[y] == old(mem)[y].(left := a, right := c)
      ensures mem[a] == old(mem)[a].(parent := y) && mem[c] == old(mem)[c].(parent := y)
    {
      Attach(y, a, true);
      Attach(y, c, false);
    }

    method TurnRightLeft(x: Ptr, z: Ptr, y: Ptr)
      requires AllDifferent(mem, x, z, y)
      modifies this`mem
      ensures Shared(old(mem), mem, x, z, y, false)
    {
      ShareOut(x, z, y, mem[y].left, mem[y].right, false);
      Crown(y, x, z);
      SetBalances(x, z, y, if mem[y].balance > 0 then -1 else 0, if mem[y].balance < 0 then 1 else 0);
    }

    method TurnLeftRight(x: Ptr, z: Ptr, y: Ptr)
      requires AllDifferent(mem, x, z, y)
      modifies this`mem
      ensures Shared(old(mem), mem, x, z, y, true)
    {
      ShareOut(x, z, y, mem[y].right, mem[y].left, true);
      Crown(y, z, x);
      SetBalances(x, z, y, if mem[y].balance < 0 then 1 else 0, if mem[y].balance > 0 then -1 else 0);
    }

    method SetBalances(x: Ptr, z: Ptr, y: Ptr, bx: int, bz: int)
      requires x in mem && z in mem && y in mem && x != z && x != y && y != z
      modifies this`mem
      ensures var h := old(mem);
              mem == h[x := h[x].(balance := bx)][z := h[z].(balance := bz)][y := h[y].(balance := 0)]
    {
      mem := mem[x := mem[x].(balance := bx)];
      mem := mem[z := mem[z].(balance := bz)];
      mem := mem[y := mem[y].(balance := 0)];
    }

    method RotateRightLeftAt(node: Ptr, ghost p: Path, ghost t: Tree)
      requires At(mem, root, p, t) && t.N? && t.n == node && t.b == 2 && t.r.N? && t.r.b == -1 && t.r.l.N?
      modifies this`root, this`mem
      ensures At(mem, root, p, RotateRightLeft(t))
      ensures mem.Keys == old(mem.Keys)
    {
      hide Nodes, PathNodes, Distinct, PathDistinct, Linked, LinkedPath, Shared, TurnedTwice, Hung, AllDifferent;
      ghost var h, r := mem, root;
      OnceNodes(h, r, p, t, false);
      TwiceNodes(h, r, p, t, false);
      var x := node;
      var z := mem[x].right;
      var y := mem[z].left;
      Replace(x, y, p);
      ghost var h1 := mem;
      TwiceReady(h, h1, r, p, t, false);
      TurnRightLeft(x, z, y);
      TwiceDone(h, h1, mem, r, p, t, false);
      TurnedTwiceLinked(h, mem, r, p, t, false);
      SharedKeys(h1, mem, x, z, y, false);
    }

    method RotateLeftRightAt(node: Ptr, ghost p: Path, ghost t: Tree)
      requires At(mem, root, p, t) && t.N? && t.n == node && t.b == -2 && t.l.N? && t.l.b == 1 && t.l.r.N?
      modifies this`root, this`mem
      ensures At(mem, root, p, RotateLeftRight(t))
      ensures mem.Keys == old(mem.Keys)
    {
      hide Nodes, PathNodes, Distinct, PathDistinct, Linked, LinkedPath, Shared, TurnedTwice, Hung, AllDifferent;
      ghost var h, r := mem, root;
      OnceNodes(h, r, p, t, true);
      TwiceNodes(h, r, p, t, true);
      var x := node;
      var z := mem[x].left;
      var y := mem[z].right;
      Replace(x, y, p);
      ghost var h1 := mem;
      TwiceReady(h, h1, r, p, t, true);
      TurnLeftRight(x, z, y);
      TwiceDone(h, h1, mem, r, p, t, true);
      TurnedTwiceLinked(h, mem, r, p, t, true);
      SharedKeys(h1, mem, x, z, y, true);
    }

    method Rebalance(node: Ptr, ghost p: Path, ghost t: Tree) returns (shrunk: bool)
      requires At(mem, root, p, t) && t.N? && t.n == node && (Tilted(t) || -1 <= t.b <= 1)
      modifies this`root, this`mem
      ensures Tilted(t) ==> At(mem, root, p, Rebalanced(t)) && shrunk == Shrinks(t)
      ensures !Tilted(t) ==> !shrunk && mem == old(mem) && root == old(root)
      ensures mem.Keys == old(mem.Keys)
    {
      hide Distinct;
      hide PathDistinct;
      hide Nodes;
      hide PathNodes;
      hide LinkedPath;
      if Tilted(t) {
        assert Linked(mem, t.l, t.n) && Linked(mem, t.r, t.n);
      }
      if mem[node].balance < -1 {
        var child := mem[node].left;
        if mem[child].balance <= 0 {
          shrunk := RotateRightAt(node, p, t);
        } else {
          RotateLeftRightAt(node, p, t);
          shrunk := true;
        }
      } else if mem[node].balance > 1 {
        var child := mem[node].right;
        if mem[child].balance >= 0 {
          shrunk := RotateLeftAt(node, p, t);
        } else {
          RotateRightLeftAt(node, p, t);
          shrunk := true;
        }
      } else {
        shrunk := false;
      }
    }

    method Find(data: Ptr) returns (result: Ptr, ghost steps: nat)
      requires Valid()
      ensures result != 0 ==> result in mem && cmp(data, mem[result].key) == 0
      ensures result == 0 <==> !Present(cmp, Inorder(shape), data)
      ensures steps <= Height(shape) && Logarithmic(steps, |mem.Keys|)
    {
      hide At, Avl, Sorted, Inorder, Before, After, Plug, Height, Depth, AllBelow, AllAbove, Present, Logarithmic;
      FewSteps(mem, root, shape);
      SearchStarts(cmp, shape, data);
      var node := root;
      result := 0;
      steps := 0;
      ghost var p, t := Top, shape;
      RootIsHere(mem, root, shape);
      while node != 0
        invariant result == 0 && node == Root(t) && At(mem, root, p, t) && Plug(p, t) == shape && steps == Depth(p)
        invariant AllBelow(cmp, Before(p), data) && AllAbove(cmp, After(p), data)
        decreases Height(t)
      {
        RootIsNode(mem, root, p, t);
        PlugHeight(p, t);
        PlugInorder(p, t);
        var ret := cmp(data, mem[node].key);
        if ret == 0 {
          result := node;
          SearchFinds(cmp, p, t, data);
          return;
        }
        Down(mem, root, p, t, ret < 0);
        DownOrder(cmp, p, t, data, ret < 0);
        SearchGoesDown(p, t, ret < 0);
        p, t := DownPath(p, t, ret < 0), Kid(t, ret < 0);
        steps := steps + 1;
        if ret < 0 {
          node := mem[node].left;
        } else {
          node := mem[node].right;
        }
      }
      RootIsNode(mem, root, p, t);
      SearchFails(cmp, p, data);
      PlugHeight(p, t);
    }

    // The retracing loop of muggle_avl_tree_insert: the subtree of node on the given side has grown.
    method RetraceInsert(start: Ptr, side: bool, ghost p0: Path, ghost t0: Tree)
      returns (ghost whole: Tree, ghost steps: nat)
      requires At(mem, root, p0, t0) && t0.N? && t0.n == start && Grew(p0, t0, side)
      modifies this`root, this`mem
      ensures At(mem, root, Top, whole) && Avl(whole) && SameData(whole, Plug(p0, t0))
      ensures mem.Keys == old(mem.Keys)
      ensures steps <= Depth(p0) + 1
    {
      hide At, Grew, SameData, Avl, Plug, Depth, Join, Balanced, Tilted, Rebalanced, Shrinks;
      var node, left := start, side;
      ghost var p, t := p0, t0;
      steps := 0;
      SameDataItself(Plug(p0, t0));
      while true
        invariant At(mem, root, p, t) && t.N? && t.n == node && Grew(p, t, left)
        invariant SameData(Plug(p, t), Plug(p0, t0)) && steps + Depth(p) == Depth(p0)
        invariant mem.Keys == old(mem.Keys)
        decreases Depth(p)
      {
        steps := steps + 1;
        ghost var u := t.(b := if left then t.b - 1 else t.b + 1);
        NodeStored(mem, root, p, t, u.b, t.k, t.v);
        BumpKeepsData(p, t, u, p0, t0);
        GrewStep(p, t, left, u);
        mem := mem[node := mem[node].(balance := if left then mem[node].balance - 1 else mem[node].balance + 1)];
        SideOfParent(mem, root, p, u);
        if mem[node].balance == 0 {
          whole := Finish(mem, root, p, u);
          return;
        } else if mem[node].balance == 1 || mem[node].balance == -1 {
          if mem[node].parent != 0 {
            Up(mem, root, p, u);
            PlugUp(p, u);
            left := mem[mem[node].parent].left == node;
            node := mem[node].parent;
            p, t := p.up, Join(p, u);
          } else {
            whole := Finish(mem, root, p, u);
            return;
          }
        } else {
          RebalanceKeepsData(p, u, p0, t0);
          var shrunk := Rebalance(node, p, u);
          whole := Finish(mem, root, p, Rebalanced(u));
          return;
        }
      }
    }

    // The descent of muggle_avl_tree_insert in a tree that is not empty: found, or the node
    // below which key belongs and the side.
    method FindPlace(key: Ptr)
      returns (found: bool, node: Ptr, left: bool, ghost p: Path, ghost t: Tree)
      requires Valid() && root != 0
      ensures found <==> Present(cmp, Inorder(shape), key)
      ensures Depth(p) + 1 <= Height(shape)
      ensures !found ==> At(mem, root, p, t) && t.N? && t.n == node && Kid(t, left).E? && Plug(p, t) == shape
      ensures !found ==> var q := DownPath(p, t, left);
                         AllBelow(cmp, Before(q), key) && AllAbove(cmp, After(q), key)
    {
      hide At, Avl, Sorted, Inorder, Before, After, Plug, Height, Depth, AllBelow, AllAbove, Present;
      node, left, found := root, true, false;
      p, t := Top, shape;
      SearchStarts(cmp, shape, key);
      RootIsHere(mem, root, shape);
      while true
        invariant node == Root(t) != 0 && At(mem, root, p, t) && Plug(p, t) == shape
        invariant AllBelow(cmp, Before(p), key) && AllAbove(cmp, After(p), key)
        decreases Height(t)
      {
        RootIsNode(mem, root, p, t);
        PlugHeight(p, t);
        PlugInorder(p, t);
        var ret := cmp(key, mem[node].key);
        left := ret < 0;
        SearchGoesDown(p, t, left);
        if ret == 0 {
          SearchFinds(cmp, p, t, key);
          found := true;
          return;
        }
        DownOrder(cmp, p, t, key, left);
        Down(mem, root, p, t, left);
        RootIsNode(mem, root, DownPath(p, t, left), Kid(t, left));
        var next := if left then mem[node].left else mem[node].right;
        if next == 0 {
          SearchFails(cmp, DownPath(p, t, left), key);
          return;
        }
        p, t, node := DownPath(p, t, left), Kid(t, left), next;
      }
    }

    // The retracing loop of muggle_avl_tree_remove: the subtree of node on the given side has shrunk.
    method RetraceRemove(start: Ptr, side: bool, ghost p0: Path, ghost t0: Tree)
      returns (ghost whole: Tree, ghost steps: nat)
      requires At(mem, root, p0, t0) && t0.N? && t0.n == start && Shrank(p0, t0, side)
      modifies this`root, this`mem
      ensures At(mem, root, Top, whole) && Avl(whole) && SameData(whole, Plug(p0, t0))
      ensures mem.Keys == old(mem.Keys)
      ensures steps <= Depth(p0) + 1
    {
      hide At, Shrank, SameData, Avl, Plug, Depth, Join, Balanced, Tilted, Rebalanced, Shrinks;
      var node, left := start, side;
      ghost var p, t := p0, t0;
      steps := 0;
      SameDataItself(Plug(p0, t0));
      while true
        invariant At(mem, root, p, t) && t.N? && t.n == node && Shrank(p, t, left)
        invariant SameData(Plug(p, t), Plug(p0, t0)) && steps + Depth(p) == Depth(p0)
        invariant mem.Keys == old(mem.Keys)
        decreases Depth(p)
      {
        steps := steps + 1;
        ghost var u := t.(b := if left then t.b + 1 else t.b - 1);
        NodeStored(mem, root, p, t, u.b, t.k, t.v);
        BumpKeepsData(p, t, u, p0, t0);
        ShrankStep(p, t, left, u);
        mem := mem[node := mem[node].(balance := if left then mem[node].balance + 1 else mem[node].balance - 1)];
        SideOfParent(mem, root, p, u);
        if mem[node].balance == 1 || mem[node].balance == -1 {
          whole := Finish(mem, root, p, u);
          return;
        }
        var parent := mem[node].parent;
        var onLeft := parent != 0 && mem[parent].left == node;
        if mem[node].balance == 0 {
          if parent == 0 {
            whole := Finish(mem, root, p, u);
            return;
          }
        } else {
          RebalanceKeepsData(p, u, p0, t0);
          var shrunk := Rebalance(node, p, u);
          u := Rebalanced(u);
          if !shrunk || parent == 0 {
            whole := Finish(mem, root, p, u);
            return;
          }
        }
        Up(mem, root, p, u);
        PlugUp(p, u);
        left, node := onLeft, parent;
        p, t := p.up, Join(p, u);
      }
    }

    // Follows the links to the given side to the end.
    method FindFar(start: Ptr, left: bool, ghost p: Path, ghost u: Tree) returns (target: Ptr)
      requires At(mem, root, p, u) && u.N? && u.n == start
      ensures target == FarTree(u, left).n && target in mem
    {
      target := start;
      ghost var q, w := p, u;
      while (if left then mem[target].left else mem[target].right) != 0
        invariant At(mem, root, q, w) && w.N? && w.n == target && target in mem && FarTree(w, left) == FarTree(u, left)
        decreases Height(w)
      {
        Down(mem, root, q, w, left);
        q, w := DownPath(q, w, left), Kid(w, left);
        target := if left then mem[target].left else mem[target].right;
      }
    }

    // Exchanges the data of node and target, the in-order neighbour below it.
    method SwapData(node: Ptr, target: Ptr, left: bool, ghost p: Path, ghost t: Tree)
      returns (ghost q: Path, ghost w: Tree)
      requires At(mem, root, p, t) && t.N? && t.n == node && Kid(t, left).N? && Avl(Plug(p, t))
      requires target == FarTree(Kid(t, left), !left).n && target in mem
      modifies this`mem
      ensures At(mem, root, q, w) && w.N? && w.n == target && w.k == t.k && w.v == t.v
      ensures Rest(q, w) == Rest(p, t) && Avl(Plug(q, w)) && Height(Plug(q, w)) == Height(Plug(p, t))
      ensures Height(w) < Height(t) && mem.Keys == old(mem.Keys)
    {
      hide At, Avl, Plug, Rest, FarTree, FarPath, Height, Inorder, Before, After;
      ghost var u := Kid(t, left);
      ghost var far := FarTree(u, !left);
      ghost var t1 := t.(k := far.k, v := far.v);
      SearchGoesDown(p, t, left);
      SwapKeepsRest(p, t, left);
      PlugOtherData(p, t, far.k, far.v);
      Down(mem, root, p, t, left);
      FarAt(mem, root, DownPath(p, t, left), u, !left);
      NodeStored(mem, root, FarPath(DownPath(p, t, left), u, !left), far, far.b, far.k, far.v);
      NodeStored(mem, root, p, t, t.b, far.k, far.v);
      var k, v := mem[node].key, mem[node].value;
      mem := mem[node := mem[node].(key := mem[target].key, value := mem[target].value)];
      q := DownPath(p, t1, left);
      Down(mem, root, p, t1, left);
      FarPlug(q, u, !left);
      PlugDown(p, t1, left);
      FarAt(mem, root, q, u, !left);
      q := FarPath(q, u, !left);
      NodeStored(mem, root, q, far, far.b, k, v);
      PlugOtherData(q, far, k, v);
      OtherDataSameRest(q, far, k, v);
      mem := mem[target := mem[target].(key := k, value := v)];
      w := far.(k := k, v := v);
    }

    // The first loop of muggle_avl_tree_remove: the data of node move down to a leaf.
    method SinkData(start: Ptr, ghost p0: Path, ghost t0: Tree) returns (node: Ptr, ghost p: Path, ghost t: Tree)
      requires At(mem, root, p0, t0) && t0.N? && t0.n == start && Avl(Plug(p0, t0))
      modifies this`mem
      ensures At(mem, root, p, t) && t.N? && t.l.E? && t.r.E? && t.n == node && t.k == t0.k && t.v == t0.v
      ensures Rest(p, t) == Rest(p0, t0) && Avl(Plug(p, t)) && Height(Plug(p, t)) == Height(Plug(p0, t0))
      ensures mem.Keys == old(mem.Keys)
    {
      hide At, Rest, Avl, Plug, Height, FarTree;
      node, p, t := start, p0, t0;
      RootIsNode(mem, root, p, t);
      while mem[node].left != 0 || mem[node].right != 0
        invariant At(mem, root, p, t) && t.N? && t.n == node && node in mem && t.k == t0.k && t.v == t0.v
        invariant mem[node].left == Root(t.l) && mem[node].right == Root(t.r)
        invariant Rest(p, t) == Rest(p0, t0) && Avl(Plug(p, t)) && Height(Plug(p, t)) == Height(Plug(p0, t0))
        invariant mem.Keys == old(mem.Keys)
        decreases Height(t)
      {
        var left := mem[node].left != 0;
        Down(mem, root, p, t, left);
        RootIsNode(mem, root, DownPath(p, t, left), Kid(t, left));
        var first := if left then mem[node].left else mem[node].right;
        var target := FindFar(first, !left, DownPath(p, t, left), Kid(t, left));
        p, t := SwapData(node, target, left, p, t);
        node := target;
        RootIsNode(mem, root, p, t);
      }
      Down(mem, root, p, t, true);
      Down(mem, root, p, t, false);
      RootIsNode(mem, root, DownPath(p, t, true), t.l);
      RootIsNode(mem, root, DownPath(p, t, false), t.r);
    }

    // The second part: the leaf is given back and the balances above it are corrected.
    method EraseLeaf(leaf: Ptr, ghost p: Path, ghost t: Tree) returns (ghost steps: nat)
      requires At(mem, root, p, t) && t.N? && t.l.E? && t.r.E? && t.n == leaf && Avl(Plug(p, t))
      modifies this
      ensures At(mem, root, Top, shape) && Avl(shape) && Inorder(shape) == Rest(p, t)
      ensures leaf in old(mem) && mem.Keys == old(mem.Keys) - {leaf}
      ensures steps <= Depth(p)
    {
      hide At, Plug, Shrank, Rest, Avl, Inorder, Cells, Join, Depth, SameData;
      RestOfLeaf(p, t);
      SideOfParent(mem, root, p, t);
      if mem[leaf].parent == 0 {
        OnlyLeaf(mem, root, p, t);
        mem := mem - {leaf};
        root := 0;
        shape := E;
        steps := 0;
        return;
      }
      BalancedHere(p, t);
      LeafErased(mem, root, p, t);
      LeafShrank(p, t);
      PlugUp(p, E);
      var parent := mem[leaf].parent;
      var left := mem[parent].left == leaf;
      mem := mem[parent := if left then mem[parent].(left := 0) else mem[parent].(right := 0)];
      mem := mem - {leaf};
      Up(mem, root, p, E);
      ghost var whole;
      whole, steps := RetraceRemove(parent, left, p.up, Join(p, E));
      SameDataIs(whole, Plug(p, E));
      shape := whole;
    }

    method Remove(node: Ptr) returns (ghost gone: Ptr, ghost steps: nat)
      requires Valid() && node in mem
      modifies this
      ensures Valid()
      ensures Inserted(Inorder(shape), (old(mem)[node].key, old(mem)[node].value), old(Inorder(shape)))
      ensures gone in old(mem) && mem.Keys == old(mem.Keys) - {gone}
      ensures steps <= old(Height(shape)) && Logarithmic(steps, old(|mem.Keys|))
    {
      hide At, Avl, Rest, Sorted, Inserted, Inorder, Height, Plug, Logarithmic;
      FewSteps(mem, root, shape);
      NodesOfTop(mem, root, shape);
      ghost var p, t := Locate(mem, root, Top, shape, node);
      NodeStored(mem, root, p, t, t.b, t.k, t.v);
      RestIsWithout(p, t);
      SortedAfterRemoval(cmp, Inorder(shape), (t.k, t.v), Rest(p, t));
      var leaf;
      leaf, p, t := SinkData(node, p, t);
      PlugHeight(p, t);
      gone := leaf;
      steps := EraseLeaf(leaf, p, t);
    }

    // addr is the address the allocator hands out, 0 if it has none.
    method Insert(key: Ptr, value: Ptr, addr: Ptr) returns (r: Ptr, ghost steps: nat)
      requires Valid() && addr !in mem
      modifies this
      ensures Valid()
      ensures r == 0 <==> Present(cmp, old(Inorder(shape)), key) || addr == 0
      ensures r == 0 ==> mem == old(mem) && root == old(root) && shape == old(shape)
      ensures r != 0 ==> r == addr && r in mem && mem[r].key == key && mem[r].value == value
      ensures r != 0 ==> Inserted(old(Inorder(shape)), (key, value), Inorder(shape))
      ensures r != 0 ==> Cells(shape) == old(Cells(shape)) + {(addr, key, value)}
      ensures steps <= old(Height(shape)) && Logarithmic(steps, old(|mem.Keys|))
    {
      FewSteps(mem, root, shape);
      hide Logarithmic;
      steps := 0;
      if root == 0 {
        if addr == 0 {
          return 0, 0;
        }
        FirstNode(mem, addr, key, value, cmp);
        mem := mem[addr := Node(0, 0, 0, 0, key, value)];
        root := addr;
        shape := N(E, addr, key, value, 0, E);
        return addr, 0;
      }
      var found, node, left;
      ghost var p, t;
      found, node, left, p, t := FindPlace(key);
      if found || addr == 0 {
        return 0, 0;
      }
      steps := LinkAndRetrace(node, left, key, value, addr, p, t);
      r := addr;
    }

    // From the place found for the new node: link it in and retrace.
    method LinkAndRetrace(node: Ptr, left: bool, key: Ptr, value: Ptr, addr: Ptr, ghost p: Path, ghost t: Tree)
      returns (ghost steps: nat)
      requires Valid() && addr != 0 && addr !in mem
      requires At(mem, root, p, t) && t.N? && t.n == node && Kid(t, left).E? && Plug(p, t) == shape
      requires var q := DownPath(p, t, left); AllBelow(cmp, Before(q), key) && AllAbove(cmp, After(q), key)
      modifies this
      ensures Valid()
      ensures addr in mem && mem[addr].key == key && mem[addr].value == value
      ensures Inserted(old(Inorder(shape)), (key, value), Inorder(shape))
      ensures Cells(shape) == old(Cells(shape)) + {(addr, key, value)}
      ensures steps <= Depth(p) + 1
    {
      hide At, Avl, Grew, Sorted, Inserted, Inorder, Cells, Plug, Balanced, AllBelow, AllAbove, Before, After, SameData;
      ghost var leaf := N(E, addr, key, value, 0, E);
      ghost var u := WithKid(t, left, leaf);
      LeafStored(mem, root, p, t, left, addr, key, value);
      BalancedHere(p, t);
      LeafGrew(p, t, left, leaf);
      LeafContents(cmp, p, t, left, leaf);
      if left {
        mem := mem[node := mem[node].(left := addr)];
      } else {
        mem := mem[node := mem[node].(right := addr)];
      }
      mem := mem[addr := Node(0, 0, node, 0, key, value)];
      ghost var whole;
      whole, steps := RetraceInsert(node, left, p, u);
      SameDataIs(whole, Plug(p, u));
      StoredInTree(mem, root, whole, addr, key, value);
      shape := whole;
    }
  }

  lemma FirstNode(h: Memory, a: Ptr, k: Ptr, v: Ptr, cmp: Cmp)
    requires At(h, 0, Top, E) && a != 0
    ensures var t := N(E, a, k, v, 0, E);
            && At(h[a := Node(0, 0, 0, 0, k, v)], a, Top, t) && Avl(t) && Sorted(cmp, Inorder(t))
            && Inserted(Inorder(E), (k, v), Inorder(t)) && Cells(t) == Cells(E) + {(a, k, v)}
  {
    InsertedBetween([], (k, v), []);
    var t := N(E, a, k, v, 0, E);
    assert Linked(h[a := Node(0, 0, 0, 0, k, v)], t, 0);
    assert Nodes(t) == {a};
  }

  lemma FewSteps(h: Memory, root: Ptr, t: Tree)
    requires At(h, root, Top, t) && Avl(t)
    ensures forall steps: nat :: steps <= Height(t) ==> Logarithmic(steps, |h.Keys|)
  {
    hide Linked, Avl, Distinct, Height, Nodes, Logarithmic;
    assert Nodes(t) + {} == Nodes(t);
    forall steps: nat | steps <= Height(t) ensures Logarithmic(steps, |h.Keys|) { HeightIsLogarithmic(t, steps); }
  }

  lemma StoredInTree(h: Memory, root: Ptr, t: Tree, n: Ptr, k: Ptr, v: Ptr)
    requires At(h, root, Top, t) && (n, k, v) in Cells(t)
    ensures n in h && h[n].key == k && h[n].value == v
  {
    CellsAreStored(h, t, 0, n, k, v);
  }

  lemma LeafContents(cmp: Cmp, p: Path, t: Tree, left: bool, leaf: Tree)
    requires TotalPreorder(cmp) && t.N? && Kid(t, left).E? && leaf.N? && leaf.l.E? && leaf.r.E?
    requires Sorted(cmp, Inorder(Plug(p, t)))
    requires AllBelow(cmp, Before(DownPath(p, t, left)), leaf.k) && AllAbove(cmp, After(DownPath(p, t, left)), leaf.k)
    ensures var s, s' := Inorder(Plug(p, t)), Inorder(Plug(p, WithKid(t, left, leaf)));
            Inserted(s, (leaf.k, leaf.v), s') && Sorted(cmp, s')
    ensures Cells(Plug(p, WithKid(t, left, leaf))) == Cells(Plug(p, t)) + {(leaf.n, leaf.k, leaf.v)}
  {
    hide *;
    var q, x := DownPath(p, t, left), (leaf.k, leaf.v);
    LeafIs(p, t, left, leaf);
    PlugInorder(q, E);
    PlugInorder(q, leaf);
    PlugCells(q, E);
    PlugCells(q, leaf);
    assert Before(q) + [] + After(q) == Before(q) + After(q);
    InsertedBetween(Before(q), x, After(q));
    SortedAround(cmp, Before(q), x, After(q));
  }

  lemma LeafIs(p: Path, t: Tree, left: bool, leaf: Tree)
    requires t.N? && Kid(t, left).E? && leaf.N? && leaf.l.E? && leaf.r.E?
    ensures var q := DownPath(p, t, left); Plug(q, E) == Plug(p, t) && Plug(q, leaf) == Plug(p, WithKid(t, left, leaf))
    ensures Inorder(leaf) == [(leaf.k, leaf.v)] && Cells(leaf) == {(leaf.n, leaf.k, leaf.v)}
    ensures Inorder(E) == [] && Cells(E) == {}
  {
    var q := DownPath(p, t, left);
    assert Join(q, E) == t && Join(q, leaf) == WithKid(t, left, leaf);
  }

  lemma LeafShrank(p: Path, t: Tree)
    requires p.In? && t.N? && t.l.E? && t.r.E? && Balanced(p, t)
    ensures Shrank(p.up, Join(p, E), p.left)
  {
    assert Height(t) == 1;
    ClimbAfterShrinking(p, E, 1);
  }

  lemma PlugDown(p: Path, t: Tree, left: bool)
    requires t.N?
    ensures Plug(DownPath(p, t, left), Kid(t, left)) == Plug(p, t)
  {
    assert Join(DownPath(p, t, left), Kid(t, left)) == t;
  }

  lemma PlugUp(p: Path, t: Tree)
    requires p.In?
    ensures Plug(p, t) == Plug(p.up, Join(p, t)) && Depth(p) == Depth(p.up) + 1
    ensures Join(p, t).N? && Join(p, t).n == p.n
  {
  }

  lemma SameDataItself(t: Tree)
    ensures SameData(t, t)
  {
  }

  lemma RebalanceKeepsData(p: Path, u: Tree, p0: Path, t0: Tree)
    requires Tilted(u) && SameData(Plug(p, u), Plug(p0, t0))
    ensures SameData(Plug(p, Rebalanced(u)), Plug(p0, t0))
  {
    hide Tilted, Rebalanced, Plug, Inorder, Cells;
    RebalancedRearranges(u);
    PlugSameData(p, u, Rebalanced(u));
  }

  lemma OtherDataSameRest(p: Path, t: Tree, k: Ptr, v: Ptr)
    requires t.N?
    ensures Rest(p, t.(k := k, v := v)) == Rest(p, t) && Height(t.(k := k, v := v)) == Height(t)
  {
  }

  lemma BalancedHere(p: Path, t: Tree)
    requires Avl(Plug(p, t))
    ensures Balanced(p, t)
  {
    PlugAvl(p, t);
  }

  lemma SameDataIs(t: Tree, u: Tree)
    requires SameData(t, u)
    ensures Inorder(t) == Inorder(u) && Cells(t) == Cells(u)
  {
  }

  lemma NodesOfTop(h: Memory, root: Ptr, t: Tree)
    requires At(h, root, Top, t)
    ensures Nodes(t) == h.Keys && Plug(Top, t) == t
  {
  }

  lemma BumpKeepsData(p: Path, t: Tree, u: Tree, p0: Path, t0: Tree)
    requires t.N? && u.N? && u == t.(b := u.b) && SameData(Plug(p, t), Plug(p0, t0))
    ensures SameData(Plug(p, u), Plug(p0, t0))
  {
    PlugSameData(p, t, u);
  }

  lemma Finish(h: Memory, root: Ptr, p: Path, t: Tree) returns (whole: Tree)
    requires At(h, root, p, t) && Balanced(p, t)
    ensures whole == Plug(p, t) && At(h, root, Top, whole) && Avl(whole)
  {
    whole := Plug(p, t);
    UpToTheRoot(h, root, p, t);
    PlugAvl(p, t);
  }
}
