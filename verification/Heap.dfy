/** The binary min-heap (muggle/c/dsaa/heap.c): a 1-based array of key-value nodes in which no
    parent compares greater than its child.  The sift loops move a hole through the array; the
    proofs look at the array as if the node to be placed already stood in the hole. */
module Heap {
  import opened Ordering
  import opened Words

  datatype Node = Node(key: Ptr, value: Ptr)

  const NULL: Ptr := 0
  const CAP_LIMIT: nat := TWO_TO_31

  // Slot 0 of every sequence below is unused.
  type Slots = s: seq<Node> | |s| > 0 witness [Node(0, 0)]

  predicate Le(cmp: Cmp, a: Node, b: Node) { cmp(a.key, b.key) <= 0 }

  ghost predicate Ordered(v: Slots, cmp: Cmp) {
    forall i :: 2 <= i < |v| ==> Le(cmp, v[i / 2], v[i])
  }

  // The order holds but for the edges at slot k, and holds across slot k.
  ghost predicate Hole(v: Slots, k: nat, cmp: Cmp) {
    && 1 <= k < |v|
    && (forall i :: 2 <= i < |v| && i != k && i / 2 != k ==> Le(cmp, v[i / 2], v[i]))
    && (forall i :: 2 <= i < |v| && i / 2 == k && k >= 2 ==> Le(cmp, v[k / 2], v[i]))
  }

  // The node in slot k is not smaller than its parent; not greater than its children.
  ghost predicate AboveIsFine(v: Slots, k: nat, cmp: Cmp)
    requires k < |v|
  {
    k >= 2 ==> Le(cmp, v[k / 2], v[k])
  }

  ghost predicate BelowIsFine(v: Slots, k: nat, cmp: Cmp)
    requires k < |v|
  {
    forall i :: 2 <= i < |v| && i / 2 == k ==> Le(cmp, v[k], v[i])
  }

  ghost predicate BelowIsGreater(v: Slots, k: nat, cmp: Cmp)
    requires k < |v|
  {
    forall i :: 2 <= i < |v| && i / 2 == k ==> cmp(v[k].key, v[i].key) < 0
  }

  function Swap(v: Slots, j: nat, k: nat): Slots
    requires j < |v| && k < |v|
  {
    v[j := v[k]][k := v[j]]
  }

  ghost function Bag(v: Slots): multiset<Node> { multiset(v[1..]) }

  lemma SwapKeepsBag(v: Slots, j: nat, k: nat)
    requires 1 <= j < |v| && 1 <= k < |v|
    ensures Bag(Swap(v, j, k)) == Bag(v)
  {
    var r := v[1..];
    assert Swap(v, j, k)[1..] == r[j - 1 := r[k - 1]][k - 1 := r[j - 1]];
  }

  /** A hole whose two sides are in order is no hole. */
  lemma HoleCloses(v: Slots, k: nat, cmp: Cmp)
    requires Hole(v, k, cmp) && AboveIsFine(v, k, cmp) && BelowIsFine(v, k, cmp)
    ensures Ordered(v, cmp)
  {
    forall i | 2 <= i < |v| ensures Le(cmp, v[i / 2], v[i]) {
      if i / 2 == k {} else if i == k {}
    }
  }

  /** Moving a smaller node up leaves a hole with greater nodes below it. */
  lemma MoveUp(v: Slots, k: nat, cmp: Cmp)
    requires TotalPreorder(cmp) && Hole(v, k, cmp) && k >= 2 && cmp(v[k].key, v[k / 2].key) < 0
    ensures Hole(Swap(v, k, k / 2), k / 2, cmp) && BelowIsGreater(Swap(v, k, k / 2), k / 2, cmp)
  {
    hide TotalPreorder;
    var u, p := Swap(v, k, k / 2), k / 2;
    forall i | 2 <= i < |v| && i / 2 == p ensures cmp(u[p].key, u[i].key) < 0 {
      if i != k {
        assert Le(cmp, v[i / 2], v[i]);
        Transitive(cmp, v[k].key, v[p].key, v[i].key);
      }
    }
    forall i | 2 <= i < |v| && i / 2 == p && p >= 2 ensures Le(cmp, u[p / 2], u[i]) {
      assert Le(cmp, v[p / 2], v[p]);
      if i != k {
        assert Le(cmp, v[i / 2], v[i]);
        Transitive(cmp, v[p / 2].key, v[p].key, v[i].key);
      }
    }
    forall i | 2 <= i < |v| && i != p && i / 2 != p ensures Le(cmp, u[i / 2], u[i]) {
      if i / 2 == k { assert Le(cmp, v[k / 2], v[i]); } else { assert i != k; }
    }
  }

  // c is the child of k that the code compares with.
  ghost predicate SmallerChild(v: Slots, k: nat, c: nat, cmp: Cmp) {
    && 2 <= c < |v| && c / 2 == k
    && (forall i :: 2 <= i < |v| && i / 2 == k ==> Le(cmp, v[c], v[i]))
  }

  /** Moving a greater node down to its smaller child leaves a hole with a smaller node above. */
  lemma MoveDown(v: Slots, k: nat, c: nat, cmp: Cmp)
    requires TotalPreorder(cmp) && Hole(v, k, cmp) && AboveIsFine(v, k, cmp)
    requires SmallerChild(v, k, c, cmp) && cmp(v[k].key, v[c].key) >= 0
    ensures Hole(Swap(v, k, c), c, cmp) && AboveIsFine(Swap(v, k, c), c, cmp)
  {
    hide TotalPreorder;
    var u := Swap(v, k, c);
    Flip(cmp, v[k].key, v[c].key);
    forall i | 2 <= i < |v| && i != c && i / 2 != c ensures Le(cmp, u[i / 2], u[i]) {
      if i == k {
        assert Le(cmp, v[k / 2], v[c]);
      } else if i / 2 != k {
        assert Le(cmp, v[i / 2], v[i]);
      }
    }
    forall i | 2 <= i < |v| && i / 2 == c ensures Le(cmp, u[c / 2], u[i]) {
      assert Le(cmp, v[i / 2], v[i]);
    }
  }

  /** The node in slot 1 is a least one. */
  lemma {:induction false} RootIsLeast(v: Slots, cmp: Cmp, i: nat)
    requires TotalPreorder(cmp) && Ordered(v, cmp) && 1 <= i < |v|
    ensures Le(cmp, v[1], v[i])
  {
    hide TotalPreorder;
    if i == 1 {
      Flip(cmp, v[1].key, v[1].key);
    } else {
      RootIsLeast(v, cmp, i / 2);
      assert Le(cmp, v[i / 2], v[i]);
      Transitive(cmp, v[1].key, v[i / 2].key, v[i].key);
    }
  }

  lemma GreaterIsFine(v: Slots, k: nat, cmp: Cmp)
    requires k < |v| && BelowIsGreater(v, k, cmp)
    ensures BelowIsFine(v, k, cmp)
  {
  }

  lemma PickIsSmaller(v: Slots, k: nat, c: nat, cmp: Cmp)
    requires TotalPreorder(cmp) && 1 <= k && 2 * k < |v|
    requires c == if 2 * k + 1 < |v| && cmp(v[2 * k + 1].key, v[2 * k].key) < 0 then 2 * k + 1 else 2 * k
    ensures SmallerChild(v, k, c, cmp)
  {
    hide TotalPreorder;
    Flip(cmp, v[c].key, v[c].key);
    if 2 * k + 1 < |v| { Flip(cmp, v[2 * k + 1].key, v[2 * k].key); }
    forall i | 2 <= i < |v| && i / 2 == k ensures Le(cmp, v[c], v[i]) {
      assert i == 2 * k || i == 2 * k + 1;
    }
  }

  lemma LessIsFine(v: Slots, k: nat, c: nat, cmp: Cmp)
    requires TotalPreorder(cmp) && k < |v| && SmallerChild(v, k, c, cmp) && cmp(v[k].key, v[c].key) < 0
    ensures BelowIsFine(v, k, cmp)
  {
    hide TotalPreorder;
    forall i | 2 <= i < |v| && i / 2 == k ensures Le(cmp, v[k], v[i]) {
      assert Le(cmp, v[c], v[i]);
      Transitive(cmp, v[k].key, v[c].key, v[i].key);
    }
  }

  lemma NoChildIsFine(v: Slots, k: nat, cmp: Cmp)
    requires 1 <= k < |v|
    ensures 2 * k >= |v| ==> BelowIsFine(v, k, cmp)
  {
  }

  lemma NotLessIsFine(v: Slots, k: nat, cmp: Cmp)
    requires TotalPreorder(cmp) && 1 <= k < |v|
    ensures (k / 2 == 0 || cmp(v[k].key, v[k / 2].key) >= 0) ==> AboveIsFine(v, k, cmp)
  {
    if k / 2 != 0 { Flip(cmp, v[k].key, v[k / 2].key); }
  }

  // A hole that has moved down is never moved up.
  lemma AboveIsNotGreater(v: Slots, k: nat, cmp: Cmp)
    requires TotalPreorder(cmp) && 2 <= k < |v| && AboveIsFine(v, k, cmp)
    ensures cmp(v[k].key, v[k / 2].key) >= 0
  {
    Flip(cmp, v[k].key, v[k / 2].key);
  }

  // A hole that has moved up is never moved down.
  lemma BelowIsNotLess(v: Slots, k: nat, c: nat, cmp: Cmp)
    requires k < |v| && BelowIsGreater(v, k, cmp) && SmallerChild(v, k, c, cmp)
    ensures cmp(v[k].key, v[c].key) < 0
  {
  }

  // ---------------------------------------------------------------- the object

  lemma LeastOfBag(v: Slots, cmp: Cmp)
    requires TotalPreorder(cmp) && Ordered(v, cmp) && |v| > 1
    ensures forall n :: n in Bag(v) ==> Le(cmp, v[1], n)
  {
    hide TotalPreorder, Ordered;
    forall n | n in Bag(v) ensures Le(cmp, v[1], n) {
      var i :| 0 <= i < |v[1..]| && v[1..][i] == n;
      RootIsLeast(v, cmp, i + 1);
    }
  }

  // Appending a node opens a hole at the end.
  lemma AppendOpensHole(v: Slots, node: Node, cmp: Cmp)
    requires Ordered(v, cmp)
    ensures var u: Slots := v + [node];
            Hole(u, |v|, cmp) && BelowIsFine(u, |v|, cmp) && Bag(u) == Bag(v) + multiset{node}
  {
    var u: Slots := v + [node];
    assert u[1..] == v[1..] + [node];
    assert forall i :: 2 <= i < |u| ==> i / 2 < |v|;
    assert forall i :: 0 <= i < |v| ==> u[i] == v[i];
  }

  // Putting the last node into slot k opens a hole there.
  lemma LastOpensHole(v: Slots, k: nat, cmp: Cmp)
    requires TotalPreorder(cmp) && Ordered(v, cmp) && 1 <= k < |v| - 1
    ensures var u: Slots := v[..|v| - 1][k := v[|v| - 1]];
            Hole(u, k, cmp) && Bag(v) == Bag(u) + multiset{v[k]}
  {
    hide TotalPreorder;
    var n := |v| - 1;
    var u: Slots := v[..n][k := v[n]];
    assert v[1..] == v[1..n] + [v[n]];
    assert u[1..] == v[1..n][k - 1 := v[n]];
    forall i | 2 <= i < |u| && i / 2 == k && k >= 2 ensures Le(cmp, u[k / 2], u[i]) {
      assert Le(cmp, v[k / 2], v[k]) && Le(cmp, v[i / 2], v[i]);
      Transitive(cmp, v[k / 2].key, v[k].key, v[i].key);
    }
  }

  lemma DropLast(v: Slots, cmp: Cmp)
    requires Ordered(v, cmp) && |v| > 1
    ensures var u: Slots := v[..|v| - 1];
            Ordered(u, cmp) && Bag(v) == Bag(u) + multiset{v[|v| - 1]}
  {
    var n := |v| - 1;
    assert v[1..] == v[1..n] + [v[n]];
    assert v[..n][1..] == v[1..n];
  }

  class Heap {
    var nodes: array<Node>
    var size: nat
    var capacity: nat
    const cmp: Cmp

    ghost function View(): seq<Node>
      reads this, nodes
      requires size < nodes.Length
    {
      nodes[..size + 1]
    }

    ghost predicate Shaped()
      reads this, nodes
    {
      TotalPreorder(cmp) && 1 <= capacity < CAP_LIMIT && nodes.Length == capacity + 1 && size <= capacity
    }

    ghost predicate Valid()
      reads this, nodes
    {
      Shaped() && Ordered(View(), cmp)
    }

    ghost function Contents(): multiset<Node>
      reads this, nodes
      requires Valid()
    {
      Bag(View())
    }

    lemma CapacityFacts()
      requires Valid()
      ensures 1 <= capacity < CAP_LIMIT && size <= capacity
    {
    }

    lemma EmptyContents()
      requires Valid() && size == 0
      ensures Contents() == multiset{}
    {
    }

    // The nodes as if x already stood in slot k.
    ghost function With(k: nat, x: Node): seq<Node>
      reads this, nodes
      requires Shaped() && k <= size
    {
      View()[k := x]
    }

    constructor (cmp: Cmp, capacity: nat)
      requires TotalPreorder(cmp) && 0 < capacity < CAP_LIMIT
      ensures Valid() && fresh(nodes) && Contents() == multiset{} && size == 0
      ensures this.cmp == cmp && this.capacity == capacity
    {
      this.cmp, this.capacity, size := cmp, capacity, 0;
      nodes := new Node[capacity + 1](_ => Node(NULL, NULL));
    }

    // muggle_heap_init: a capacity of 0 stands for 8, one of 2^31 or more is refused.
    static method Init(cmp: Cmp, capacity: nat, granted: bool) returns (heap: Heap?)
      requires TotalPreorder(cmp)
      ensures heap == null <==> capacity >= CAP_LIMIT || !granted
      ensures heap != null ==> fresh(heap) && fresh(heap.nodes) && heap.Valid() && heap.Contents() == multiset{}
                               && heap.size == 0 && heap.cmp == cmp
                               && heap.capacity == if capacity == 0 then 8 else capacity
    {
      var cap := if capacity == 0 then 8 else capacity;
      if cap >= CAP_LIMIT || !granted { return null; }
      heap := new Heap(cmp, cap);
    }

    // The key in slot i, which is in use and is not the slot whose node has been taken out.
    method KeyAt(i: nat, ghost hole: nat) returns (key: Ptr)
      requires Shaped() && 1 <= i <= size && i != hole
      ensures key == nodes[i].key
    {
      key := nodes[i].key;
    }

    // Slot k is a hole for x.
    ghost predicate Holed(k: nat, x: Node)
      reads this, nodes
    {
      Shaped() && 1 <= k <= size && Hole(With(k, x), k, cmp)
    }

    // Copies the node of slot j into the hole k, which moves the hole to j.
    method MoveNode(k: nat, j: nat, ghost x: Node)
      requires Shaped() && 1 <= k <= size && 1 <= j <= size && j != k
      modifies nodes
      ensures With(j, x) == Swap(old(With(k, x)), k, j)
    {
      ghost var v := With(k, x);
      nodes[k] := nodes[j];
      assert With(j, x) == Swap(v, k, j);
    }

    method Raise(k: nat, ghost x: Node)
      requires Holed(k, x) && k >= 2 && cmp(x.key, nodes[k / 2].key) < 0
      modifies nodes
      ensures Holed(k / 2, x) && BelowIsGreater(With(k / 2, x), k / 2, cmp)
      ensures Bag(With(k / 2, x)) == old(Bag(With(k, x)))
    {
      hide TotalPreorder, Hole, Swap, Bag, BelowIsGreater;
      MoveUp(With(k, x), k, cmp);
      SwapKeepsBag(With(k, x), k, k / 2);
      MoveNode(k, k / 2, x);
    }

    method Lower(k: nat, c: nat, ghost x: Node)
      requires Holed(k, x) && AboveIsFine(With(k, x), k, cmp) && k < c <= size
      requires SmallerChild(With(k, x), k, c, cmp) && cmp(x.key, nodes[c].key) >= 0
      modifies nodes
      ensures Holed(c, x) && AboveIsFine(With(c, x), c, cmp)
      ensures Bag(With(c, x)) == old(Bag(With(k, x)))
    {
      hide TotalPreorder, Hole, Swap, Bag, SmallerChild, AboveIsFine;
      MoveDown(With(k, x), k, c, cmp);
      SwapKeepsBag(With(k, x), k, c);
      MoveNode(k, c, x);
    }

    // Puts x into the hole.
    method Settle(k: nat, x: Node)
      requires Holed(k, x) && AboveIsFine(With(k, x), k, cmp) && BelowIsFine(With(k, x), k, cmp)
      modifies nodes
      ensures Valid() && Contents() == old(Bag(With(k, x)))
    {
      hide TotalPreorder, Hole, Ordered, Bag, AboveIsFine, BelowIsFine;
      HoleCloses(With(k, x), k, cmp);
      ghost var v := With(k, x);
      nodes[k] := x;
      assert View() == v;
    }

    /** Makes room for capacity nodes; refuses 2^31 or more. */
    method EnsureCapacity(cap: nat, granted: bool) returns (ok: bool)
      requires Valid()
      modifies this`nodes, this`capacity
      ensures Valid() && ok == (cap <= old(capacity) || (cap < CAP_LIMIT && granted))
      ensures View() == old(View()) && (nodes == old(nodes) || fresh(nodes))
      ensures capacity == if ok && cap > old(capacity) then cap else old(capacity)
      ensures !ok ==> nodes == old(nodes)
    {
      hide TotalPreorder, Ordered;
      if capacity >= cap { return true; }
      if cap >= CAP_LIMIT || !granted { return false; }
      ghost var s := View();
      var grown := new Node[cap + 1](_ => Node(NULL, NULL));
      grown[0] := nodes[0];
      var i := 0;
      while i < size
        invariant 0 <= i <= size && grown[..i + 1] == nodes[..i + 1]
        modifies grown
      {
        grown[i + 1] := nodes[i + 1];
        i := i + 1;
      }
      nodes, capacity := grown, cap;
      assert View() == s;
      return true;
    }

    /** Adds the pair, or fails when the heap is full and cannot double. */
    method Insert(key: Ptr, value: Ptr, granted: bool) returns (ok: bool)
      requires Valid()
      modifies this`nodes, this`size, this`capacity, nodes
      ensures Valid() && (nodes == old(nodes) || fresh(nodes))
      ensures ok == (old(size) < old(capacity) || (2 * old(capacity) < CAP_LIMIT && granted))
      ensures Contents() == old(Contents()) + if ok then multiset{Node(key, value)} else multiset{}
      ensures size == old(size) + (if ok then 1 else 0)
      ensures !ok || old(size) < old(capacity) ==> nodes == old(nodes) && capacity == old(capacity)
      ensures ok && old(size) == old(capacity) ==> capacity == 2 * old(capacity)
    {
      if capacity == size {
        ok := EnsureCapacity(capacity * 2, granted);
        if !ok { return; }
      }
      SiftUp(Node(key, value));
      ok := true;
    }

    method SiftUp(x: Node)
      requires Valid() && size < capacity
      modifies this`size, nodes
      ensures Valid() && Contents() == old(Contents()) + multiset{x} && size == old(size) + 1
    {
      hide TotalPreorder, Ordered, Hole, Bag, BelowIsFine, BelowIsGreater;
      ghost var s := View();
      AppendOpensHole(s, x, cmp);
      size := size + 1;
      var idx := size;
      assert With(idx, x) == s + [x];
      while true
        invariant Holed(idx, x) && BelowIsFine(With(idx, x), idx, cmp)
        invariant Bag(With(idx, x)) == Bag(s) + multiset{x}
        modifies nodes
        decreases idx
      {
        var parent := idx / 2;
        if parent == 0 { break; }
        var key := KeyAt(parent, idx);
        Flip(cmp, key, x.key);
        if cmp(key, x.key) <= 0 { break; }
        Raise(idx, x);
        GreaterIsFine(With(parent, x), parent, cmp);
        idx := parent;
      }
      Settle(idx, x);
    }

    // The child of slot k that the sift loops compare with; k has one.
    method PickChild(k: nat, ghost x: Node) returns (child: nat)
      requires Shaped() && 1 <= k && 2 * k <= size
      ensures child <= size && child / 2 == k && SmallerChild(With(k, x), k, child, cmp)
    {
      hide TotalPreorder, SmallerChild;
      child := k * 2;
      if child < size {
        var right := KeyAt(child + 1, k);
        var left := KeyAt(child, k);
        if cmp(right, left) < 0 { child := child + 1; }
      }
      PickIsSmaller(With(k, x), k, child, cmp);
    }

    /** The node in slot 1, if there is one. */
    method Root() returns (root: nat)
      requires Valid()
      ensures root == 0 <==> size == 0
      ensures root != 0 ==> root == 1 && (forall i :: 1 <= i <= size ==> Le(cmp, nodes[1], nodes[i]))
    {
      if size == 0 { return 0; }
      forall i | 1 <= i <= size ensures Le(cmp, nodes[1], nodes[i]) { RootIsLeast(View(), cmp, i); }
      return 1;
    }

    /** Takes out a least node. */
    method Extract() returns (ok: bool, node: Node)
      requires Valid()
      modifies this`size, nodes
      ensures Valid() && ok == (old(size) > 0)
      ensures ok ==> old(Contents()) == Contents() + multiset{node} && size == old(size) - 1
      ensures ok ==> forall n :: n in old(Contents()) ==> Le(cmp, node, n)
      ensures !ok ==> size == 0 && View() == old(View()) && Contents() == old(Contents())
    {
      if size == 0 { return false, Node(NULL, NULL); }
      LeastOfBag(View(), cmp);
      node := nodes[1];
      ok := true;
      if size == 1 {
        DropLast(View(), cmp);
        ghost var s := View();
        size := 0;
        assert View() == s[..1];
      } else {
        SiftDown();
      }
    }

    // Takes the last node off the end, to be put into the given slot.
    method TakeLast(slot: nat) returns (last: Node)
      requires Valid() && 1 <= slot < size
      modifies this`size
      ensures size == old(size) - 1 && Holed(slot, last)
      ensures old(Contents()) == Bag(With(slot, last)) + multiset{old(nodes[slot])}
    {
      hide TotalPreorder, Ordered, Hole, Bag;
      ghost var s := View();
      LastOpensHole(s, slot, cmp);
      last := nodes[size];
      size := size - 1;
      assert With(slot, last) == s[..size + 1][slot := last];
    }

    // The percolating loop of extract, for two nodes or more.
    method SiftDown()
      requires Valid() && size > 1
      modifies this`size, nodes
      ensures Valid() && old(Contents()) == Contents() + multiset{old(nodes[1])} && size == old(size) - 1
    {
      hide TotalPreorder, Ordered, Hole, Bag, SmallerChild, BelowIsFine, AboveIsFine;
      var last := TakeLast(1);
      NotLessIsFine(With(1, last), 1, cmp);
      ghost var bag := Bag(With(1, last));
      var i := 1;
      while i * 2 <= size
        invariant Holed(i, last) && AboveIsFine(With(i, last), i, cmp) && Bag(With(i, last)) == bag
        modifies nodes
        decreases size - i
      {
        var child := PickChild(i, last);
        var key := KeyAt(child, i);
        if cmp(last.key, key) >= 0 {
          Lower(i, child, last);
          i := child;
        } else {
          LessIsFine(With(i, last), i, child, cmp);
          break;
        }
      }
      NoChildIsFine(With(i, last), i, cmp);
      Settle(i, last);
    }

    /** The first node whose key compares equal; 0 if there is none. */
    method Find(data: Ptr) returns (at: nat)
      requires Valid()
      ensures at <= size
      ensures at > 0 ==> cmp(nodes[at].key, data) == 0
      ensures forall i :: 1 <= i <= size && (at == 0 || i < at) ==> cmp(nodes[i].key, data) != 0
    {
      at := 1;
      while at <= size
        invariant 1 <= at <= size + 1
        invariant forall i :: 1 <= i < at ==> cmp(nodes[i].key, data) != 0
      {
        if cmp(nodes[at].key, data) == 0 { return; }
        at := at + 1;
      }
      at := 0;
    }

    /** Takes out the node in the given slot; a slot that is not in use is refused. */
    method Remove(slot: int) returns (ok: bool)
      requires Valid()
      modifies this`size, nodes
      ensures Valid() && ok == (1 <= slot <= old(size))
      ensures ok ==> old(Contents()) == Contents() + multiset{old(nodes[slot])} && size == old(size) - 1
      ensures !ok ==> View() == old(View())
    {
      if size == 0 { return false; }
      if slot <= 0 || slot > size { return false; }
      if slot == size { RemoveLast(); } else { SiftBothWays(slot); }
      return true;
    }

    method RemoveLast()
      requires Valid() && size > 0
      modifies this`size, nodes
      ensures Valid() && old(Contents()) == Contents() + multiset{old(nodes[size])} && size == old(size) - 1
    {
      ghost var s := View();
      DropLast(s, cmp);
      hide TotalPreorder, Ordered, Bag;
      nodes[size] := Node(NULL, NULL);
      size := size - 1;
      assert View() == s[..size + 1];
    }

    // Clears the slot whose node is being removed.
    method Vacate(slot: nat, ghost last: Node)
      requires Shaped() && 1 <= slot <= size
      modifies nodes
      ensures With(slot, last) == old(With(slot, last))
    {
      ghost var v := With(slot, last);
      nodes[slot] := Node(NULL, NULL);
      assert With(slot, last) == v;
    }

    // One attempt to move the hole up; a hole that has moved down stays.
    method TryUp(idx: nat, last: Node, ghost down: bool) returns (moved: bool)
      requires Holed(idx, last) && (down ==> AboveIsFine(With(idx, last), idx, cmp))
      modifies nodes
      ensures moved ==> !down && idx >= 2 && Holed(idx / 2, last) && BelowIsGreater(With(idx / 2, last), idx / 2, cmp)
                        && Bag(With(idx / 2, last)) == old(Bag(With(idx, last)))
      ensures !moved ==> Holed(idx, last) && AboveIsFine(With(idx, last), idx, cmp)
                         && With(idx, last) == old(With(idx, last))
    {
      hide TotalPreorder, Hole, Bag, BelowIsGreater, AboveIsFine;
      var parent := idx / 2;
      NotLessIsFine(With(idx, last), idx, cmp);
      if parent != 0 {
        if down { AboveIsNotGreater(With(idx, last), idx, cmp); }
        var key := KeyAt(parent, idx);
        if cmp(last.key, key) < 0 {
          Raise(idx, last);
          return true;
        }
      }
      return false;
    }

    // One attempt to move the hole down; a hole that has moved up stays.
    method TryDown(idx: nat, last: Node, ghost up: bool) returns (to: nat)
      requires Holed(idx, last) && AboveIsFine(With(idx, last), idx, cmp)
      requires up ==> BelowIsGreater(With(idx, last), idx, cmp)
      modifies nodes
      ensures to != idx ==> !up && idx < to <= size && Holed(to, last) && AboveIsFine(With(to, last), to, cmp)
                            && Bag(With(to, last)) == old(Bag(With(idx, last)))
      ensures to == idx ==> Holed(idx, last) && BelowIsFine(With(idx, last), idx, cmp)
                            && With(idx, last) == old(With(idx, last))
    {
      hide TotalPreorder, Hole, Bag, BelowIsGreater, BelowIsFine, AboveIsFine, SmallerChild;
      NoChildIsFine(With(idx, last), idx, cmp);
      if idx * 2 > size { return idx; }
      var child := PickChild(idx, last);
      if up { BelowIsNotLess(With(idx, last), idx, child, cmp); }
      var key := KeyAt(child, idx);
      if cmp(last.key, key) >= 0 {
        Lower(idx, child, last);
        return child;
      }
      LessIsFine(With(idx, last), idx, child, cmp);
      return idx;
    }

    // The loop of remove, which may move the hole up or down.  A hole that has moved up has
    // greater nodes below it, one that has moved down has none greater above it, so the
    // direction never changes and the loop ends.
    method SiftBothWays(slot: nat)
      requires Valid() && 1 <= slot < size
      modifies this`size, nodes
      ensures Valid() && old(Contents()) == Contents() + multiset{old(nodes[slot])} && size == old(size) - 1
    {
      hide TotalPreorder, Ordered, Hole, Bag, BelowIsFine, BelowIsGreater, AboveIsFine;
      var last := TakeLast(slot);
      Vacate(slot, last);
      var idx := slot;
      ghost var bag := Bag(With(slot, last));
      ghost var up, down := false, false;
      while true
        invariant Holed(idx, last) && Bag(With(idx, last)) == bag && !(up && down)
        invariant up ==> BelowIsGreater(With(idx, last), idx, cmp)
        invariant down ==> AboveIsFine(With(idx, last), idx, cmp)
        modifies nodes
        decreases if up || down then 0 else 1, if down then size - idx else idx
      {
        var moved := TryUp(idx, last, down);
        if moved {
          idx, up := idx / 2, true;
          continue;
        }
        var to := TryDown(idx, last, up);
        if to == idx { break; }
        idx, down := to, true;
      }
      Settle(idx, last);
    }
  }
}
