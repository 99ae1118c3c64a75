/** Comparison functions (muggle/c/dsaa/dsaa_utils.h): data are compared through a
    caller-supplied three-way comparison.  Data are pointers; only the comparison looks
    behind them, so a pointer is modelled as a number and the comparison as any total
    preorder on numbers. */
module Ordering {
  type Ptr = int
  type Cmp = (Ptr, Ptr) -> int

  ghost predicate TotalPreorder(cmp: Cmp) {
    && (forall a, b :: cmp(a, b) < 0 <==> cmp(b, a) > 0)
    && (forall a, b, c :: cmp(a, b) <= 0 && cmp(b, c) <= 0 ==> cmp(a, c) <= 0)
  }

  lemma Flip(cmp: Cmp, a: Ptr, b: Ptr)
    requires TotalPreorder(cmp)
    ensures (cmp(a, b) < 0 <==> cmp(b, a) > 0) && (cmp(a, b) == 0 <==> cmp(b, a) == 0)
  {
    assert (cmp(a, b) < 0 <==> cmp(b, a) > 0) && (cmp(b, a) < 0 <==> cmp(a, b) > 0);
  }

  lemma Transitive(cmp: Cmp, a: Ptr, b: Ptr, c: Ptr)
    requires TotalPreorder(cmp)
    requires cmp(a, b) <= 0 && cmp(b, c) <= 0
    ensures cmp(a, c) <= 0
    ensures cmp(a, b) < 0 || cmp(b, c) < 0 ==> cmp(a, c) < 0
  {
    if cmp(a, c) >= 0 {
      assert cmp(c, a) <= 0;
      assert cmp(c, b) <= 0 && cmp(b, a) <= 0;
    }
  }
}
