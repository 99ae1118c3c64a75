/** Small things that several modules share. */
module Options {
  datatype Option<T> = None | Some(value: T)
}

module Words {
  const TWO_TO_31: nat := 0x8000_0000
  const TWO_TO_32: nat := 0x1_0000_0000
  const TWO_TO_64: nat := 0x1_0000_0000_0000_0000
  const TWO_TO_128: nat := 0x1_0000_0000_0000_0000_0000_0000_0000_0000
}

module Sequences {
  ghost predicate NoDup<T>(s: seq<T>) {
    forall i, j :: 0 <= i < j < |s| ==> s[i] != s[j]
  }

  lemma TailNoDup<T>(q: seq<T>, b: T, r: seq<T>)
    requires NoDup(q) && q == [b] + r
    ensures NoDup(r) && b !in r && forall x :: x in q <==> x == b || x in r
  {
    assert q[0] == b && forall j :: 0 <= j < |r| ==> r[j] == q[j + 1];
  }

  lemma ConsNoDup<T>(b: T, r: seq<T>)
    requires NoDup(r) && b !in r
    ensures NoDup([b] + r) && forall x :: x in [b] + r <==> x == b || x in r
  {
    var q := [b] + r;
    assert q[0] == b && forall j :: 0 <= j < |r| ==> r[j] == q[j + 1];
  }
}
