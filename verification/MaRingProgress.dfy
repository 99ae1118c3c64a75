/** What the asynchronous rings get done (muggle/c/sync/ma_ring.c): the backend alone, from the
    start of its loop to the next, empties every ring; a producer with room moves its item; and
    a cleanup comes to its end. */
module MaRingProgress {
  import opened MaRing
  import opened MaRingCapacity
  import opened PowerOfTwo
  import opened Sequences

  // ---------------------------------------------------------------- the backend alone

  ghost function BackendStep(s: State): (u: State)
    requires Inv(s)
    ensures Inv(u)
  {
    hide Inv;
    if Enabled(s, ByBackend) then
      StepKeepsInv(s, ByBackend);
      BackendApply(s)
    else s
  }

  // The state after n steps of the backend.
  ghost function After(s: State, n: nat): (u: State)
    requires Inv(s)
    ensures Inv(u)
    decreases n
  {
    hide Inv;
    if n == 0 then s else BackendStep(After(s, n - 1))
  }

  // The backend comes from s to u without coming to the start of its loop.
  ghost predicate Leads(s: State, u: State)
    requires Inv(s)
  {
    exists n: nat :: After(s, n) == u && forall k :: 0 < k <= n ==> After(s, k).bpc != BLock
  }

  lemma LeadsItself(s: State)
    requires Inv(s)
    ensures Leads(s, s)
  {
    hide Inv;
    assert After(s, 0) == s;
  }

  lemma LeadsOn(a: State, s: State)
    requires Inv(a) && Inv(s) && Leads(a, s) && Enabled(s, ByBackend) && Safe(s, ByBackend)
    requires BackendApply(s).bpc != BLock
    ensures Inv(BackendApply(s)) && Leads(a, BackendApply(s))
  {
    hide Inv, BackendApply, Safe, Enabled;
    var n: nat :| After(a, n) == s && forall k :: 0 < k <= n ==> After(a, k).bpc != BLock;
    assert After(a, n + 1) == BackendStep(s) == BackendApply(s);
  }

  lemma LeadsTo(a: State, s: State, u: State)
    requires Inv(a) && Inv(s) && Leads(a, s) && Enabled(s, ByBackend) && Safe(s, ByBackend)
    requires u == BackendApply(s) && u.bpc != BLock
    ensures Inv(u) && Leads(a, u)
  {
    hide Inv, Leads, BackendApply;
    LeadsOn(a, s);
  }

  // ---------------------------------------------------------------- handle_new

  // Nothing is waiting to be taken over, and ring_list has what it had and what waited.
  ghost predicate TookOver(s: State, u: State) {
    && u.add == [] && u.spin == Nobody && u.bpc == BScan(0)
    && u.cap == s.cap && u.rings == s.rings && u.producers == s.producers
    && forall k :: k in u.list <==> k in s.add || k in s.list
  }

  lemma TakeOne(a: State, s: State) returns (u: State)
    requires Inv(a) && Inv(s) && Leads(a, s) && s.bpc == BTakeNew && s.add != []
    ensures Inv(u) && Leads(a, u) && u == s.(add := s.add[1..], list := [s.add[0]] + s.list)
  {
    hide Inv, Leads;
    var s1 := s.(bpc := BLoadNew);
    LeadsTo(a, s, s1);
    var s2 := s.(bpc := BLinkNew(s.add));
    LeadsTo(a, s1, s2);
    u := s.(add := s.add[1..], list := [s.add[0]] + s.list);
    LeadsTo(a, s2, u);
  }

  lemma {:induction false} TakeAll(a: State, s: State) returns (u: State)
    requires Inv(a) && Inv(s) && Leads(a, s) && s.bpc == BTakeNew
    ensures Inv(u) && Leads(a, u) && TookOver(s, u)
    decreases |s.add|
  {
    hide Inv, Leads;
    if s.add == [] {
      var s1 := s.(bpc := BUnlock);
      LeadsTo(a, s, s1);
      u := s.(spin := Nobody, bpc := BScan(0));
      LeadsTo(a, s1, u);
    } else {
      var v := TakeOne(a, s);
      u := TakeAll(a, v);
      assert s.add == [s.add[0]] + s.add[1..];
    }
  }

  // ---------------------------------------------------------------- consume

  // Ring k has been called back and accounted for, and is otherwise as it was.
  ghost predicate DrainedRing(g: Ring, h: Ring) {
    h == g.(called := g.moved, rpos := h.rpos, stored := |g.moved|)
  }

  ghost predicate OnlyRing(s: State, u: State, id: RingId) {
    && u.cap == s.cap && u.add == s.add && u.list == s.list && u.spin == s.spin && u.producers == s.producers
    && u.rings.Keys == s.rings.Keys && (forall k :: k in s.rings && k != id ==> u.rings[k] == s.rings[k])
  }

  // Where consume stands: items called back up to here, up to what had been moved.
  lemma CallFacts(s: State)
    requires Inv(s) && s.bpc.BCall?
    ensures Safe(s, ByBackend) && s.bpc.i < |s.list| && s.list[s.bpc.i] in s.rings
    ensures var g := s.rings[s.list[s.bpc.i]];
            && |g.called| <= s.bpc.upto <= |g.moved| && |g.called| == g.stored + s.bpc.n
            && g.called == g.moved[..|g.called|]
            && (s.bpc.r == s.bpc.w <==> |g.called| == s.bpc.upto)
  {
    hide Inv, Mod, HasOwner, Lists, Consumed;
    BackendIsSafe(s);
    BackendIn(s);
    var g := s.rings[s.list[s.bpc.i]];
    SameSlot(s.bpc.upto, |g.called|, s.cap);
  }

  // The ring in hand, with what the invariant says of it.
  lemma BackendIn(s: State)
    requires Inv(s) && s.bpc.BCall?
    ensures BackendAt(s) && RingData(s.cap, s.rings[s.list[s.bpc.i]]) && !s.rings[s.list[s.bpc.i]].freed
  {
    hide Data, Mod, RingData, Owns, Consumed;
    ListFacts(s);
    RingFacts(s, s.list[s.bpc.i]);
  }

  lemma CallOne(a: State, s: State) returns (u: State)
    requires Inv(a) && Inv(s) && Leads(a, s) && s.bpc.BCall? && s.bpc.r != s.bpc.w
    ensures Inv(u) && Leads(a, u) && u.bpc.BCall? && u.bpc.i == s.bpc.i && u.bpc.upto == s.bpc.upto
    ensures s.bpc.i < |s.list| && OnlyRing(s, u, s.list[s.bpc.i]) && s.list[s.bpc.i] in s.rings
    ensures var g, h := s.rings[s.list[s.bpc.i]], u.rings[s.list[s.bpc.i]];
            |h.called| == |g.called| + 1 && h == g.(called := h.called)
  {
    hide Inv, Leads;
    CallFacts(s);
    u := BackendApply(s);
    LeadsTo(a, s, u);
  }

  lemma CallNoMore(a: State, s: State) returns (u: State)
    requires Inv(a) && Inv(s) && Leads(a, s) && s.bpc.BCall? && s.bpc.r == s.bpc.w
    requires s.bpc.i < |s.list| && s.list[s.bpc.i] in s.rings && s.bpc.upto == |s.rings[s.list[s.bpc.i]].moved|
    ensures Inv(u) && Leads(a, u) && u.bpc == BScan(s.bpc.i + 1) && OnlyRing(s, u, s.list[s.bpc.i])
    ensures DrainedRing(s.rings[s.list[s.bpc.i]], u.rings[s.list[s.bpc.i]])
  {
    hide Inv, Leads;
    CallFacts(s);
    var i, id := s.bpc.i, s.list[s.bpc.i];
    var g := s.rings[id];
    assert g.moved[..|g.moved|] == g.moved;
    if s.bpc.n == 0 {
      u := s.(bpc := BScan(i + 1));
      LeadsTo(a, s, u);
    } else {
      var v := s.(bpc := BStore(i, s.bpc.r));
      LeadsTo(a, s, v);
      u := SetRing(s.(bpc := BScan(i + 1)), id, g.(rpos := s.bpc.r, stored := |g.called|));
      StoreIs(v);
      LeadsTo(a, v, u);
    }
  }

  lemma StoreIs(s: State)
    requires Inv(s) && s.bpc.BStore?
    ensures Safe(s, ByBackend)
    ensures var g := s.rings[s.list[s.bpc.i]];
            BackendApply(s) ==
            SetRing(s.(bpc := BScan(s.bpc.i + 1)), s.list[s.bpc.i], g.(rpos := s.bpc.r, stored := |g.called|))
  {
    hide Inv;
    BackendIsSafe(s);
    assert s.list[s.bpc.i] in Touched(s);
  }

  lemma {:induction false} CallAll(a: State, s: State) returns (u: State)
    requires Inv(a) && Inv(s) && Leads(a, s) && s.bpc.BCall?
    requires s.bpc.i < |s.list| && s.list[s.bpc.i] in s.rings && s.bpc.upto == |s.rings[s.list[s.bpc.i]].moved|
    ensures Inv(u) && Leads(a, u) && u.bpc == BScan(s.bpc.i + 1) && OnlyRing(s, u, s.list[s.bpc.i])
    ensures DrainedRing(s.rings[s.list[s.bpc.i]], u.rings[s.list[s.bpc.i]])
    decreases s.bpc.upto - |s.rings[s.list[s.bpc.i]].called|
  {
    hide Inv, Leads;
    CallFacts(s);
    if s.bpc.r == s.bpc.w {
      u := CallNoMore(a, s);
    } else {
      var v := CallOne(a, s);
      CallFacts(v);
      u := CallAll(a, v);
    }
  }

  lemma Consume(a: State, s: State) returns (u: State)
    requires Inv(a) && Inv(s) && Leads(a, s) && s.bpc.BScan? && s.bpc.i < |s.list|
    ensures Inv(u) && Leads(a, u) && u.bpc == BScan(s.bpc.i + 1) && s.list[s.bpc.i] in s.rings
    ensures OnlyRing(s, u, s.list[s.bpc.i]) && DrainedRing(s.rings[s.list[s.bpc.i]], u.rings[s.list[s.bpc.i]])
  {
    hide Inv, Leads;
    BackendIsSafe(s);
    assert s.list[s.bpc.i] in Touched(s);
    var g := s.rings[s.list[s.bpc.i]];
    var v := s.(bpc := BCall(s.bpc.i, g.wpos, g.rpos, 0, |g.moved|));
    LeadsTo(a, s, v);
    u := CallAll(a, v);
  }

  // The rings of ring_list from i on are drained, the others as before.
  ghost predicate DrainedFrom(s: State, u: State, i: nat) {
    && i <= |s.list| && u.cap == s.cap && u.add == s.add && u.list == s.list
    && u.spin == s.spin && u.producers == s.producers
    && u.rings.Keys == s.rings.Keys
    && (forall k :: k in s.rings && k !in s.list[i..] ==> u.rings[k] == s.rings[k])
    && (forall k :: k in s.rings && k in s.list[i..] ==> DrainedRing(s.rings[k], u.rings[k]))
  }

  lemma InvLists(s: State)
    requires Inv(s)
    ensures NoDup(s.list) && forall i :: 0 <= i < |s.list| ==> s.list[i] in s.rings
  {
    hide Data;
    ListFacts(s);
  }

  lemma {:induction false} ConsumeAll(a: State, s: State) returns (u: State)
    requires Inv(a) && Inv(s) && Leads(a, s) && s.bpc.BScan? && s.bpc.i <= |s.list|
    ensures Inv(u) && Leads(a, u) && u.bpc == BCheck(0) && DrainedFrom(s, u, s.bpc.i)
    decreases |s.list| - s.bpc.i
  {
    hide Inv, Leads, NoDup;
    var i := s.bpc.i;
    if i == |s.list| {
      u := s.(bpc := BCheck(0));
      LeadsTo(a, s, u);
    } else {
      InvLists(s);
      var v := Consume(a, s);
      u := ConsumeAll(a, v);
      FirstOfRest(s.list, i);
      hide OnlyRing;
      DrainedMore(s, v, u, i);
    }
  }

  lemma FirstOfRest(q: seq<RingId>, i: nat)
    requires NoDup(q) && i < |q|
    ensures q[i] !in q[i + 1..] && forall k :: k in q[i..] <==> k == q[i] || k in q[i + 1..]
  {
    assert q[i..] == [q[i]] + q[i + 1..];
  }

  lemma DrainedMore(s: State, v: State, u: State, i: nat)
    requires i < |s.list| && s.list[i] in s.rings && OnlyRing(s, v, s.list[i])
    requires DrainedRing(s.rings[s.list[i]], v.rings[s.list[i]]) && DrainedFrom(v, u, i + 1)
    requires s.list[i] !in s.list[i + 1..] && forall k :: k in s.list[i..] <==> k == s.list[i] || k in s.list[i + 1..]
    ensures DrainedFrom(s, u, i)
  {
  }

  // ---------------------------------------------------------------- handle_remove

  // Rings of ring_list from i on that waited for it are done and off the list; the others are
  // as before.
  ghost predicate RemovedFrom(s: State, u: State, i: nat) {
    && i <= |s.list| && u.cap == s.cap && u.add == s.add && u.spin == s.spin && u.producers == s.producers
    && u.rings.Keys == s.rings.Keys
    && (forall k :: k in s.rings ==>
          if k in s.list[i..] && s.rings[k].status == WaitRemove then
            u.rings[k] == s.rings[k].(status := Done) && k !in u.list
          else u.rings[k] == s.rings[k] && (k in u.list <==> k in s.list))
  }

  ghost predicate OneRemoved(s: State, u: State, i: nat) {
    && i < |s.list| && s.list[i] in s.rings && u.list == s.list[..i] + s.list[i + 1..] && u.bpc == BCheck(i)
    && u.cap == s.cap && u.add == s.add && u.spin == s.spin && u.producers == s.producers
    && u.rings.Keys == s.rings.Keys && u.rings[s.list[i]] == s.rings[s.list[i]].(status := Done)
    && (forall k :: k in s.rings && k != s.list[i] ==> u.rings[k] == s.rings[k])
  }

  lemma RemoveOne(a: State, s: State) returns (u: State)
    requires Inv(a) && Inv(s) && Leads(a, s) && s.bpc.BCheck? && s.bpc.i < |s.list|
    requires s.list[s.bpc.i] in s.rings && s.rings[s.list[s.bpc.i]].status == WaitRemove
    ensures var i := s.bpc.i;
            && Inv(u) && Leads(a, u)
            && OneRemoved(s, u, i)
  {
    hide Inv, Leads;
    var i := s.bpc.i;
    var id := s.list[i];
    BackendIsSafe(s);
    assert id in Touched(s);
    var s1 := s.(bpc := BDone(i));
    LeadsTo(a, s, s1);
    BackendIsSafe(s1);
    assert id in Touched(s1);
    var s2 := SetRing(s.(bpc := BUnlink(i)), id, s.rings[id].(status := Done));
    LeadsTo(a, s1, s2);
    u := SetRing(s.(list := s.list[..i] + s.list[i + 1..]), id, s.rings[id].(status := Done));
    LeadsTo(a, s2, u);
  }

  lemma KeepOne(a: State, s: State) returns (u: State)
    requires Inv(a) && Inv(s) && Leads(a, s) && s.bpc.BCheck? && s.bpc.i < |s.list|
    requires s.list[s.bpc.i] in s.rings && s.rings[s.list[s.bpc.i]].status != WaitRemove
    ensures Inv(u) && Leads(a, u) && u == s.(bpc := BCheck(s.bpc.i + 1))
  {
    hide Inv, Leads;
    BackendIsSafe(s);
    assert s.list[s.bpc.i] in Touched(s);
    u := s.(bpc := BCheck(s.bpc.i + 1));
    LeadsTo(a, s, u);
  }

  lemma RemovedMore(s: State, v: State, u: State, i: nat)
    requires i < |s.list| && s.list[i] in s.rings && s.rings[s.list[i]].status == WaitRemove
    requires s.list[i] !in s.list[i + 1..] && forall k :: k in s.list[i..] <==> k == s.list[i] || k in s.list[i + 1..]
    requires forall k :: k in s.list[..i] + s.list[i + 1..] <==> k in s.list && k != s.list[i]
    requires OneRemoved(s, v, i) && RemovedFrom(v, u, i)
    ensures RemovedFrom(s, u, i)
  {
    assert v.list[i..] == s.list[i + 1..];
    forall k | k in s.rings
      ensures if k in s.list[i..] && s.rings[k].status == WaitRemove then
                u.rings[k] == s.rings[k].(status := Done) && k !in u.list
              else u.rings[k] == s.rings[k] && (k in u.list <==> k in s.list)
    {
      assert k in v.list[i..] <==> k in s.list[i + 1..];
      assert k in v.list <==> k in s.list && k != s.list[i];
      if k == s.list[i] { assert v.rings[k].status == Done; }
    }
  }

  lemma KeptMore(s: State, v: State, u: State, i: nat)
    requires i < |s.list| && s.list[i] in s.rings && s.rings[s.list[i]].status != WaitRemove
    requires s.list[i] !in s.list[i + 1..] && forall k :: k in s.list[i..] <==> k == s.list[i] || k in s.list[i + 1..]
    requires v == s.(bpc := BCheck(i + 1)) && RemovedFrom(v, u, i + 1)
    ensures RemovedFrom(s, u, i)
  {
  }

  lemma {:induction false} RemoveAll(a: State, s: State) returns (u: State)
    requires Inv(a) && Inv(s) && Leads(a, s) && s.bpc.BCheck? && s.bpc.i <= |s.list|
    ensures Inv(u) && Leads(a, u) && u.bpc == BCheck(|u.list|) && RemovedFrom(s, u, s.bpc.i)
    decreases |s.list| - s.bpc.i
  {
    hide Inv, Leads, NoDup;
    var i := s.bpc.i;
    InvLists(s);
    if i == |s.list| {
      u := s;
    } else {
      FirstOfRest(s.list, i);
      if s.rings[s.list[i]].status == WaitRemove {
        var v := RemoveOne(a, s);
        u := RemoveAll(a, v);
        UnlinkedList(s.list, i);
        RemovedMore(s, v, u, i);
      } else {
        var v := KeepOne(a, s);
        u := RemoveAll(a, v);
        KeptMore(s, v, u, i);
      }
    }
  }

  // ---------------------------------------------------------------- the whole loop

  // Every ring that was listed has been called back to the last item moved; those that waited
  // to be removed are done and off the list; nothing is left to be taken over.
  ghost predicate Swept(s: State, u: State) {
    && u.add == [] && u.spin == Nobody && u.cap == s.cap && u.producers == s.producers && u.rings.Keys == s.rings.Keys
    && (forall k :: k in s.rings && (k in s.add || k in s.list) ==>
          && u.rings[k].called == u.rings[k].moved == s.rings[k].moved && !u.rings[k].freed
          && u.rings[k].status == (if s.rings[k].status == WaitRemove then Done else s.rings[k].status)
          && (k in u.list <==> s.rings[k].status != WaitRemove))
    && (forall k :: k in s.rings && k !in s.add && k !in s.list ==> u.rings[k] == s.rings[k] && k !in u.list)
  }

  lemma ListedAreAlive(s: State, k: RingId)
    requires Inv(s) && (k in s.add || k in s.list) && (s.bpc.BLock? || s.bpc.BScan?)
    ensures k in s.rings && !s.rings[k].freed
  {
    hide Data, Mod, Consumed;
    ListFacts(s);
    RingFacts(s, k);
  }

  lemma SweptIs(s: State, v: State, w: State, u: State)
    requires Inv(s) && s.bpc == BLock && TookOver(s, v) && DrainedFrom(v, w, 0) && RemovedFrom(w, u, 0)
    ensures Swept(s, u.(bpc := BLock))
  {
    hide Inv;
    assert v.list[0..] == v.list && w.list[0..] == w.list;
    forall k | k in s.add || k in s.list
      ensures k in s.rings && !s.rings[k].freed
    {
      ListedAreAlive(s, k);
    }
  }

  /** From the start of its loop, with the spinlock free, the backend alone comes to the start
      again, and has then called back every item of every ring that was listed or waiting to
      be, and has taken the rings that waited for it off the list. */
  lemma EveryLoopSweeps(s: State) returns (n: nat)
    requires Inv(s) && s.bpc == BLock && s.spin == Nobody
    ensures 0 < n && After(s, n).bpc == BLock && forall k :: 0 < k < n ==> After(s, k).bpc != BLock
    ensures Swept(s, After(s, n))
  {
    hide Inv, Leads, TookOver, DrainedFrom, RemovedFrom, Swept;
    LeadsItself(s);
    var s1 := s.(spin := Backend, bpc := BTakeNew);
    LeadsTo(s, s, s1);
    var v := TakeAll(s, s1);
    StartsToTakeOver(s, s1, v);
    var w := ConsumeAll(s, v);
    var u := RemoveAll(s, w);
    SweptIs(s, v, w, u);
    n := LastStep(s, u);
  }

  lemma StartsToTakeOver(s: State, s1: State, v: State)
    requires s1 == s.(spin := Backend, bpc := BTakeNew) && TookOver(s1, v)
    ensures TookOver(s, v) && v.bpc == BScan(0)
  {
  }

  lemma LastStep(s: State, u: State) returns (n: nat)
    requires Inv(s) && Inv(u) && Leads(s, u) && u.bpc == BCheck(|u.list|)
    ensures 0 < n && After(s, n) == u.(bpc := BLock) && forall k :: 0 < k < n ==> After(s, k).bpc != BLock
  {
    hide Inv;
    var m: nat :| After(s, m) == u && forall k :: 0 < k <= m ==> After(s, k).bpc != BLock;
    n := m + 1;
    BackendIsSafe(u);
    assert After(s, n) == BackendStep(u);
  }

  // ---------------------------------------------------------------- a producer moves its item

  /** Once it has reloaded the read position, a producer is let on if and only if there is room
      for its item: fewer than capacity - 1 items have not been accounted for. */
  lemma LetOnIffRoom(s: State, t: Thread) returns (s1: State, s2: State)
    requires Inv(s) && t in s.producers && s.producers[t].pc == PReload
    ensures Enabled(s, ByProducer(t, Reload)) && Safe(s, ByProducer(t, Reload)) && s1 == ProducerApply(s, t, Reload)
    ensures Inv(s1) && Enabled(s1, ByProducer(t, Compare)) && Safe(s1, ByProducer(t, Compare))
    ensures s2 == ProducerApply(s1, t, Compare) && s.producers[t].ring in s.rings && t in s2.producers
    ensures s2.producers[t].pc == PPublish || s2.producers[t].pc == PReload
    ensures var g := s.rings[s.producers[t].ring];
            s2.producers[t].pc == PPublish <==> |g.moved| + 1 < g.stored + s.cap
  {
    hide Mod, Gap, Next, Inv;
    OwnRing(s, t);
    StepKeepsInv(s, ByProducer(t, Reload));
    var g := s.rings[s.producers[t].ring];
    GapAfterReload(s.cap, g.stored, |g.moved|);
    GapIsZero(s.cap, g.rpos, |g.moved|);
    s1 := ProducerApply(s, t, Reload);
    s2 := ProducerApply(s1, t, Compare);
  }

  lemma OwnRing(s: State, t: Thread)
    requires Inv(s) && t in s.producers && s.producers[t].pc != NoRing
    ensures s.producers[t].ring in s.rings && 1 <= s.cap
    ensures var g := s.rings[s.producers[t].ring];
            && !g.freed && g.wpos == Mod(|g.moved|, s.cap) && g.rpos == Mod(g.stored, s.cap)
            && g.stored <= |g.moved| < g.stored + s.cap && |g.buf| == s.cap
  {
    hide Data, Mod, Gap;
    ListFacts(s);
    RingOf(s, t);
  }

  lemma IsLetOn(a: State, s: State, t: Thread) returns (u: State)
    requires Inv(s) && Reaches(a, s) && t in s.producers && s.producers[t].pc == PCompare
    requires s.producers[t].ring in s.rings
    requires |s.rings[s.producers[t].ring].moved| + 1 < s.rings[s.producers[t].ring].stored + s.cap
    ensures Inv(u) && Reaches(a, u) && t in u.producers && u == s.(producers := u.producers)
    ensures u.producers == s.producers[t := s.producers[t].(pc := PPublish, cachedR := u.producers[t].cachedR)]
  {
    hide Inv, Reaches, Next;
    OwnRing(s, t);
    u := Do(a, s, t, Compare);
    if u.producers[t].pc == PReload {
      var r, c := LetOnIffRoom(u, t);
      var v := Do(a, u, t, Reload);
      u := Do(a, v, t, Compare);
    }
  }

  /** With room, a call of move comes to its end in at most five steps of its own, and has then
      moved what stood in the block that alloc gave. */
  lemma MoveAlone(s: State, t: Thread) returns (u: State)
    requires Inv(s) && t in s.producers && s.producers[t].pc == Ready
    requires |s.rings[s.producers[t].ring].moved| + 1 < s.rings[s.producers[t].ring].stored + s.cap
    ensures Inv(u) && Reaches(s, u) && t in u.producers && u.producers[t].pc == Ready
    ensures s.producers[t].ring == u.producers[t].ring
    ensures s.producers[t].ring in u.rings && s.producers[t].ring in s.rings
    ensures var g, h := s.rings[s.producers[t].ring], u.rings[s.producers[t].ring];
            g.wpos < |g.buf| && h == g.(wpos := Next(s.cap, g.wpos), moved := g.moved + [g.buf[g.wpos]])
    ensures forall v :: v in s.producers && v != t ==> v in u.producers && u.producers[v] == s.producers[v]
  {
    hide Inv, Reaches, Next;
    OwnRing(s, t);
    ReachesItself(s);
    var s1 := Do(s, s, t, CallMove);
    var s2 := IsLetOn(s, s1, t);
    u := Do(s, s2, t, Publish);
  }

  // One step of a producer, on the way from a.
  lemma Do(a: State, s: State, t: Thread, ps: ProducerStep) returns (u: State)
    requires Inv(s) && Reaches(a, s) && Enabled(s, ByProducer(t, ps))
    ensures Safe(s, ByProducer(t, ps)) && u == ProducerApply(s, t, ps) && Inv(u) && Reaches(a, u)
  {
    hide Inv, Reaches, ProducerApply;
    StepKeepsInv(s, ByProducer(t, ps));
    ProducerOn(a, s, t, ps);
    u := ProducerApply(s, t, ps);
  }

  // ---------------------------------------------------------------- what is filled in is moved

  // The block that thread t is about to move holds m.
  ghost predicate Holds(s: State, t: Thread, m: Msg) {
    && t in s.producers
    && (s.producers[t].pc != NoRing ==>
          && s.producers[t].ring in s.rings
          && var g := s.rings[s.producers[t].ring]; g.wpos < |g.buf| && g.buf[g.wpos] == m)
  }

  // A step of thread t that gives the block other contents, or takes another block.
  predicate Renews(t: Thread, step: Step) {
    step.ByProducer? && step.t == t && (step.ps.Fill? || step.ps.Publish? || step.ps.SetUp?)
  }

  lemma OwnStepKeepsItem(s: State, t: Thread, ps: ProducerStep, m: Msg)
    requires Inv(s) && Enabled(s, ByProducer(t, ps)) && Safe(s, ByProducer(t, ps)) && !Renews(t, ByProducer(t, ps))
    requires Holds(s, t, m)
    ensures Holds(ProducerApply(s, t, ps), t, m)
  {
    hide Inv;
  }

  lemma OtherStepKeepsItem(s: State, t: Thread, u: Thread, ps: ProducerStep, m: Msg)
    requires Inv(s) && Enabled(s, ByProducer(u, ps)) && Safe(s, ByProducer(u, ps)) && u != t && Holds(s, t, m)
    ensures Holds(ProducerApply(s, u, ps), t, m)
  {
    hide Data;
    if s.producers[t].pc != NoRing && s.producers[u].pc != NoRing {
      OthersOwnOthers(s, t, u);
    }
  }

  lemma BackendKeepsItem(s: State, t: Thread, m: Msg)
    requires Inv(s) && Enabled(s, ByBackend) && Safe(s, ByBackend) && Holds(s, t, m)
    ensures Holds(BackendApply(s), t, m)
  {
    hide Inv;
  }

  lemma StepKeepsItem(s: State, step: Step, t: Thread, m: Msg)
    requires Inv(s) && Enabled(s, step) && Safe(s, step) && Holds(s, t, m) && !Renews(t, step)
    ensures Holds(Apply(s, step), t, m)
  {
    hide Inv, ProducerApply, BackendApply, Renews;
    match step
    case ByProducer(u, ps) => if u == t { OwnStepKeepsItem(s, t, ps, m); } else { OtherStepKeepsItem(s, t, u, ps, m); }
    case ByBackend => BackendKeepsItem(s, t, m);
    case SetCapacity(_) =>
  }

  lemma OneStep(states: seq<State>, steps: seq<Step>, i: nat)
    requires Run(states, steps) && AllCareful(states, steps) && i < |steps|
    ensures i + 1 < |states| && Inv(states[i]) && Enabled(states[i], steps[i]) && Safe(states[i], steps[i])
    ensures states[i + 1] == Apply(states[i], steps[i]) && Inv(states[i + 1])
  {
    hide Inv, Careful, Enabled, Safe, Apply;
    InitIsInv(states[0]);
    GoesKeepsInv(states, steps, i);
    StepKeepsInv(states[i], steps[i]);
  }

  lemma {:induction false} ItemStays(states: seq<State>, steps: seq<Step>, j: nat, i: nat, t: Thread, m: Msg)
    requires Run(states, steps) && AllCareful(states, steps) && j < i <= |steps| && i < |states|
    requires steps[j] == ByProducer(t, Fill(m))
    requires forall x :: j < x < i ==> !Renews(t, steps[x])
    ensures Holds(states[i], t, m) && Inv(states[i])
    decreases i
  {
    hide Run, AllCareful, Inv, Renews, Holds, Safe;
    OneStep(states, steps, i - 1);
    if i == j + 1 {
      FillHolds(states[j], t, m);
    } else {
      ItemStays(states, steps, j, i - 1, t, m);
      StepKeepsItem(states[i - 1], steps[i - 1], t, m);
    }
  }

  lemma FillHolds(s: State, t: Thread, m: Msg)
    requires Enabled(s, ByProducer(t, Fill(m))) && Safe(s, ByProducer(t, Fill(m)))
    ensures Holds(ProducerApply(s, t, Fill(m)), t, m)
  {
  }

  /** In every run, what a producer last filled into its block is what its next move appends to
      the items of its ring. */
  lemma FilledIsMoved(states: seq<State>, steps: seq<Step>, j: nat, i: nat, t: Thread, m: Msg)
    requires Run(states, steps) && AllCareful(states, steps) && j < i < |steps|
    requires steps[j] == ByProducer(t, Fill(m)) && steps[i] == ByProducer(t, Publish)
    requires forall x :: j < x < i ==> !Renews(t, steps[x])
    ensures var s, u := states[i], states[i + 1];
            && t in s.producers && t in u.producers && s.producers[t].ring == u.producers[t].ring
            && s.producers[t].ring in s.rings && s.producers[t].ring in u.rings
            && u.rings[s.producers[t].ring].moved == s.rings[s.producers[t].ring].moved + [m]
  {
    hide Run, AllCareful, Inv, Renews;
    OneStep(states, steps, i);
    ItemStays(states, steps, j, i, t, m);
  }

  // ---------------------------------------------------------------- cleanup comes to its end

  lemma {:induction false} AfterIsReached(a: State, s: State, n: nat)
    requires Inv(s) && Reaches(a, s)
    ensures Reaches(a, After(s, n))
  {
    hide Inv, Reaches, BackendApply;
    if n == 0 {
    } else {
      AfterIsReached(a, s, n - 1);
      var v := After(s, n - 1);
      if Enabled(v, ByBackend) {
        StepKeepsInv(v, ByBackend);
        BackendOn(a, v);
      }
    }
  }

  // One round of the backend, on the way from a.
  lemma Sweep(a: State, s: State) returns (u: State)
    requires Inv(s) && s.bpc == BLock && s.spin == Nobody && Reaches(a, s)
    ensures Inv(u) && u.bpc == BLock && Reaches(a, u) && Swept(s, u)
  {
    hide Inv, Reaches, Swept;
    var n := EveryLoopSweeps(s);
    AfterIsReached(a, s, n);
    u := After(s, n);
  }

  lemma SweptRing(s: State, u: State, t: Thread)
    requires Inv(s) && Inv(u) && u.bpc == BLock && Swept(s, u) && t in s.producers
    requires s.producers[t].pc != NoRing && !Unlisted(s.producers[t].pc)
    ensures u.producers == s.producers && u.spin == Nobody
    ensures s.producers[t].ring in s.rings && s.producers[t].ring in u.rings
    ensures var g, h := s.rings[s.producers[t].ring], u.rings[s.producers[t].ring];
            && h.moved == g.moved && (g.status != Done ==> h.called == h.moved && h.stored == |h.moved|)
            && (g.status == WaitRemove ==> h.status == Done) && (g.status != WaitRemove ==> h.status == g.status)
  {
    hide Data, Spin, Mod, Gap, RingData;
    RingOf(s, t);
    RingFacts(u, s.producers[t].ring);
  }

  lemma CleanupJoins(s: State, t: Thread) returns (u: State)
    requires Inv(s) && t in s.producers && s.producers[t].pc == Ready && s.bpc == BLock && s.spin == Nobody
    ensures Inv(u) && Reaches(s, u) && u.bpc == BLock && u.spin == Nobody
    ensures t in u.producers && u.producers[t].pc == PMark
    ensures var id := s.producers[t].ring;
            && u.producers[t].ring == id && id in s.rings && id in u.rings && u.rings[id].status == Normal
            && u.rings[id].called == u.rings[id].moved == s.rings[id].moved
  {
    hide Inv, Reaches, Swept;
    ReachesItself(s);
    OwnRing(s, t);
    ReadyIsNormal(s, t);
    var s1 := Do(s, s, t, CallCleanup);
    var s2 := Sweep(s, s1);
    SweptRing(s1, s2, t);
    JoinLeaves(s2, t);
    u := Do(s, s2, t, Join);
  }

  lemma CleanupFrees(a: State, s: State, t: Thread) returns (u: State)
    requires Inv(s) && t in s.producers && s.producers[t].pc == PMark && s.bpc == BLock && s.spin == Nobody
    requires Reaches(a, s) && s.producers[t].ring in s.rings && s.rings[s.producers[t].ring].status == Normal
    ensures Inv(u) && Reaches(a, u) && t in u.producers && u.producers[t].pc == NoRing
    ensures var id := s.producers[t].ring;
            id in u.rings && u.rings[id].freed && u.rings[id].called == u.rings[id].moved == s.rings[id].moved
  {
    hide Inv, Reaches, Swept;
    var s1 := Do(a, s, t, Mark);
    var s2 := Sweep(a, s1);
    SweptRing(s1, s2, t);
    var s3 := Do(a, s2, t, Await);
    u := Do(a, s3, t, Free);
  }

  /** A cleanup comes to its end after two rounds of the backend, whatever the ring holds, and
      nothing of it is lost: its items have all been called back. */
  lemma CleanupCompletes(s: State, t: Thread) returns (u: State)
    requires Inv(s) && t in s.producers && s.producers[t].pc == Ready && s.bpc == BLock && s.spin == Nobody
    ensures Inv(u) && Reaches(s, u) && t in u.producers && u.producers[t].pc == NoRing
    ensures var id := s.producers[t].ring;
            && id in s.rings && id in u.rings && u.rings[id].freed
            && u.rings[id].called == u.rings[id].moved == s.rings[id].moved
  {
    hide Inv, Reaches, Swept;
    ReachesItself(s);
    var v := CleanupJoins(s, t);
    u := CleanupFrees(s, v, t);
  }

  lemma ReadyIsNormal(s: State, t: Thread)
    requires Inv(s) && t in s.producers && s.producers[t].pc == Ready
    ensures s.producers[t].ring in s.rings && s.rings[s.producers[t].ring].status == Normal
  {
    hide Data, Mod, Gap, RingData;
    RingOf(s, t);
  }

  lemma JoinLeaves(s: State, t: Thread)
    requires Inv(s) && t in s.producers && s.producers[t].pc == PJoin && s.producers[t].ring in s.rings
    requires s.rings[s.producers[t].ring].stored == |s.rings[s.producers[t].ring].moved|
    ensures Enabled(s, ByProducer(t, Join)) && Safe(s, ByProducer(t, Join))
    ensures var u := ProducerApply(s, t, Join); t in u.producers && u.producers[t].pc == PMark
  {
    hide Inv, Mod;
    StepKeepsInv(s, ByProducer(t, Join));
    OwnRing(s, t);
  }
}
