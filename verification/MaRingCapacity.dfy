/** Changes of the capacity of the asynchronous rings (muggle/c/sync/ma_ring.c).  A producer
    thread keeps the read position it last loaded, in a static variable of
    muggle_ma_ring_move, from one ring to the next, while muggle_ma_ring_ctx_set_capacity
    takes any capacity at any time.  This module says exactly which changes are safe while no
    ring is in use, and what becomes of the others. */
module MaRingCapacity {
  import opened MaRing
  import opened PowerOfTwo

  // ---------------------------------------------------------------- runs from one state to another

  ghost predicate Reaches(s: State, u: State) {
    exists states, steps ::
      Goes(states, steps) && AllCareful(states, steps) && states[0] == s && states[|steps|] == u
  }

  lemma ReachesItself(s: State)
    ensures Reaches(s, s)
  {
    var states, steps: seq<Step> := [s], [];
    assert Goes(states, steps) && AllCareful(states, steps) && states[0] == s && states[|steps|] == s;
  }

  lemma ReachesOn(s: State, u: State, step: Step)
    requires Reaches(s, u) && Enabled(u, step) && Safe(u, step) && Careful(u, step)
    ensures Reaches(s, Apply(u, step))
  {
    hide Enabled, Safe, Apply, Careful;
    var states, steps :|
      Goes(states, steps) && AllCareful(states, steps) && states[0] == s && states[|steps|] == u;
    var states', steps' := states + [Apply(u, step)], steps + [step];
    forall i | 0 <= i < |steps'|
      ensures && Enabled(states'[i], steps'[i]) && Careful(states'[i], steps'[i])
              && (Safe(states'[i], steps'[i]) ==> states'[i + 1] == Apply(states'[i], steps'[i]))
    {
      if i < |steps| { assert steps'[i] == steps[i]; }
    }
    assert Goes(states', steps') && AllCareful(states', steps');
  }

  lemma ProducerOn(s: State, u: State, t: Thread, ps: ProducerStep)
    requires Reaches(s, u) && Enabled(u, ByProducer(t, ps)) && Safe(u, ByProducer(t, ps))
    ensures Reaches(s, ProducerApply(u, t, ps))
  {
    hide Reaches, ProducerApply;
    ReachesOn(s, u, ByProducer(t, ps));
  }

  lemma BackendOn(s: State, u: State)
    requires Reaches(s, u) && Enabled(u, ByBackend) && Safe(u, ByBackend)
    ensures Reaches(s, BackendApply(u))
  {
    hide Reaches, BackendApply;
    ReachesOn(s, u, ByBackend);
  }

  // ---------------------------------------------------------------- a remembered position too large

  // The producer has a ring of the current capacity and a cached r that the ring does not have.
  ghost predicate Stale(s: State, t: Thread) {
    && t in s.producers && s.producers[t].pc == Ready && Alive(s, s.producers[t].ring)
    && |s.rings[s.producers[t].ring].buf| == s.cap <= s.producers[t].cachedR
  }

  // One item through alloc and move.
  ghost function MoveItem(s: State, t: Thread, m: Msg): State
    requires Stale(s, t)
  {
    var id := s.producers[t].ring;
    var g := s.rings[id];
    SetRing(s, id, g.(buf := g.buf[g.wpos := m], wpos := Next(s.cap, g.wpos), moved := g.moved + [m]))
  }

  lemma MoveItemIsSteps(s: State, t: Thread, m: Msg)
    requires Stale(s, t)
    ensures var s1 := ProducerApply(s, t, Fill(m));
            && Enabled(s1, ByProducer(t, CallMove)) && Safe(s1, ByProducer(t, CallMove))
            && var s2 := ProducerApply(s1, t, CallMove);
            && Enabled(s2, ByProducer(t, Compare)) && Safe(s2, ByProducer(t, Compare))
            && var s3 := ProducerApply(s2, t, Compare);
            && Enabled(s3, ByProducer(t, Publish)) && Safe(s3, ByProducer(t, Publish))
            && MoveItem(s, t, m) == ProducerApply(s3, t, Publish)
  {
    var s3 := ProducerApply(ProducerApply(ProducerApply(s, t, Fill(m)), t, CallMove), t, Compare);
    assert ProducerApply(s3, t, Publish).producers == s.producers;
  }

  ghost function MoveItems(s: State, t: Thread, ms: seq<Msg>): State
    requires Stale(s, t)
    decreases |ms|
  {
    if ms == [] then s else MoveItems(MoveItem(s, t, ms[0]), t, ms[1..])
  }

  lemma {:induction false} MoveItemsIs(s: State, t: Thread, ms: seq<Msg>, n: nat)
    requires Stale(s, t) && s.rings[s.producers[t].ring].wpos == Mod(n, s.cap)
    ensures var u := MoveItems(s, t, ms);
            && Stale(u, t) && u.cap == s.cap && u.producers == s.producers && u.rings.Keys == s.rings.Keys
            && var g, h := s.rings[s.producers[t].ring], u.rings[s.producers[t].ring];
            && h.moved == g.moved + ms && h.called == g.called && h.rpos == g.rpos && h.wpos == Mod(n + |ms|, s.cap)
    decreases |ms|
  {
    hide Mod;
    if ms == [] {
      var g := s.rings[s.producers[t].ring];
      assert g.moved + ms == g.moved;
    } else {
      NextSlot(n, s.cap);
      var v := MoveItem(s, t, ms[0]);
      MoveItemsIs(v, t, ms[1..], n + 1);
      var g := s.rings[s.producers[t].ring];
      assert g.moved + [ms[0]] + ms[1..] == g.moved + ms;
    }
  }

  /** With such a cached r nothing stops the producer: a lap of items moved into an empty ring
      leaves the positions equal, so that none of them is ever called back and join takes them
      for consumed. */
  lemma StaleCachedRLosesALap(s: State, t: Thread, ms: seq<Msg>)
    requires Stale(s, t) && |ms| == s.cap && s.rings[s.producers[t].ring].rpos == s.rings[s.producers[t].ring].wpos
    ensures var u := MoveItems(s, t, ms);
            && Stale(u, t) && u.cap == s.cap
            && var g, h := s.rings[s.producers[t].ring], u.rings[u.producers[t].ring];
            h.moved == g.moved + ms && h.called == g.called && h.rpos == h.wpos
  {
    hide Mod, MoveItems;
    var w := s.rings[s.producers[t].ring].wpos;
    SmallRemainder(w, s.cap);
    AddLap(w, s.cap);
    MoveItemsIs(s, t, ms, w);
  }

  lemma MoveItemOn(a: State, s: State, t: Thread, m: Msg)
    requires Reaches(a, s) && Stale(s, t)
    ensures Reaches(a, MoveItem(s, t, m)) && Stale(MoveItem(s, t, m), t)
  {
    hide Reaches, ProducerApply;
    MoveItemIsSteps(s, t, m);
    ProducerOn(a, s, t, Fill(m));
    var s1 := ProducerApply(s, t, Fill(m));
    ProducerOn(a, s1, t, CallMove);
    var s2 := ProducerApply(s1, t, CallMove);
    ProducerOn(a, s2, t, Compare);
    ProducerOn(a, ProducerApply(s2, t, Compare), t, Publish);
  }

  lemma {:induction false} MoveItemsOn(a: State, s: State, t: Thread, ms: seq<Msg>)
    requires Reaches(a, s) && Stale(s, t)
    ensures Reaches(a, MoveItems(s, t, ms))
    decreases |ms|
  {
    hide Reaches, Stale, MoveItem;
    if ms == [] {
    } else {
      MoveItemOn(a, s, t, ms[0]);
      MoveItemsOn(a, MoveItem(s, t, ms[0]), t, ms[1..]);
    }
  }

  // ---------------------------------------------------------------- from the change to such a ring

  lemma {:induction false} Above(S: set<nat>) returns (b: nat)
    ensures forall x :: x in S ==> x < b
    decreases |S|
  {
    if S == {} {
      b := 0;
    } else {
      var x :| x in S;
      b := Above(S - {x});
      assert S == (S - {x}) + {x};
      b := if b <= x then x + 1 else b;
    }
  }

  // While no ring is in use no thread has one, none waits to be taken over, and only the
  // backend can be holding the spinlock.
  lemma NoneInUse(s: State)
    requires Inv(s) && AllFreed(s)
    ensures s.add == [] && forall t :: t in s.producers ==> s.producers[t].pc == NoRing
    ensures s.spin == Nobody || (s.spin == Backend && (s.bpc.BTakeNew? || s.bpc.BUnlock?))
  {
    hide Data, Mod, Gap, RingData;
    forall t | t in s.producers
      ensures s.producers[t].pc == NoRing
    {
      OwnerFacts(s, t);
    }
    ListFacts(s);
    if s.add != [] {
      RingFacts(s, s.add[0]);
    }
  }

  // The backend lets go of the spinlock.
  lemma SpinIsReleased(a: State, s: State) returns (u: State)
    requires Reaches(a, s) && s.add == []
    requires s.spin == Nobody || (s.spin == Backend && (s.bpc.BTakeNew? || s.bpc.BUnlock?))
    ensures Reaches(a, u) && u == s.(spin := Nobody, bpc := u.bpc)
  {
    hide Reaches;
    u := s;
    if s.spin != Nobody {
      if u.bpc.BTakeNew? {
        BackendOn(a, u);
        u := BackendApply(u);
      }
      BackendOn(a, u);
      u := BackendApply(u);
    }
  }

  // Thread t with a new ring, set up and listed.
  function WithRing(s: State, t: Thread, id: RingId, garbage: seq<Msg>): State
    requires t in s.producers
  {
    s.(rings := s.rings[id := Ring(t, garbage, 0, 0, Normal, false, [], [], 0)],
       producers := s.producers[t := s.producers[t].(pc := Ready, ring := id)], add := [id] + s.add)
  }

  // Up to the load of the head of add_list, and from there on.
  lemma RingIsMade(a: State, s: State, t: Thread, id: RingId, garbage: seq<Msg>)
    requires Reaches(a, s) && s.spin == Nobody && t in s.producers && s.producers[t].pc == NoRing
    requires id !in s.rings && |garbage| == s.cap >= 1
    ensures Reaches(a, s.(rings := s.rings[id := Ring(t, garbage, 0, 0, Normal, false, [], [], 0)],
                          producers := s.producers[t := s.producers[t].(pc := PInsert, ring := id)], spin := Owned(t)))
  {
    hide Reaches;
    var s1 := ProducerApply(s, t, SetUp(id, garbage));
    ProducerOn(a, s, t, SetUp(id, garbage));
    ProducerOn(a, s1, t, TakeSpin);
    var p := s.producers[t].(pc := PInsert, ring := id);
    assert ProducerApply(s1, t, TakeSpin).producers == s.producers[t := p];
  }

  lemma RingIsListed(a: State, s: State, t: Thread)
    requires Reaches(a, s) && s.spin == Owned(t) && t in s.producers && s.producers[t].pc == PInsert
    requires Alive(s, s.producers[t].ring)
    ensures Reaches(a, s.(producers := s.producers[t := s.producers[t].(pc := Ready)],
                          add := [s.producers[t].ring] + s.add, spin := Nobody))
  {
    hide Reaches;
    ProducerOn(a, s, t, LoadHead);
    var s1 := ProducerApply(s, t, LoadHead);
    ProducerOn(a, s1, t, Insert);
    var s2 := ProducerApply(s1, t, Insert);
    ProducerOn(a, s2, t, ReleaseSpin);
    assert ProducerApply(s2, t, ReleaseSpin).producers == s.producers[t := s.producers[t].(pc := Ready)];
  }

  lemma RingIsSetUp(a: State, s: State, t: Thread, id: RingId, garbage: seq<Msg>)
    requires Reaches(a, s) && s.spin == Nobody && t in s.producers && s.producers[t].pc == NoRing
    requires id !in s.rings && |garbage| == s.cap >= 1
    ensures Reaches(a, WithRing(s, t, id, garbage))
  {
    hide Reaches;
    RingIsMade(a, s, t, id, garbage);
    var p := s.producers[t].(pc := PInsert, ring := id);
    var u := s.(rings := s.rings[id := Ring(t, garbage, 0, 0, Normal, false, [], [], 0)],
                producers := s.producers[t := p], spin := Owned(t));
    RingIsListed(a, u, t);
    assert u.producers[t := p.(pc := Ready)] == WithRing(s, t, id, garbage).producers;
  }

  // A thread that remembers a position beyond the new capacity, and its next ring.
  lemma StaleIsReached(s: State, c: nat, t: Thread) returns (u: State)
    requires Inv(s) && AllFreed(s) && 1 <= c && t in s.producers && c <= s.producers[t].cachedR
    ensures Reaches(s.(cap := c), u) && Stale(u, t) && u.cap == c
    ensures var g := u.rings[u.producers[t].ring]; g.wpos == g.rpos == 0 && g.moved == g.called == []
  {
    hide Reaches, Inv;
    var a := s.(cap := c);
    NoneInUse(s);
    ReachesItself(a);
    var v := SpinIsReleased(a, a);
    var id := Above(s.rings.Keys);
    var garbage := seq(c, _ => 0);
    RingIsSetUp(a, v, t, id, garbage);
    u := WithRing(v, t, id, garbage);
  }

  lemma PromiseIsBroken(s: State, c: nat, t: Thread) returns (u: State)
    requires Inv(s) && AllFreed(s) && 1 <= c && t in s.producers && c <= s.producers[t].cachedR
    ensures Reaches(s.(cap := c), u) && !Promised(u)
  {
    hide Reaches, Inv, MoveItems;
    var v := StaleIsReached(s, c, t);
    var ms := seq(c, _ => 0);
    StaleCachedRLosesALap(v, t, ms);
    MoveItemsOn(s.(cap := c), v, t, ms);
    u := MoveItems(v, t, ms);
    var id := u.producers[t].ring;
    assert u.rings[id].called == [] && |u.rings[id].moved| == c;
  }

  // ---------------------------------------------------------------- exactly which changes are safe

  // Whatever the threads do from here on, the rings keep what they promise.
  ghost predicate AlwaysPromised(s: State) {
    forall states, steps ::
      Goes(states, steps) && AllCareful(states, steps) && states[0] == s ==> AllPromised(states, steps)
  }

  ghost predicate AllPromised(states: seq<State>, steps: seq<Step>)
    requires |steps| < |states|
  {
    && (forall i :: 0 <= i < |states| ==> Promised(states[i]))
    && (forall i :: 0 <= i < |steps| ==> Safe(states[i], steps[i]))
  }

  lemma InvIsAlwaysPromised(s: State)
    requires Inv(s)
    ensures AlwaysPromised(s)
  {
    hide Inv, Promised, Safe, Enabled, Careful, Apply;
    forall states, steps | Goes(states, steps) && AllCareful(states, steps) && states[0] == s
      ensures AllPromised(states, steps)
    {
      forall i | 0 <= i < |states|
        ensures Promised(states[i]) && (i < |steps| ==> Safe(states[i], steps[i]))
      {
        GoesKeepsInv(states, steps, i);
        InvIsPromised(states[i]);
        if i < |steps| { StepKeepsInv(states[i], steps[i]); }
      }
    }
  }

  lemma ReachedIsPromised(s: State, u: State)
    requires AlwaysPromised(s) && Reaches(s, u)
    ensures Promised(u)
  {
    hide Promised, Safe, Goes, Careful;
    var states, steps :|
      Goes(states, steps) && AllCareful(states, steps) && states[0] == s && states[|steps|] == u;
    assert AllPromised(states, steps);
  }

  /** A change of the capacity while no ring is in use is safe, for everything any thread may
      do afterwards, if and only if every thread's remembered read position is below the new
      capacity. */
  lemma CapacityChangeIsSafeIff(s: State, c: nat)
    requires Inv(s) && AllFreed(s) && 1 <= c
    ensures AlwaysPromised(s.(cap := c)) <==> AllBelow(s, c)
  {
    hide Inv, Promised, Reaches, AlwaysPromised;
    if AllBelow(s, c) {
      ChangeKeepsInv(s, c);
      InvIsAlwaysPromised(s.(cap := c));
    } else {
      var t :| t in s.producers && c <= s.producers[t].cachedR;
      var u := PromiseIsBroken(s, c, t);
      if AlwaysPromised(s.(cap := c)) { ReachedIsPromised(s.(cap := c), u); }
    }
  }

  lemma ChangeKeepsInv(s: State, c: nat)
    requires Inv(s) && AllFreed(s) && AllBelow(s, c) && 1 <= c
    ensures Inv(s.(cap := c))
  {
    hide Inv, Safe;
    StepKeepsInv(s, SetCapacity(c));
  }

  // ---------------------------------------------------------------- a run that comes to it

  // One thread, one ring.
  function Solo(g: Ring, p: Producer, add: seq<RingId>, list: seq<RingId>, spin: Owner, bpc: BackendPc): State {
    State(2, map[0 := g], map[0 := p], add, list, spin, bpc)
  }

  lemma Overwritten<V>(v: V, w: V)
    ensures map[0 := v][0 := w] == map[0 := w]
  {
  }

  // The start, and the ring once it is set up.
  function Start(): State {
    State(2, map[], map[0 := Producer(NoRing, 0, 0)], [], [], Nobody, BLock)
  }

  lemma FirstRing(a: State)
    requires a == Start()
    ensures Init(a)
    ensures var g := Ring(0, [0, 0], 0, 0, Normal, false, [], [], 0);
            Reaches(a, Solo(g, Producer(Ready, 0, 0), [0], [], Nobody, BLock))
  {
    hide Reaches;
    ReachesItself(a);
    RingIsSetUp(a, a, 0, 0, [0, 0]);
    Overwritten(Producer(NoRing, 0, 0), Producer(Ready, 0, 0));
    assert [0] + [] == [0];
  }

  // A step that changes the thread only.
  lemma SoloPcStep(a: State, s: State, ps: ProducerStep, p: Producer)
    requires Reaches(a, s) && Enabled(s, ByProducer(0, ps)) && Safe(s, ByProducer(0, ps)) && s.producers.Keys == {0}
    requires ProducerApply(s, 0, ps) == s.(producers := s.producers[0 := p])
    ensures Reaches(a, s.(producers := map[0 := p]))
  {
    hide *;
    ProducerOn(a, s, 0, ps);
    assert s.producers[0 := p] == map[0 := p];
  }

  lemma SoloCompare(a: State, g: Ring, r: nat, add: seq<RingId>, list: seq<RingId>)
    requires Reaches(a, Solo(g, Producer(PCompare, 0, r), add, list, Nobody, BLock)) && !g.freed && g.wpos < |g.buf|
    ensures var pc := if Next(2, g.wpos) == r then PReload else PPublish;
            Reaches(a, Solo(g, Producer(pc, 0, r), add, list, Nobody, BLock))
  {
    hide Reaches, Next;
    SoloPcStep(a, Solo(g, Producer(PCompare, 0, r), add, list, Nobody, BLock), Compare,
               Producer(if Next(2, g.wpos) == r then PReload else PPublish, 0, r));
  }

  lemma SoloReload(a: State, g: Ring, r: nat, add: seq<RingId>, list: seq<RingId>)
    requires Reaches(a, Solo(g, Producer(PReload, 0, r), add, list, Nobody, BLock)) && !g.freed && g.wpos < |g.buf|
    ensures Reaches(a, Solo(g, Producer(PCompare, 0, g.rpos), add, list, Nobody, BLock))
  {
    hide Reaches, Next;
    SoloPcStep(a, Solo(g, Producer(PReload, 0, r), add, list, Nobody, BLock), Reload, Producer(PCompare, 0, g.rpos));
  }

  // In move, up to the store of wpos, with or without a reload of the read position.
  lemma SoloMayMove(a: State, g: Ring, cachedR: nat, add: seq<RingId>, list: seq<RingId>)
    requires Reaches(a, Solo(g, Producer(Ready, 0, cachedR), add, list, Nobody, BLock))
    requires !g.freed && g.wpos < |g.buf| && (Next(2, g.wpos) == cachedR ==> g.rpos != cachedR)
    ensures var r := if Next(2, g.wpos) == cachedR then g.rpos else cachedR;
            Reaches(a, Solo(g, Producer(PPublish, 0, r), add, list, Nobody, BLock))
  {
    hide Reaches, Next;
    SoloPcStep(a, Solo(g, Producer(Ready, 0, cachedR), add, list, Nobody, BLock), CallMove,
               Producer(PCompare, 0, cachedR));
    SoloCompare(a, g, cachedR, add, list);
    if Next(2, g.wpos) == cachedR {
      SoloReload(a, g, cachedR, add, list);
      SoloCompare(a, g, g.rpos, add, list);
    }
  }

  lemma SoloMove(a: State, g: Ring, cachedR: nat, add: seq<RingId>, list: seq<RingId>)
    requires Reaches(a, Solo(g, Producer(Ready, 0, cachedR), add, list, Nobody, BLock))
    requires !g.freed && g.wpos < |g.buf| && (Next(2, g.wpos) == cachedR ==> g.rpos != cachedR)
    ensures var r := if Next(2, g.wpos) == cachedR then g.rpos else cachedR;
            var h := g.(wpos := Next(2, g.wpos), moved := g.moved + [g.buf[g.wpos]]);
            Reaches(a, Solo(h, Producer(Ready, 0, r), add, list, Nobody, BLock))
  {
    hide Reaches, Next;
    SoloMayMove(a, g, cachedR, add, list);
    var r := if Next(2, g.wpos) == cachedR then g.rpos else cachedR;
    var s := Solo(g, Producer(PPublish, 0, r), add, list, Nobody, BLock);
    ProducerOn(a, s, 0, Publish);
    var u := ProducerApply(s, 0, Publish);
    assert u.producers == map[0 := u.producers[0]] && u.rings == map[0 := u.rings[0]];
  }

  // handle_new, with the ring new or already listed.
  lemma SoloTakeOver(a: State, g: Ring, p: Producer, add: seq<RingId>, list: seq<RingId>)
    requires Reaches(a, Solo(g, p, add, list, Nobody, BLock)) && |add| <= 1 && (add == [] || list == [])
    ensures Reaches(a, Solo(g, p, [], add + list, Nobody, BScan(0)))
  {
    hide Reaches;
    BackendOn(a, Solo(g, p, add, list, Nobody, BLock));
    BackendOn(a, Solo(g, p, add, list, Backend, BTakeNew));
    if add != [] {
      BackendOn(a, Solo(g, p, add, list, Backend, BLoadNew));
      BackendOn(a, Solo(g, p, add, list, Backend, BLinkNew(add)));
      assert [add[0]] + list == add + list && add[1..] == [];
      BackendOn(a, Solo(g, p, [], add + list, Backend, BTakeNew));
    } else {
      assert add + list == list;
    }
    BackendOn(a, Solo(g, p, [], add + list, Backend, BUnlock));
  }

  // consume, with one item to call back.
  lemma SoloConsume(a: State, g: Ring, p: Producer)
    requires Reaches(a, Solo(g, p, [], [0], Nobody, BScan(0)))
    requires !g.freed && g.wpos < |g.buf| && g.rpos < |g.buf| && g.rpos != g.wpos == Next(2, g.rpos)
    ensures var h := g.(called := g.called + [g.buf[g.rpos]], rpos := g.wpos, stored := |g.called| + 1);
            Reaches(a, Solo(h, p, [], [0], Nobody, BCheck(0)))
  {
    hide Reaches, Next;
    var c := g.called + [g.buf[g.rpos]];
    var g1 := g.(called := c);
    BackendOn(a, Solo(g, p, [], [0], Nobody, BScan(0)));
    BackendOn(a, Solo(g, p, [], [0], Nobody, BCall(0, g.wpos, g.rpos, 0, |g.moved|)));
    Overwritten(g, g1);
    BackendOn(a, Solo(g1, p, [], [0], Nobody, BCall(0, g.wpos, g.wpos, 1, |g.moved|)));
    var h := g1.(rpos := g.wpos, stored := |c|);
    BackendOn(a, Solo(g1, p, [], [0], Nobody, BStore(0, g.wpos)));
    Overwritten(g1, h);
    BackendOn(a, Solo(h, p, [], [0], Nobody, BScan(1)));
  }

  // handle_remove, with nothing to remove.
  lemma SoloKeep(a: State, g: Ring, p: Producer)
    requires Reaches(a, Solo(g, p, [], [0], Nobody, BCheck(0)))
    requires !g.freed && g.wpos < |g.buf| && g.status != WaitRemove
    ensures Reaches(a, Solo(g, p, [], [0], Nobody, BLock))
  {
    hide Reaches;
    BackendOn(a, Solo(g, p, [], [0], Nobody, BCheck(0)));
    BackendOn(a, Solo(g, p, [], [0], Nobody, BCheck(1)));
  }

  // cleanup up to the mark, handle_remove, and the end of cleanup.
  lemma SoloJoin(a: State, g: Ring, r: nat)
    requires Reaches(a, Solo(g, Producer(PJoin, 0, r), [], [0], Nobody, BCheck(0)))
    requires !g.freed && g.rpos == g.wpos < |g.buf|
    ensures Reaches(a, Solo(g, Producer(PMark, 0, r), [], [0], Nobody, BCheck(0)))
  {
    hide Reaches;
    SoloPcStep(a, Solo(g, Producer(PJoin, 0, r), [], [0], Nobody, BCheck(0)), Join, Producer(PMark, 0, r));
  }

  lemma SoloCleanup(a: State, g: Ring, r: nat)
    requires Reaches(a, Solo(g, Producer(Ready, 0, r), [], [0], Nobody, BCheck(0)))
    requires !g.freed && g.wpos < |g.buf|
    ensures Reaches(a, Solo(g, Producer(PJoin, 0, r), [], [0], Nobody, BCheck(0)))
  {
    hide Reaches;
    SoloPcStep(a, Solo(g, Producer(Ready, 0, r), [], [0], Nobody, BCheck(0)), CallCleanup, Producer(PJoin, 0, r));
  }

  lemma SoloMark(a: State, g: Ring, r: nat)
    requires Reaches(a, Solo(g, Producer(PMark, 0, r), [], [0], Nobody, BCheck(0)))
    requires !g.freed && g.wpos < |g.buf|
    ensures Reaches(a, Solo(g.(status := WaitRemove), Producer(PAwait, 0, r), [], [0], Nobody, BCheck(0)))
  {
    hide Reaches;
    ProducerOn(a, Solo(g, Producer(PMark, 0, r), [], [0], Nobody, BCheck(0)), 0, Mark);
    Overwritten(g, g.(status := WaitRemove));
    Overwritten(Producer(PMark, 0, r), Producer(PAwait, 0, r));
  }

  lemma SoloRemove(a: State, g: Ring, p: Producer)
    requires Reaches(a, Solo(g, p, [], [0], Nobody, BCheck(0)))
    requires !g.freed && g.wpos < |g.buf| && g.status == WaitRemove
    ensures Reaches(a, Solo(g.(status := Done), p, [], [], Nobody, BCheck(0)))
  {
    hide Reaches;
    BackendOn(a, Solo(g, p, [], [0], Nobody, BCheck(0)));
    BackendOn(a, Solo(g, p, [], [0], Nobody, BDone(0)));
    Overwritten(g, g.(status := Done));
    BackendOn(a, Solo(g.(status := Done), p, [], [0], Nobody, BUnlink(0)));
    assert [0][..0] + [0][1..] == [];
  }

  lemma SoloFree(a: State, g: Ring, r: nat)
    requires Reaches(a, Solo(g, Producer(PAwait, 0, r), [], [], Nobody, BCheck(0)))
    requires !g.freed && g.wpos < |g.buf| && g.status == Done
    ensures Reaches(a, Solo(g.(freed := true), Producer(NoRing, 0, r), [], [], Nobody, BCheck(0)))
  {
    hide Reaches;
    SoloPcStep(a, Solo(g, Producer(PAwait, 0, r), [], [], Nobody, BCheck(0)), Await, Producer(PFree, 0, r));
    ProducerOn(a, Solo(g, Producer(PFree, 0, r), [], [], Nobody, BCheck(0)), 0, Free);
    Overwritten(g, g.(freed := true));
    Overwritten(Producer(PFree, 0, r), Producer(NoRing, 0, r));
  }

  // The second item makes the thread load the read position 1, which it then keeps.
  lemma PositionOneIsKept(a: State)
    requires a == Start()
    ensures var g := Ring(0, [0, 0], 0, 0, Done, true, [0, 0], [0, 0], 2);
            Init(a) && Reaches(a, Solo(g, Producer(NoRing, 0, 1), [], [], Nobody, BCheck(0)))
  {
    hide Reaches, Solo, Start, Init;
    FirstRing(a);
    var none: seq<Msg> := [];
    assert none + [0] == [0] && [0] + [0] == [0, 0] && [0] + none == [0] && none + [0] == [0];
    var g := Ring(0, [0, 0], 0, 0, Normal, false, [], [], 0);
    SoloMove(a, g, 0, [0], []);
    g := g.(wpos := 1, moved := [0]);
    SoloTakeOver(a, g, Producer(Ready, 0, 0), [0], []);
    SoloConsume(a, g, Producer(Ready, 0, 0));
    g := g.(called := [0], rpos := 1, stored := 1);
    SoloKeep(a, g, Producer(Ready, 0, 0));
    SoloMove(a, g, 0, [], [0]);
    g := g.(wpos := 0, moved := [0, 0]);
    SoloTakeOver(a, g, Producer(Ready, 0, 1), [], [0]);
    SoloConsume(a, g, Producer(Ready, 0, 1));
    g := g.(called := [0, 0], rpos := 0, stored := 2);
    SoloCleanup(a, g, 1);
    SoloJoin(a, g, 1);
    SoloMark(a, g, 1);
    SoloRemove(a, g.(status := WaitRemove), Producer(PAwait, 0, 1));
    SoloFree(a, g.(status := Done), 1);
  }

  lemma ReachedIsInv(a: State, s: State)
    requires Init(a) && Reaches(a, s)
    ensures Inv(s)
  {
    hide Inv, Init, Careful, Enabled, Safe, Apply;
    InitIsInv(a);
    var states, steps :|
      Goes(states, steps) && AllCareful(states, steps) && states[0] == a && states[|steps|] == s;
    GoesKeepsInv(states, steps, |steps|);
  }

  /** It does fail: a run from the start in which a thread uses and gives back a ring of
      capacity 2, after which a capacity of 1 breaks the promises. */
  lemma SmallerCapacityBreaksPromises() returns (a: State, s: State)
    ensures Init(a) && Reaches(a, s) && Inv(s) && AllFreed(s)
    ensures !AlwaysPromised(s.(cap := 1))
  {
    hide Reaches, Init, Inv, AlwaysPromised;
    a := Start();
    PositionOneIsKept(a);
    s := Solo(Ring(0, [0, 0], 0, 0, Done, true, [0, 0], [0, 0], 2), Producer(NoRing, 0, 1), [], [], Nobody, BCheck(0));
    ReachedIsInv(a, s);
    CapacityChangeIsSafeIff(s, 1);
    assert s.producers[0].cachedR == 1;
  }

  // ---------------------------------------------------------------- a change while a ring is in use

  /** A capacity raised while a producer stands on the last slot of its ring takes it out of the
      buffer: it moves its item without being stopped, and its next item is written behind the
      buffer's end. */
  lemma RaisedInUseLeavesTheBuffer(s: State, t: Thread, c: nat)
    requires Inv(s) && t in s.producers && s.producers[t].pc == Ready && s.cap < c
    requires s.rings[s.producers[t].ring].wpos == s.cap - 1
    ensures var s0 := s.(cap := c);
            && Enabled(s0, ByProducer(t, CallMove)) && Safe(s0, ByProducer(t, CallMove))
            && var s1 := ProducerApply(s0, t, CallMove);
            && Enabled(s1, ByProducer(t, Compare)) && Safe(s1, ByProducer(t, Compare))
            && var s2 := ProducerApply(s1, t, Compare);
            && Enabled(s2, ByProducer(t, Publish)) && Safe(s2, ByProducer(t, Publish))
            && var s3 := ProducerApply(s2, t, Publish);
            forall m :: Enabled(s3, ByProducer(t, Fill(m))) && !Safe(s3, ByProducer(t, Fill(m)))
  {
    hide Inv, Owns, RingData;
    LastSlotFacts(s, t);
  }

  lemma LastSlotFacts(s: State, t: Thread)
    requires Inv(s) && t in s.producers && s.producers[t].pc == Ready
    ensures s.producers[t].ring in s.rings && s.producers[t].cachedR < s.cap
    ensures var g := s.rings[s.producers[t].ring]; !g.freed && g.wpos < |g.buf| == s.cap
  {
    hide Data, Mod, Gap, Spin;
    RingOf(s, t);
  }
}
