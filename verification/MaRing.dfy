/** The multi-producer asynchronous rings (muggle/c/sync/ma_ring.c): every producer thread has
    a ring of its own, a backend thread drains them all, and a handshake decides when a ring
    may be freed.  A transition system with a step for each access to a shared cell, for any
    number of producers, each of which may set up and clean up one ring after another.
    Sequential consistency is assumed.  What a change of the capacity does is the subject of
    MaRingCapacity. */
module MaRing {
  import opened PowerOfTwo
  import opened Sequences

  type Thread = nat
  type RingId = nat
  type Msg = int

  datatype Status = Normal | WaitRemove | Done

  // moved, called and stored are history: the items moved by the producer, the items the
  // backend has called back, and how many of those rpos accounts for.
  datatype Ring = Ring(
    owner: Thread, buf: seq<Msg>, wpos: nat, rpos: nat, status: Status, freed: bool,
    moved: seq<Msg>, called: seq<Msg>, stored: nat)

  datatype ProducerPc =
    | NoRing
    | PWantSpin   // ring set up, about to take the spinlock
    | PInsert     // about to load the head of add_list
    | PLink(head: seq<RingId>)  // about to store the ring as the new head, before what was loaded
    | PRelease    // about to release the spinlock
    | Ready
    | PCompare    // in move: about to compare the next position with the cached r
    | PReload     // about to load rpos into the cached r
    | PPublish    // about to store wpos
    | PJoin       // in cleanup: about to compare rpos with wpos
    | PMark       // about to store WAIT_REMOVE
    | PAwait      // about to load status
    | PFree       // about to free the ring

  // ring is the thread-local ring; cachedR the static thread-local r of muggle_ma_ring_move,
  // which outlives the ring it was loaded from.
  datatype Producer = Producer(pc: ProducerPc, ring: RingId, cachedR: nat)

  datatype Owner = Nobody | Backend | Owned(t: Thread)

  datatype BackendPc =
    | BLock                 // handle_new: about to take the spinlock
    | BTakeNew              // about to look whether add_list is empty
    | BLoadNew              // about to load its head
    | BLinkNew(head: seq<RingId>)  // about to store the head's successor and to put the head on ring_list
    | BUnlock
    | BScan(i: nat)         // about to consume ring i of ring_list, or to go on
    | BCall(i: nat, w: nat, r: nat, n: nat, upto: nat)  // in consume, n items called back; upto is
                            // history: how many items had been moved when w was loaded
    | BStore(i: nat, r: nat)  // about to store rpos
    | BCheck(i: nat)        // handle_remove: about to load the status of ring i
    | BDone(i: nat)         // about to store DONE
    | BUnlink(i: nat)       // about to take node i out of ring_list

  datatype State = State(
    cap: nat, rings: map<RingId, Ring>, producers: map<Thread, Producer>,
    add: seq<RingId>, list: seq<RingId>, spin: Owner, bpc: BackendPc)

  datatype ProducerStep =
    | SetUp(id: RingId, garbage: seq<Msg>) | TakeSpin | LoadHead | Insert | ReleaseSpin
    | Fill(m: Msg) | CallMove | Compare | Reload | Publish
    | CallCleanup | Join | Mark | Await | Free

  datatype Step = ByProducer(t: Thread, ps: ProducerStep) | ByBackend | SetCapacity(c: nat)

  ghost predicate Init(s: State) {
    && 1 <= s.cap && s.rings == map[] && s.add == [] && s.list == [] && s.spin == Nobody && s.bpc == BLock
    && forall t :: t in s.producers ==> s.producers[t].pc == NoRing && s.producers[t].cachedR == 0
  }

  function Next(cap: nat, pos: nat): nat { if pos + 1 >= cap then 0 else pos + 1 }

  predicate ProducerEnabled(s: State, p: Producer, step: ProducerStep) {
    match step
    case SetUp(id, garbage) => p.pc == NoRing && id !in s.rings && |garbage| == s.cap
    case TakeSpin => p.pc == PWantSpin && s.spin == Nobody
    case LoadHead => p.pc == PInsert
    case Insert => p.pc.PLink?
    case ReleaseSpin => p.pc == PRelease
    case Fill(_) => p.pc == Ready
    case CallMove => p.pc == Ready
    case Compare => p.pc == PCompare
    case Reload => p.pc == PReload
    case Publish => p.pc == PPublish
    case CallCleanup => p.pc == Ready
    case Join => p.pc == PJoin
    case Mark => p.pc == PMark
    case Await => p.pc == PAwait
    case Free => p.pc == PFree
  }

  predicate Enabled(s: State, step: Step) {
    match step
    case ByProducer(t, ps) => t in s.producers && ProducerEnabled(s, s.producers[t], ps)
    case ByBackend => s.bpc.BLock? ==> s.spin == Nobody
    case SetCapacity(c) => 1 <= c
  }

  // The capacity is changed only while no ring is in use, and to one that every thread can
  // go on with.
  predicate Careful(s: State, step: Step) {
    step.SetCapacity? ==> AllFreed(s) && AllBelow(s, step.c)
  }

  predicate AllFreed(s: State) { forall id :: id in s.rings ==> s.rings[id].freed }

  // No thread keeps a read position, of an earlier ring, that a capacity of c does not have.
  predicate AllBelow(s: State, c: nat) { forall t :: t in s.producers ==> s.producers[t].cachedR < c }

  predicate Alive(s: State, id: RingId) {
    id in s.rings && !s.rings[id].freed && s.rings[id].wpos < |s.rings[id].buf|
  }

  // The ring the backend is about to touch, if any.
  function Touched(s: State): seq<RingId> {
    match s.bpc
    case BScan(i) => if i < |s.list| then [s.list[i]] else []
    case BCall(i, _, _, _, _) => if i < |s.list| then [s.list[i]] else []
    case BStore(i, _) => if i < |s.list| then [s.list[i]] else []
    case BCheck(i) => if i < |s.list| then [s.list[i]] else []
    case BDone(i) => if i < |s.list| then [s.list[i]] else []
    case _ => []
  }

  // No freed ring is touched and no index leaves its sequence.
  predicate Safe(s: State, step: Step) {
    match step
    case ByProducer(t, ps) =>
      t in s.producers && (!ps.SetUp? ==> Alive(s, s.producers[t].ring))
    case ByBackend =>
      && (forall id :: id in Touched(s) ==> Alive(s, id))
      && (s.bpc.BCall? || s.bpc.BStore? || s.bpc.BDone? || s.bpc.BUnlink? ==> s.bpc.i < |s.list|)
      && (s.bpc.BLinkNew? ==> s.bpc.head != [])
      && (s.bpc.BCall? ==> s.list[s.bpc.i] in s.rings && s.bpc.r < |s.rings[s.list[s.bpc.i]].buf|)
    case SetCapacity(_) => true
  }

  function SetRing(s: State, id: RingId, ring: Ring): State { s.(rings := s.rings[id := ring]) }

  function SetPc(s: State, t: Thread, pc: ProducerPc): State
    requires t in s.producers
  {
    s.(producers := s.producers[t := s.producers[t].(pc := pc)])
  }

  function ProducerApply(s: State, t: Thread, step: ProducerStep): State
    requires Enabled(s, ByProducer(t, step)) && Safe(s, ByProducer(t, step))
  {
    var p := s.producers[t];
    if step.SetUp? then
      var ring := Ring(t, step.garbage, 0, 0, Normal, false, [], [], 0);
      SetRing(s.(producers := s.producers[t := p.(pc := PWantSpin, ring := step.id)]), step.id, ring)
    else
      var g := s.rings[p.ring];
      match step
      case TakeSpin => SetPc(s.(spin := Owned(t)), t, PInsert)
      case LoadHead => SetPc(s, t, PLink(s.add))
      case Insert => SetPc(s.(add := [p.ring] + p.pc.head), t, PRelease)
      case ReleaseSpin => SetPc(s.(spin := Nobody), t, Ready)
      case Fill(m) => SetRing(s, p.ring, g.(buf := g.buf[g.wpos := m]))
      case CallMove => SetPc(s, t, PCompare)
      case Compare => SetPc(s, t, if Next(s.cap, g.wpos) == p.cachedR then PReload else PPublish)
      case Reload => s.(producers := s.producers[t := p.(pc := PCompare, cachedR := g.rpos)])
      case Publish =>
        SetPc(SetRing(s, p.ring, g.(wpos := Next(s.cap, g.wpos), moved := g.moved + [g.buf[g.wpos]])), t, Ready)
      case CallCleanup => SetPc(s, t, PJoin)
      case Join => SetPc(s, t, if g.rpos == g.wpos then PMark else PJoin)
      case Mark => SetPc(SetRing(s, p.ring, g.(status := WaitRemove)), t, PAwait)
      case Await => SetPc(s, t, if g.status == Done then PFree else PAwait)
      case Free => SetPc(SetRing(s, p.ring, g.(freed := true)), t, NoRing)
      case _ => s
  }

  function BackendApply(s: State): State
    requires Enabled(s, ByBackend) && Safe(s, ByBackend)
  {
    match s.bpc
    case BLock => s.(spin := Backend, bpc := BTakeNew)
    case BTakeNew => s.(bpc := if s.add == [] then BUnlock else BLoadNew)
    case BLoadNew => s.(bpc := BLinkNew(s.add))
    case BLinkNew(head) => s.(list := [head[0]] + s.list, add := head[1..], bpc := BTakeNew)
    case BUnlock => s.(spin := Nobody, bpc := BScan(0))
    case BScan(i) =>
      if i < |s.list| then
        assert s.list[i] in Touched(s);
        var g := s.rings[s.list[i]];
        s.(bpc := BCall(i, g.wpos, g.rpos, 0, |g.moved|))
      else s.(bpc := BCheck(0))
    case BCall(i, w, r, n, upto) =>
      var id := s.list[i];
      var g := s.rings[id];
      if r != w then
        SetRing(s.(bpc := BCall(i, w, Next(s.cap, r), n + 1, upto)), id, g.(called := g.called + [g.buf[r]]))
      else s.(bpc := if n > 0 then BStore(i, r) else BScan(i + 1))
    case BStore(i, r) =>
      assert s.list[i] in Touched(s);
      var g := s.rings[s.list[i]];
      SetRing(s.(bpc := BScan(i + 1)), s.list[i], g.(rpos := r, stored := |g.called|))
    case BCheck(i) =>
      if i < |s.list| then
        assert s.list[i] in Touched(s);
        s.(bpc := if s.rings[s.list[i]].status == WaitRemove then BDone(i) else BCheck(i + 1))
      else s.(bpc := BLock)
    case BDone(i) =>
      assert s.list[i] in Touched(s);
      SetRing(s.(bpc := BUnlink(i)), s.list[i], s.rings[s.list[i]].(status := Done))
    case BUnlink(i) => s.(list := s.list[..i] + s.list[i + 1..], bpc := BCheck(i))
  }

  function Apply(s: State, step: Step): State
    requires Enabled(s, step) && Safe(s, step)
  {
    match step
    case ByProducer(t, ps) => ProducerApply(s, t, ps)
    case ByBackend => BackendApply(s)
    case SetCapacity(c) => s.(cap := c)
  }

  // ---------------------------------------------------------------- invariant

  // Positions, counts and contents of one ring.
  ghost predicate RingData(cap: nat, g: Ring) {
    && g.stored <= |g.called| <= |g.moved| && g.called == g.moved[..|g.called|]
    && (!g.freed ==>
          && 1 <= cap && |g.buf| == cap && g.wpos == Mod(|g.moved|, cap) && g.rpos == Mod(g.stored, cap)
          && |g.moved| < g.stored + cap
          && (forall j :: g.stored <= j < |g.moved| ==> g.buf[Mod(j, cap)] == g.moved[j]))
  }

  // How many items may still be moved before the cached r stops the producer.
  ghost function Gap(cap: nat, cachedR: nat, moved: nat): nat
    requires 1 <= cap
  {
    Mod(cachedR - 1 - moved, cap)
  }

  ghost predicate Leaving(pc: ProducerPc) { pc == PMark || pc == PAwait || pc == PFree }

  ghost predicate Unlisted(pc: ProducerPc) { pc == PWantSpin || pc == PInsert || pc.PLink? }

  // A producer and its ring.
  ghost predicate Owns(s: State, t: Thread, p: Producer) {
    && p.cachedR < s.cap
    && (p.pc != NoRing ==>
          && p.ring in s.rings
          && var g := s.rings[p.ring];
          && g.owner == t && !g.freed
          && |g.moved| + Gap(s.cap, p.cachedR, |g.moved|) < g.stored + s.cap
          && (p.pc == PPublish ==> 0 < Gap(s.cap, p.cachedR, |g.moved|))
          && (Leaving(p.pc) ==> g.stored == |g.moved|)
          && (g.status == WaitRemove ==> p.pc == PAwait)
          && (g.status == Done ==> p.pc == PAwait || p.pc == PFree)
          && (p.pc == PFree ==> g.status == Done)
          && (Unlisted(p.pc) ==> p.ring !in s.add && p.ring !in s.list)
          && (!Unlisted(p.pc) && g.status != Done ==> p.ring in s.add || p.ring in s.list))
  }

  ghost predicate HasOwner(s: State, id: RingId) {
    id in s.rings &&
    var g := s.rings[id];
    if g.freed then g.status == Done && g.stored == |g.moved|
    else g.owner in s.producers && s.producers[g.owner].pc != NoRing && s.producers[g.owner].ring == id
  }

  // Listed rings exist, once each, and are done only while being unlinked.
  ghost predicate Lists(s: State) {
    && NoDup(s.add) && NoDup(s.list) && (forall id :: id in s.add ==> id !in s.list)
    && (forall id :: id in s.add ==> id in s.rings && s.rings[id].status != Done)
    && (forall i :: 0 <= i < |s.list| ==>
          s.list[i] in s.rings && (s.rings[s.list[i]].status == Done <==> s.bpc == BUnlink(i)))
  }

  // The ring the backend is consuming.
  ghost predicate Current(s: State, id: RingId) {
    (s.bpc.BCall? || s.bpc.BStore?) && s.bpc.i < |s.list| && s.list[s.bpc.i] == id
  }

  ghost predicate Consumed(s: State, id: RingId) {
    id in s.rings && (!Current(s, id) ==> |s.rings[id].called| == s.rings[id].stored)
  }

  ghost predicate BackendAt(s: State) {
    match s.bpc
    case BCall(i, w, r, n, upto) =>
      && i < |s.list| && s.list[i] in s.rings && 1 <= s.cap
      && var g := s.rings[s.list[i]];
      && r == Mod(|g.called|, s.cap) && w == Mod(upto, s.cap)
      && |g.called| <= upto <= |g.moved| && |g.called| == g.stored + n
    case BStore(i, r) =>
      i < |s.list| && s.list[i] in s.rings && 1 <= s.cap && r == Mod(|s.rings[s.list[i]].called|, s.cap)
    case BDone(i) => i < |s.list| && s.list[i] in s.rings && s.rings[s.list[i]].status == WaitRemove
    case BUnlink(i) => i < |s.list|
    case _ => true
  }

  // The rings, the lists, and whose they are.
  ghost predicate Data(s: State) {
    && 1 <= s.cap && Lists(s) && BackendAt(s)
    && (forall id :: id in s.rings ==> RingData(s.cap, s.rings[id]) && HasOwner(s, id) && Consumed(s, id))
    && (forall t :: t in s.producers ==> Owns(s, t, s.producers[t]))
  }

  predicate InSpin(pc: ProducerPc) { pc == PInsert || pc.PLink? || pc == PRelease }

  predicate BackendInSpin(pc: BackendPc) { pc.BTakeNew? || pc.BLoadNew? || pc.BLinkNew? || pc.BUnlock? }

  // One thread at a time between taking and releasing the spinlock; what it has loaded of
  // add_list is still so.
  ghost predicate Spin(s: State) {
    && (forall t :: t in s.producers ==> (InSpin(s.producers[t].pc) <==> s.spin == Owned(t)))
    && (s.spin.Owned? ==> s.spin.t in s.producers)
    && (BackendInSpin(s.bpc) <==> s.spin == Backend)
    && (forall t :: t in s.producers && s.producers[t].pc.PLink? ==> s.producers[t].pc.head == s.add)
    && (s.bpc.BLoadNew? ==> s.add != []) && (s.bpc.BLinkNew? ==> s.bpc.head == s.add != [])
  }

  ghost predicate Inv(s: State) {
    Data(s) && Spin(s)
  }

  // ---------------------------------------------------------------- arithmetic of the cached r

  /** The comparison in move stops the producer exactly when the gap is used up. */
  lemma GapIsZero(cap: nat, c: nat, w: nat)
    requires c < cap
    ensures Next(cap, Mod(w, cap)) == c <==> Gap(cap, c, w) == 0
    ensures Next(cap, Mod(w, cap)) == Mod(w + 1, cap)
  {
    NextSlot(w, cap);
    var q, r := (c - 1 - w) / cap, (c - 1 - w) % cap;
    assert c - 1 - w == cap * q + r;
    SmallRemainder(c, cap);
    if r == 0 {
      assert w + 1 == cap * (-q) + c;
      UniqueRemainder(w + 1, cap, -q, c);
    } else if (w + 1) % cap == c {
      var q' := (w + 1) / cap;
      assert w + 1 == cap * q' + c;
      assert c - 1 - w == cap * (-q') + 0;
      UniqueRemainder(c - 1 - w, cap, -q', 0);
    }
  }

  lemma GapShrinks(cap: nat, c: nat, w: nat)
    requires 1 <= cap && 0 < Gap(cap, c, w)
    ensures Gap(cap, c, w + 1) == Gap(cap, c, w) - 1
  {
    var q, r := (c - 1 - w) / cap, (c - 1 - w) % cap;
    assert c - 1 - w == cap * q + r;
    UniqueRemainder(c - 1 - (w + 1), cap, q, r - 1);
  }

  lemma GapAfterReload(cap: nat, stored: nat, w: nat)
    requires 1 <= cap && stored <= w < stored + cap
    ensures Gap(cap, Mod(stored, cap), w) == cap - 1 - (w - stored)
  {
    AddInside(stored, -1 - w, cap);
    UniqueRemainder(stored - 1 - w, cap, -1, cap - 1 - (w - stored));
  }

  // ---------------------------------------------------------------- producer steps

  // Only ring id and producer t may differ.
  ghost predicate OnlyThese(s: State, s': State, t: Thread, id: RingId) {
    && s'.cap == s.cap && s'.rings.Keys == s.rings.Keys + {id} && s'.producers.Keys == s.producers.Keys
    && (forall k :: k in s.rings && k != id ==> s'.rings[k] == s.rings[k])
    && (forall u :: u in s.producers && u != t ==> s'.producers[u] == s.producers[u])
  }

  lemma OthersOwnOthers(s: State, t: Thread, u: Thread)
    requires Data(s) && t in s.producers && u in s.producers && t != u
    requires s.producers[t].pc != NoRing && s.producers[u].pc != NoRing
    ensures s.producers[t].ring != s.producers[u].ring
  {
    hide Mod;
    assert Owns(s, t, s.producers[t]) && Owns(s, u, s.producers[u]);
  }

  lemma RingOf(s: State, t: Thread)
    requires Data(s) && t in s.producers && s.producers[t].pc != NoRing
    ensures Owns(s, t, s.producers[t]) && RingData(s.cap, s.rings[s.producers[t].ring])
    ensures s.rings[s.producers[t].ring].owner == t && !s.rings[s.producers[t].ring].freed
  {
    hide Mod, Lists, BackendAt, HasOwner, Gap;
  }

  lemma RingFacts(s: State, k: RingId)
    requires Data(s) && k in s.rings
    ensures 1 <= s.cap && RingData(s.cap, s.rings[k]) && HasOwner(s, k) && Consumed(s, k)
  {
    hide RingData, HasOwner, Consumed, Lists, BackendAt, Owns;
  }

  lemma OwnerFacts(s: State, t: Thread)
    requires Data(s) && t in s.producers
    ensures Owns(s, t, s.producers[t])
  {
    hide RingData, HasOwner, Consumed, Lists, BackendAt, Owns;
  }

  lemma ListFacts(s: State)
    requires Data(s)
    ensures 1 <= s.cap && Lists(s) && BackendAt(s)
  {
    hide RingData, HasOwner, Consumed, Lists, BackendAt, Owns;
  }

  // A step of producer t that changes no list, status or owner, and at most adds to the
  // items of its ring.
  ghost predicate Local(s: State, s': State, t: Thread) {
    && t in s.producers && t in s'.producers && s.producers[t].pc != NoRing && s'.producers[t].pc != NoRing
    && var id := s.producers[t].ring;
    && s'.producers[t].ring == id && OnlyThese(s, s', t, id) && id in s.rings && id in s'.rings
    && s'.add == s.add && s'.list == s.list && s'.bpc == s.bpc
    && var g, g' := s.rings[id], s'.rings[id];
    && g'.owner == g.owner && g'.freed == g.freed && g'.status == g.status
    && g'.called == g.called && g'.stored == g.stored && |g.moved| <= |g'.moved|
  }

  lemma LocalKeepsBackend(s: State, s': State, t: Thread)
    requires Data(s) && Local(s, s', t)
    ensures Lists(s') && BackendAt(s')
  {
    hide Mod, Data, RingData, Owns, HasOwner, NoDup;
    ListFacts(s);
    assert s'.rings.Keys == s.rings.Keys;
  }

  lemma LocalKeepsRing(s: State, s': State, t: Thread, k: RingId)
    requires Data(s) && Local(s, s', t) && k in s'.rings && RingData(s.cap, s'.rings[s.producers[t].ring])
    ensures RingData(s'.cap, s'.rings[k]) && HasOwner(s', k) && Consumed(s', k)
  {
    hide Mod, Data, Lists, BackendAt, RingData, Owns;
    RingOf(s, t);
    RingFacts(s, k);
  }

  lemma LocalKeepsOwner(s: State, s': State, t: Thread, u: Thread)
    requires Data(s) && Local(s, s', t) && u in s.producers && u != t
    ensures u in s'.producers && Owns(s', u, s'.producers[u])
  {
    hide Mod, Data, Gap, RingData;
    OwnerFacts(s, u);
    if s.producers[u].pc != NoRing {
      OthersOwnOthers(s, t, u);
    }
  }

  lemma LocalStepKeepsData(s: State, s': State, t: Thread)
    requires Data(s) && Local(s, s', t)
    requires RingData(s.cap, s'.rings[s.producers[t].ring]) && Owns(s', t, s'.producers[t])
    ensures Data(s')
  {
    hide Mod, Data, Owns, HasOwner, RingData, Consumed, Lists, BackendAt;
    LocalKeepsBackend(s, s', t);
    ListFacts(s);
    forall k | k in s'.rings
      ensures RingData(s'.cap, s'.rings[k]) && HasOwner(s', k) && Consumed(s', k)
    {
      LocalKeepsRing(s, s', t, k);
    }
    forall u | u in s'.producers
      ensures Owns(s', u, s'.producers[u])
    {
      if u != t {
        LocalKeepsOwner(s, s', t, u);
      }
    }
    Assemble(s');
  }

  predicate IsPcStep(step: ProducerStep) {
    step.CallMove? || step.Compare? || step.Reload? || step.CallCleanup? || step.Join? || step.Await?
    || step.TakeSpin? || step.LoadHead? || step.ReleaseSpin?
  }

  lemma PcStepIsLocal(s: State, t: Thread, step: ProducerStep)
    requires Enabled(s, ByProducer(t, step)) && Safe(s, ByProducer(t, step)) && IsPcStep(step)
    ensures Local(s, ProducerApply(s, t, step), t)
    ensures ProducerApply(s, t, step).rings == s.rings
  {
    hide Mod;
    assert s.producers[t].pc != NoRing && ProducerApply(s, t, step).rings == s.rings;
    assert ProducerApply(s, t, step).producers.Keys == s.producers.Keys;
  }

  lemma CompareDecides(s: State, t: Thread)
    requires Data(s) && Enabled(s, ByProducer(t, Compare)) && Safe(s, ByProducer(t, Compare))
    ensures var s' := ProducerApply(s, t, Compare); t in s'.producers && Owns(s', t, s'.producers[t])
  {
    hide Mod, Data, Gap, Next;
    RingOf(s, t);
    var p := s.producers[t];
    GapIsZero(s.cap, p.cachedR, |s.rings[p.ring].moved|);
  }

  lemma ReloadOpensTheGap(s: State, t: Thread)
    requires Data(s) && Enabled(s, ByProducer(t, Reload)) && Safe(s, ByProducer(t, Reload))
    ensures var s' := ProducerApply(s, t, Reload); t in s'.producers && Owns(s', t, s'.producers[t])
  {
    hide Mod, Data, Gap, Next;
    RingOf(s, t);
    var g := s.rings[s.producers[t].ring];
    GapAfterReload(s.cap, g.stored, |g.moved|);
  }

  /** join leaves its loop only when every moved item is accounted for. */
  lemma JoinSeesAllStored(s: State, t: Thread)
    requires Data(s) && Enabled(s, ByProducer(t, Join)) && Safe(s, ByProducer(t, Join))
    ensures var s' := ProducerApply(s, t, Join); t in s'.producers && Owns(s', t, s'.producers[t])
    ensures var g := s.rings[s.producers[t].ring];
            ProducerApply(s, t, Join).producers[t].pc == PMark <==> g.stored == |g.moved|
  {
    hide Mod, Data, Gap, Next;
    RingOf(s, t);
    var g := s.rings[s.producers[t].ring];
    SameSlot(|g.moved|, g.stored, s.cap);
  }

  lemma PlainStepIs(s: State, t: Thread, step: ProducerStep) returns (pc: ProducerPc)
    requires Enabled(s, ByProducer(t, step)) && Safe(s, ByProducer(t, step)) && IsPcStep(step)
    requires !step.Compare? && !step.Reload? && !step.Join?
    ensures var s', p := ProducerApply(s, t, step), s.producers[t];
            && s' == s.(spin := s'.spin, producers := s.producers[t := p.(pc := pc)])
            && (Unlisted(pc) <==> Unlisted(p.pc)) && pc != NoRing && pc != PPublish && pc != PMark && p.pc != PMark
            && (pc == PAwait || pc == PFree ==> p.pc == PAwait)
            && (p.pc == PAwait ==> pc == PFree || pc == PAwait)
            && (pc == PFree ==> s.rings[p.ring].status == Done)
            && p.pc != PFree
  {
    pc := ProducerApply(s, t, step).producers[t].pc;
  }

  lemma PlainStepKeepsOwner(s: State, t: Thread, step: ProducerStep)
    requires Data(s) && Enabled(s, ByProducer(t, step)) && Safe(s, ByProducer(t, step)) && IsPcStep(step)
    requires !step.Compare? && !step.Reload? && !step.Join?
    ensures var s' := ProducerApply(s, t, step); t in s'.producers && Owns(s', t, s'.producers[t])
  {
    hide Mod, Data, Gap, RingData, ProducerApply;
    RingOf(s, t);
    var pc := PlainStepIs(s, t, step);
  }

  lemma PcStepKeepsOwner(s: State, t: Thread, step: ProducerStep)
    requires Data(s) && Enabled(s, ByProducer(t, step)) && Safe(s, ByProducer(t, step)) && IsPcStep(step)
    ensures var s' := ProducerApply(s, t, step); t in s'.producers && Owns(s', t, s'.producers[t])
  {
    hide Mod, Data, Gap, RingData, Owns, ProducerApply;
    match step {
      case Compare => CompareDecides(s, t);
      case Reload => ReloadOpensTheGap(s, t);
      case Join => JoinSeesAllStored(s, t);
      case _ => PlainStepKeepsOwner(s, t, step);
    }
  }

  lemma PcStepKeepsData(s: State, t: Thread, step: ProducerStep)
    requires Data(s) && Enabled(s, ByProducer(t, step)) && Safe(s, ByProducer(t, step)) && IsPcStep(step)
    ensures Data(ProducerApply(s, t, step))
  {
    hide Mod, Data, Gap, RingData, Local;
    PcStepIsLocal(s, t, step);
    RingOf(s, t);
    PcStepKeepsOwner(s, t, step);
    LocalStepKeepsData(s, ProducerApply(s, t, step), t);
  }

  lemma FillKeepsData(s: State, t: Thread, m: Msg)
    requires Data(s) && Enabled(s, ByProducer(t, Fill(m))) && Safe(s, ByProducer(t, Fill(m)))
    ensures Data(ProducerApply(s, t, Fill(m)))
  {
    hide Mod, Data, Gap;
    RingOf(s, t);
    var s' := ProducerApply(s, t, Fill(m));
    var p := s.producers[t];
    var g, g' := s.rings[p.ring], s'.rings[p.ring];
    forall j | g.stored <= j < |g.moved|
      ensures g'.buf[Mod(j, s.cap)] == g.moved[j]
    {
      SameSlot(|g.moved|, j, s.cap);
    }
    LocalStepKeepsData(s, s', t);
  }

  lemma PublishedRing(cap: nat, g: Ring)
    requires RingData(cap, g) && !g.freed && |g.moved| + 1 < g.stored + cap
    ensures RingData(cap, g.(wpos := Next(cap, g.wpos), moved := g.moved + [g.buf[g.wpos]]))
  {
    hide Mod;
    var g' := g.(wpos := Next(cap, g.wpos), moved := g.moved + [g.buf[g.wpos]]);
    NextSlot(|g.moved|, cap);
    assert g'.moved[..|g.called|] == g.moved[..|g.called|];
  }

  lemma PublishIsLocal(s: State, t: Thread)
    requires Enabled(s, ByProducer(t, Publish)) && Safe(s, ByProducer(t, Publish))
    ensures Local(s, ProducerApply(s, t, Publish), t)
  {
    hide Next;
  }

  lemma PublishKeepsOwner(s: State, t: Thread)
    requires Data(s) && Enabled(s, ByProducer(t, Publish)) && Safe(s, ByProducer(t, Publish))
    ensures var s' := ProducerApply(s, t, Publish); t in s'.producers && Owns(s', t, s'.producers[t])
  {
    hide Mod, Data, Gap, RingData, Next;
    RingOf(s, t);
    var p := s.producers[t];
    GapShrinks(s.cap, p.cachedR, |s.rings[p.ring].moved|);
  }

  lemma PublishKeepsData(s: State, t: Thread)
    requires Data(s) && Enabled(s, ByProducer(t, Publish)) && Safe(s, ByProducer(t, Publish))
    ensures Data(ProducerApply(s, t, Publish))
  {
    hide Mod, Data, Gap, RingData, Next, Local;
    RingOf(s, t);
    PublishIsLocal(s, t);
    PublishKeepsOwner(s, t);
    PublishedRing(s.cap, s.rings[s.producers[t].ring]);
    LocalStepKeepsData(s, ProducerApply(s, t, Publish), t);
  }

  // Puts Data together from its parts.
  lemma Assemble(s: State)
    requires 1 <= s.cap && Lists(s) && BackendAt(s)
    requires forall id :: id in s.rings ==> RingData(s.cap, s.rings[id]) && HasOwner(s, id) && Consumed(s, id)
    requires forall t :: t in s.producers ==> Owns(s, t, s.producers[t])
    ensures Data(s)
  {
    hide Mod;
  }

  lemma SetUpKeepsLists(s: State, t: Thread, step: ProducerStep)
    requires Data(s) && Enabled(s, ByProducer(t, step)) && Safe(s, ByProducer(t, step)) && step.SetUp?
    ensures var s' := ProducerApply(s, t, step); step.id !in s.add && step.id !in s.list && Lists(s') && BackendAt(s')
  {
    hide Mod, Data, RingData, HasOwner, Owns, Consumed, NoDup;
    ListFacts(s);
  }

  lemma SetUpKeepsRing(s: State, t: Thread, step: ProducerStep, k: RingId)
    requires Data(s) && Enabled(s, ByProducer(t, step)) && Safe(s, ByProducer(t, step)) && step.SetUp?
    requires k in s.rings || k == step.id
    ensures var s' := ProducerApply(s, t, step);
            k in s'.rings && RingData(s'.cap, s'.rings[k]) && HasOwner(s', k) && Consumed(s', k)
  {
    hide Mod, Data, Owns, Lists, BackendAt;
    if k == step.id {
      ListFacts(s);
      SmallRemainder(0, s.cap);
    } else {
      hide RingData;
      RingFacts(s, k);
    }
  }

  lemma SetUpKeepsOwner(s: State, t: Thread, step: ProducerStep, u: Thread)
    requires Data(s) && Enabled(s, ByProducer(t, step)) && Safe(s, ByProducer(t, step)) && step.SetUp?
    requires u in s.producers
    ensures var s' := ProducerApply(s, t, step); u in s'.producers && Owns(s', u, s'.producers[u])
  {
    hide Mod, Data, HasOwner, Consumed, RingData;
    OwnerFacts(s, u);
    ListFacts(s);
  }

  lemma SetUpKeepsData(s: State, t: Thread, step: ProducerStep)
    requires Data(s) && Enabled(s, ByProducer(t, step)) && Safe(s, ByProducer(t, step)) && step.SetUp?
    ensures Data(ProducerApply(s, t, step))
  {
    hide Mod, Data, RingData, HasOwner, Consumed, Owns, Lists, BackendAt;
    var s' := ProducerApply(s, t, step);
    SetUpKeepsLists(s, t, step);
    ListFacts(s);
    forall k | k in s'.rings
      ensures RingData(s'.cap, s'.rings[k]) && HasOwner(s', k) && Consumed(s', k)
    {
      SetUpKeepsRing(s, t, step, k);
    }
    forall u | u in s'.producers
      ensures Owns(s', u, s'.producers[u])
    {
      SetUpKeepsOwner(s, t, step, u);
    }
    Assemble(s');
  }

  lemma InsertKeepsLists(s: State, t: Thread)
    requires Data(s) && Enabled(s, ByProducer(t, Insert)) && Safe(s, ByProducer(t, Insert))
    requires s.producers[t].pc == PLink(s.add)
    ensures Lists(ProducerApply(s, t, Insert)) && BackendAt(ProducerApply(s, t, Insert))
  {
    hide Mod, Data, RingData, Gap;
    RingOf(s, t);
    ListFacts(s);
  }

  lemma InsertKeepsRing(s: State, t: Thread, k: RingId)
    requires Data(s) && Enabled(s, ByProducer(t, Insert)) && Safe(s, ByProducer(t, Insert)) && k in s.rings
    requires s.producers[t].pc == PLink(s.add)
    ensures var s' := ProducerApply(s, t, Insert);
            k in s'.rings && RingData(s'.cap, s'.rings[k]) && HasOwner(s', k) && Consumed(s', k)
  {
    hide Mod, Data, RingData;
    RingFacts(s, k);
  }

  lemma InsertKeepsOwner(s: State, t: Thread, u: Thread)
    requires Data(s) && Enabled(s, ByProducer(t, Insert)) && Safe(s, ByProducer(t, Insert)) && u in s.producers
    requires s.producers[t].pc == PLink(s.add)
    ensures var s' := ProducerApply(s, t, Insert); u in s'.producers && Owns(s', u, s'.producers[u])
  {
    hide Mod, Data, RingData, Gap;
    OwnerFacts(s, u);
    if u != t && s.producers[u].pc != NoRing {
      OthersOwnOthers(s, t, u);
    }
  }

  lemma InsertKeepsData(s: State, t: Thread)
    requires Data(s) && Enabled(s, ByProducer(t, Insert)) && Safe(s, ByProducer(t, Insert))
    requires s.producers[t].pc == PLink(s.add)
    ensures Data(ProducerApply(s, t, Insert))
  {
    hide Mod, Data, RingData, HasOwner, Consumed, Owns, Lists, BackendAt;
    var s' := ProducerApply(s, t, Insert);
    InsertKeepsLists(s, t);
    ListFacts(s);
    forall k | k in s'.rings
      ensures RingData(s'.cap, s'.rings[k]) && HasOwner(s', k) && Consumed(s', k)
    {
      InsertKeepsRing(s, t, k);
    }
    forall u | u in s'.producers
      ensures Owns(s', u, s'.producers[u])
    {
      InsertKeepsOwner(s, t, u);
    }
    Assemble(s');
  }

  // Only the status or the freed mark of ring id differ, the status at most by WAIT_REMOVE.
  ghost predicate StatusOnly(s: State, s': State, id: RingId) {
    && s'.cap == s.cap && id in s.rings && s'.rings.Keys == s.rings.Keys
    && (forall k :: k in s.rings && k != id ==> s'.rings[k] == s.rings[k])
    && s'.add == s.add && s'.list == s.list && s'.bpc == s.bpc
    && var g, g' := s.rings[id], s'.rings[id];
    && g'.moved == g.moved && g'.called == g.called && g'.stored == g.stored
    && (g'.status == g.status || (g.status == Normal && g'.status == WaitRemove))
  }

  lemma StatusStepIsNarrow(s: State, t: Thread, step: ProducerStep)
    requires Enabled(s, ByProducer(t, step)) && Safe(s, ByProducer(t, step)) && (step.Mark? || step.Free?)
    requires step.Mark? ==> s.rings[s.producers[t].ring].status == Normal
    ensures var s' := ProducerApply(s, t, step);
            OnlyThese(s, s', t, s.producers[t].ring) && StatusOnly(s, s', s.producers[t].ring)
  {
    hide Mod;
    var s' := ProducerApply(s, t, step);
    assert s'.rings.Keys == s.rings.Keys + {s.producers[t].ring} && s'.producers.Keys == s.producers.Keys;
  }

  lemma StatusOnlyKeepsLists(s: State, s': State, id: RingId)
    requires Lists(s) && BackendAt(s) && StatusOnly(s, s', id)
    ensures Lists(s') && BackendAt(s')
  {
    hide Mod;
    hide NoDup;
  }

  lemma StatusStepKeepsLists(s: State, t: Thread, step: ProducerStep)
    requires Data(s) && Enabled(s, ByProducer(t, step)) && Safe(s, ByProducer(t, step)) && (step.Mark? || step.Free?)
    ensures var s' := ProducerApply(s, t, step);
            && Lists(s') && BackendAt(s') && StatusOnly(s, s', s.producers[t].ring)
            && OnlyThese(s, s', t, s.producers[t].ring)
  {
    hide Mod, Data, Lists, BackendAt, RingData, StatusOnly, OnlyThese;
    RingOf(s, t);
    ListFacts(s);
    StatusStepIsNarrow(s, t, step);
    StatusOnlyKeepsLists(s, ProducerApply(s, t, step), s.producers[t].ring);
  }

  lemma OtherOwnerUnaffected(s: State, s': State, t: Thread, u: Thread)
    requires Data(s) && t in s.producers && u in s.producers && t != u && s.producers[t].pc != NoRing
    requires OnlyThese(s, s', t, s.producers[t].ring) && s'.add == s.add && s'.list == s.list
    ensures Owns(s', u, s'.producers[u])
  {
    hide Mod, Data, Gap, RingData;
    OwnerFacts(s, u);
    if s.producers[u].pc != NoRing {
      OthersOwnOthers(s, t, u);
    }
  }

  lemma MarkKeepsOwner(s: State, t: Thread)
    requires Data(s) && Enabled(s, ByProducer(t, Mark)) && Safe(s, ByProducer(t, Mark))
    ensures var s' := ProducerApply(s, t, Mark); t in s'.producers && Owns(s', t, s'.producers[t])
  {
    hide Mod, Data, RingData, Gap;
    RingOf(s, t);
  }

  lemma FreeKeepsOwner(s: State, t: Thread)
    requires Data(s) && Enabled(s, ByProducer(t, Free)) && Safe(s, ByProducer(t, Free))
    ensures var s' := ProducerApply(s, t, Free); t in s'.producers && Owns(s', t, s'.producers[t])
  {
    hide Mod, Data, RingData, Gap;
    RingOf(s, t);
  }

  lemma StatusStepKeepsOwner(s: State, t: Thread, step: ProducerStep, u: Thread)
    requires Data(s) && Enabled(s, ByProducer(t, step)) && Safe(s, ByProducer(t, step)) && (step.Mark? || step.Free?)
    requires u in s.producers
    ensures var s' := ProducerApply(s, t, step); u in s'.producers && Owns(s', u, s'.producers[u])
  {
    hide Mod, Data, Owns, Lists, BackendAt, ProducerApply;
    if u == t {
      if step.Mark? { MarkKeepsOwner(s, t); } else { FreeKeepsOwner(s, t); }
    } else {
      StatusStepKeepsLists(s, t, step);
      OtherOwnerUnaffected(s, ProducerApply(s, t, step), t, u);
    }
  }

  lemma StatusRing(cap: nat, g: Ring, status: Status, freed: bool)
    requires RingData(cap, g) && (g.freed ==> freed)
    ensures RingData(cap, g.(status := status, freed := freed))
  {
    hide Mod;
  }

  lemma OwnRingAfterStatus(s: State, t: Thread, step: ProducerStep)
    requires Data(s) && Enabled(s, ByProducer(t, step)) && Safe(s, ByProducer(t, step)) && (step.Mark? || step.Free?)
    ensures var s', k := ProducerApply(s, t, step), s.producers[t].ring;
            k in s'.rings && RingData(s'.cap, s'.rings[k]) && HasOwner(s', k)
  {
    hide Mod, Data, RingData, Gap;
    RingOf(s, t);
    var g := s.rings[s.producers[t].ring];
    StatusRing(s.cap, g, if step.Mark? then WaitRemove else g.status, step.Free?);
  }

  lemma OtherRingAfterStatus(s: State, s': State, t: Thread, k: RingId)
    requires Data(s) && t in s.producers && s.producers[t].pc != NoRing && OnlyThese(s, s', t, s.producers[t].ring)
    requires k in s.rings && k != s.producers[t].ring
    ensures k in s'.rings && RingData(s'.cap, s'.rings[k]) && HasOwner(s', k)
  {
    hide Mod, Data, RingData;
    RingFacts(s, k);
  }

  lemma StatusOnlyKeepsConsumed(s: State, s': State, id: RingId, k: RingId)
    requires Consumed(s, k) && StatusOnly(s, s', id)
    ensures Consumed(s', k)
  {
  }

  lemma StatusStepKeepsRing(s: State, t: Thread, step: ProducerStep, k: RingId)
    requires Data(s) && Enabled(s, ByProducer(t, step)) && Safe(s, ByProducer(t, step)) && (step.Mark? || step.Free?)
    requires k in s.rings
    ensures var s' := ProducerApply(s, t, step);
            k in s'.rings && RingData(s'.cap, s'.rings[k]) && HasOwner(s', k) && Consumed(s', k)
  {
    hide Mod, Data, RingData, HasOwner, Consumed, StatusOnly, OnlyThese, ProducerApply, Lists, BackendAt;
    var s' := ProducerApply(s, t, step);
    StatusStepKeepsLists(s, t, step);
    RingFacts(s, k);
    StatusOnlyKeepsConsumed(s, s', s.producers[t].ring, k);
    if k == s.producers[t].ring {
      OwnRingAfterStatus(s, t, step);
    } else {
      OtherRingAfterStatus(s, s', t, k);
    }
  }

  lemma StatusStepKeepsData(s: State, t: Thread, step: ProducerStep)
    requires Data(s) && Enabled(s, ByProducer(t, step)) && Safe(s, ByProducer(t, step)) && (step.Mark? || step.Free?)
    ensures Data(ProducerApply(s, t, step))
  {
    hide Mod, Data, RingData, HasOwner, Consumed, Owns, Lists, BackendAt, ProducerApply;
    var s' := ProducerApply(s, t, step);
    StatusStepKeepsLists(s, t, step);
    ListFacts(s);
    forall k | k in s'.rings
      ensures RingData(s'.cap, s'.rings[k]) && HasOwner(s', k) && Consumed(s', k)
    {
      StatusStepKeepsRing(s, t, step, k);
    }
    forall u | u in s'.producers
      ensures Owns(s', u, s'.producers[u])
    {
      StatusStepKeepsOwner(s, t, step, u);
    }
    Assemble(s');
  }

  lemma ProducerStepKeepsData(s: State, t: Thread, step: ProducerStep)
    requires Data(s) && Enabled(s, ByProducer(t, step)) && Safe(s, ByProducer(t, step))
    requires Spin(s)
    ensures Data(ProducerApply(s, t, step))
  {
    hide Mod;
    hide Data;
    hide ProducerApply;
    match step
    case SetUp(_, _) => SetUpKeepsData(s, t, step);
    case Insert => InsertKeepsData(s, t);
    case Fill(m) => FillKeepsData(s, t, m);
    case Publish => PublishKeepsData(s, t);
    case Mark => StatusStepKeepsData(s, t, step);
    case Free => StatusStepKeepsData(s, t, step);
    case _ => PcStepKeepsData(s, t, step);
  }

  // ---------------------------------------------------------------- backend steps

  lemma BackendIsSafe(s: State)
    requires Inv(s)
    ensures Safe(s, ByBackend)
  {
    hide Mod;
    forall id | id in Touched(s)
      ensures Alive(s, id)
    {
      assert RingData(s.cap, s.rings[id]) && HasOwner(s, id);
    }
    if s.bpc.BCall? {
      assert RingData(s.cap, s.rings[s.list[s.bpc.i]]);
    }
  }

  // A backend step that changes at most ring id; producers are as before.
  ghost predicate OneRing(s: State, s': State, id: RingId) {
    && s'.cap == s.cap && s'.rings.Keys == s.rings.Keys && s'.producers == s.producers
    && id in s.rings && (forall k :: k in s.rings && k != id ==> s'.rings[k] == s.rings[k])
    && var g, g' := s.rings[id], s'.rings[id];
    && g'.owner == g.owner && g'.freed == g.freed && g'.moved == g.moved && g.stored <= g'.stored <= |g.moved|
    && (g'.status == g.status || (g.status == WaitRemove && g'.status == Done))
    && (forall k :: k in s.rings && s'.rings[k].status != Done ==>
          (k in s'.add || k in s'.list <==> k in s.add || k in s.list))
    && (forall k :: k in s'.add || k in s'.list ==> k in s.add || k in s.list)
  }

  lemma OneRingKeepsOwner(s: State, s': State, id: RingId, t: Thread)
    requires Data(s) && OneRing(s, s', id) && t in s.producers
    ensures Owns(s', t, s'.producers[t])
  {
    hide Mod, Data, Gap, RingData;
    OwnerFacts(s, t);
  }

  lemma OneRingKeepsRing(s: State, s': State, id: RingId, k: RingId)
    requires Data(s) && OneRing(s, s', id) && k in s.rings && RingData(s.cap, s'.rings[id]) && Consumed(s', id)
    requires Current(s, k) ==> k == id
    ensures RingData(s'.cap, s'.rings[k]) && HasOwner(s', k) && Consumed(s', k)
  {
    hide Mod, Data, RingData;
    RingFacts(s, k);
  }

  lemma OneRingKeepsData(s: State, s': State, id: RingId)
    requires Data(s) && OneRing(s, s', id) && Lists(s') && BackendAt(s')
    requires RingData(s.cap, s'.rings[id]) && Consumed(s', id) && forall k :: Current(s, k) ==> k == id
    ensures Data(s')
  {
    hide Mod, Data, RingData, HasOwner, Consumed, Owns, Lists, BackendAt, Current;
    ListFacts(s);
    forall k | k in s'.rings
      ensures RingData(s'.cap, s'.rings[k]) && HasOwner(s', k) && Consumed(s', k)
    {
      OneRingKeepsRing(s, s', id, k);
    }
    forall t | t in s'.producers
      ensures Owns(s', t, s'.producers[t])
    {
      OneRingKeepsOwner(s, s', id, t);
    }
    Assemble(s');
  }

  lemma CurrentIsUnique(s: State, i: nat)
    requires (s.bpc.BCall? || s.bpc.BStore?) ==> s.bpc.i == i
    requires i < |s.list|
    ensures forall k :: Current(s, k) ==> k == s.list[i]
  {
    hide Mod;
  }

  lemma CalledRing(cap: nat, g: Ring)
    requires RingData(cap, g) && !g.freed && |g.called| < |g.moved|
    ensures g.buf[Mod(|g.called|, cap)] == g.moved[|g.called|]
    ensures RingData(cap, g.(called := g.called + [g.buf[Mod(|g.called|, cap)]]))
  {
    hide Mod;
    assert g.called + [g.moved[|g.called|]] == g.moved[..|g.called| + 1];
  }

  lemma BackendFacts(s: State, i: nat)
    requires Data(s) && i < |s.list|
    ensures s.list[i] in s.rings && RingData(s.cap, s.rings[s.list[i]]) && HasOwner(s, s.list[i])
    ensures Consumed(s, s.list[i]) && Lists(s) && BackendAt(s) && 1 <= s.cap
  {
    hide Mod, RingData, Owns, HasOwner, Consumed, BackendAt;
  }

  lemma CallKeepsLists(s: State)
    requires Lists(s) && BackendAt(s) && s.bpc.BCall? && Safe(s, ByBackend) && s.bpc.r != s.bpc.w
    ensures var s' := BackendApply(s); Lists(s') && BackendAt(s') && OneRing(s, s', s.list[s.bpc.i])
  {
    hide Mod, NoDup;
    var g := s.rings[s.list[s.bpc.i]];
    assert |g.called| != s.bpc.upto;
    NextSlot(|g.called|, s.cap);
  }

  lemma CallKeepsData(s: State)
    requires Data(s) && s.bpc.BCall? && Safe(s, ByBackend) && s.bpc.r != s.bpc.w
    ensures Data(BackendApply(s))
  {
    hide Mod, Data, RingData, Lists, HasOwner, OneRing;
    var i := s.bpc.i;
    BackendFacts(s, i);
    CallKeepsLists(s);
    assert s.list[i] in Touched(s);
    CalledRing(s.cap, s.rings[s.list[i]]);
    CurrentIsUnique(s, i);
    OneRingKeepsData(s, BackendApply(s), s.list[i]);
  }

  lemma StoreKeepsData(s: State)
    requires Data(s) && s.bpc.BStore? && Safe(s, ByBackend)
    ensures Data(BackendApply(s))
  {
    hide Mod;
    hide Data;
    var s' := BackendApply(s);
    var i := s.bpc.i;
    BackendFacts(s, i);
    CurrentIsUnique(s, i);
    OneRingKeepsData(s, s', s.list[i]);
  }

  lemma DoneKeepsData(s: State)
    requires Data(s) && s.bpc.BDone? && Safe(s, ByBackend)
    ensures Data(BackendApply(s))
  {
    hide Mod;
    hide Data;
    var s' := BackendApply(s);
    var i := s.bpc.i;
    BackendFacts(s, i);
    hide RingData;
    assert RingData(s.cap, s'.rings[s.list[i]]) by { DoneRing(s.cap, s.rings[s.list[i]]); }
    OneRingKeepsData(s, s', s.list[i]);
  }

  lemma DoneRing(cap: nat, g: Ring)
    requires RingData(cap, g)
    ensures RingData(cap, g.(status := Done))
  {
    hide Mod;
  }

  // A backend step that changes no ring.
  ghost predicate NoRingChanged(s: State, s': State) {
    && s'.cap == s.cap && s'.rings == s.rings && s'.producers == s.producers
    && (forall k :: k in s.rings && s.rings[k].status != Done ==>
          (k in s'.add || k in s'.list <==> k in s.add || k in s.list))
    && (forall k :: k in s'.add || k in s'.list ==> k in s.add || k in s.list)
  }

  lemma NoRingChangedKeepsData(s: State, s': State)
    requires Data(s) && NoRingChanged(s, s') && Lists(s') && BackendAt(s')
    requires forall k :: k in s.rings ==> Consumed(s', k)
    ensures Data(s')
  {
    hide Mod, Data, RingData, Consumed, Lists, BackendAt, Gap;
    ListFacts(s);
    forall k | k in s'.rings
      ensures RingData(s'.cap, s'.rings[k]) && HasOwner(s', k) && Consumed(s', k)
    {
      RingFacts(s, k);
    }
    forall t | t in s'.producers
      ensures Owns(s', t, s'.producers[t])
    {
      OwnerFacts(s, t);
    }
    hide HasOwner, Owns, NoRingChanged;
    Assemble(s');
  }

  lemma LinkNewKeepsLists(s: State)
    requires Lists(s) && s.add != [] && s.bpc == BLinkNew(s.add) && Safe(s, ByBackend)
    ensures var s' := BackendApply(s); Lists(s') && BackendAt(s') && NoRingChanged(s, s')
  {
    hide Mod, NoDup;
    var s' := BackendApply(s);
    TailNoDup(s.add, s.add[0], s.add[1..]);
    ConsNoDup(s.add[0], s.list);
    assert forall i :: 0 <= i < |s'.list| ==> s'.list[i] == if i == 0 then s.add[0] else s.list[i - 1];
  }

  lemma LinkNewKeepsData(s: State)
    requires Data(s) && s.add != [] && s.bpc == BLinkNew(s.add) && Safe(s, ByBackend)
    ensures Data(BackendApply(s))
  {
    hide Mod, Data, RingData, HasOwner, Lists, NoRingChanged;
    var s' := BackendApply(s);
    ListFacts(s);
    LinkNewKeepsLists(s);
    forall k | k in s.rings
      ensures Consumed(s', k)
    {
      RingFacts(s, k);
    }
    NoRingChangedKeepsData(s, s');
  }

  lemma UnlinkedList(q: seq<RingId>, i: nat)
    requires i < |q| && NoDup(q)
    ensures var q' := q[..i] + q[i + 1..];
            NoDup(q') && forall k :: k in q' <==> k in q && k != q[i]
  {
    var q' := q[..i] + q[i + 1..];
    forall k
      ensures k in q' <==> k in q && k != q[i]
    {
      if k in q && k != q[i] {
        var j :| 0 <= j < |q| && q[j] == k;
        assert q'[if j < i then j else j - 1] == k;
      }
    }
  }

  lemma UnlinkKeepsLists(s: State)
    requires Lists(s) && BackendAt(s) && s.bpc.BUnlink? && Safe(s, ByBackend)
    ensures Lists(BackendApply(s)) && NoRingChanged(s, BackendApply(s))
  {
    hide Mod;
    var s' := BackendApply(s);
    var i := s.bpc.i;
    UnlinkedList(s.list, i);
    hide NoDup;
    forall j | 0 <= j < |s'.list|
      ensures s'.list[j] in s.rings && s.rings[s'.list[j]].status != Done
    {
      assert s'.list[j] == s.list[if j < i then j else j + 1];
    }
  }

  lemma UnlinkKeepsData(s: State)
    requires Data(s) && s.bpc.BUnlink? && Safe(s, ByBackend)
    ensures Data(BackendApply(s))
  {
    hide Mod, Data, RingData, HasOwner, Lists, NoRingChanged;
    var s' := BackendApply(s);
    ListFacts(s);
    UnlinkKeepsLists(s);
    forall k | k in s.rings
      ensures Consumed(s', k)
    {
      RingFacts(s, k);
    }
    NoRingChangedKeepsData(s, s');
  }

  predicate MovesOn(s: State) {
    || s.bpc.BLock? || s.bpc.BTakeNew? || s.bpc.BLoadNew? || s.bpc.BUnlock? || s.bpc.BScan? || s.bpc.BCheck?
    || (s.bpc.BCall? && s.bpc.r == s.bpc.w)
  }

  lemma MovingOnKeepsConsumed(s: State, k: RingId)
    requires Data(s) && Enabled(s, ByBackend) && Safe(s, ByBackend) && MovesOn(s) && k in s.rings
    ensures BackendApply(s).rings == s.rings && Consumed(BackendApply(s), k)
  {
    hide Mod, Data, RingData, HasOwner, Lists;
    RingFacts(s, k);
    ListFacts(s);
  }

  lemma SameLists(s: State, s': State)
    requires Lists(s) && s'.rings == s.rings && s'.add == s.add && s'.list == s.list
    requires !s.bpc.BUnlink? && !s'.bpc.BUnlink?
    ensures Lists(s')
  {
    hide Mod;
  }

  lemma MovingOnKeepsBackend(s: State)
    requires Data(s) && Enabled(s, ByBackend) && Safe(s, ByBackend) && MovesOn(s)
    ensures Lists(BackendApply(s)) && BackendAt(BackendApply(s)) && NoRingChanged(s, BackendApply(s))
  {
    hide Mod, Data, Lists, HasOwner;
    var s' := BackendApply(s);
    ListFacts(s);
    SameLists(s, s');
    if (s.bpc.BScan? || s.bpc.BCheck?) && s.bpc.i < |s.list| {
      BackendFacts(s, s.bpc.i);
      assert s.list[s.bpc.i] in Touched(s);
    }
  }

  lemma MovingOnKeepsData(s: State)
    requires Data(s) && Enabled(s, ByBackend) && Safe(s, ByBackend) && MovesOn(s)
    ensures Data(BackendApply(s))
  {
    hide Mod, Data, Consumed, Lists, BackendAt, NoRingChanged;
    MovingOnKeepsBackend(s);
    forall k | k in s.rings
      ensures Consumed(BackendApply(s), k)
    {
      MovingOnKeepsConsumed(s, k);
    }
    NoRingChangedKeepsData(s, BackendApply(s));
  }

  lemma NothingInHand(s: State)
    requires Data(s) && AllFreed(s)
    ensures !s.bpc.BCall? && !s.bpc.BStore?
  {
    forall i | 0 <= i < |s.list| ensures s.rings[s.list[i]].status == Done { assert HasOwner(s, s.list[i]); }
  }

  lemma SetCapacityKeepsData(s: State, c: nat)
    requires Data(s) && Enabled(s, SetCapacity(c)) && Careful(s, SetCapacity(c))
    ensures Data(s.(cap := c))
  {
    hide Mod;
    var s' := s.(cap := c);
    NothingInHand(s);
    forall k | k in s'.rings ensures RingData(s'.cap, s'.rings[k]) && HasOwner(s', k) && Consumed(s', k) {
      assert RingData(s.cap, s.rings[k]) && HasOwner(s, k) && Consumed(s, k);
    }
    forall u | u in s'.producers ensures Owns(s', u, s'.producers[u]) {
      assert Owns(s, u, s.producers[u]);
    }
  }

  // ---------------------------------------------------------------- the spinlock

  // What a step of producer t does to the spinlock and to what it guards.
  lemma SpinAfter(s: State, t: Thread, step: ProducerStep)
    requires Enabled(s, ByProducer(t, step)) && Safe(s, ByProducer(t, step))
    ensures var s' := ProducerApply(s, t, step);
            && t in s'.producers
            && (step.TakeSpin? ==> s.spin == Nobody && s'.spin == Owned(t))
            && (step.ReleaseSpin? ==> s'.spin == Nobody)
            && (!step.TakeSpin? && !step.ReleaseSpin? ==>
                  s'.spin == s.spin && (InSpin(s'.producers[t].pc) <==> InSpin(s.producers[t].pc)))
            && (step.TakeSpin? ==> !InSpin(s.producers[t].pc) && InSpin(s'.producers[t].pc))
            && (step.ReleaseSpin? ==> InSpin(s.producers[t].pc) && !InSpin(s'.producers[t].pc))
  {
  }

  lemma GuardedAfter(s: State, t: Thread, step: ProducerStep)
    requires Enabled(s, ByProducer(t, step)) && Safe(s, ByProducer(t, step))
    ensures var s' := ProducerApply(s, t, step);
            && s'.producers.Keys == s.producers.Keys && s'.bpc == s.bpc
            && (forall u :: u in s.producers && u != t ==> s'.producers[u] == s.producers[u])
            && (s'.producers[t].pc.PLink? ==> s'.producers[t].pc.head == s'.add)
            && (s'.add == s.add || InSpin(s.producers[t].pc))
  {
  }

  lemma ProducerKeepsSpin(s: State, t: Thread, step: ProducerStep)
    requires Spin(s) && Enabled(s, ByProducer(t, step)) && Safe(s, ByProducer(t, step))
    ensures Spin(ProducerApply(s, t, step))
  {
    hide ProducerApply;
    SpinAfter(s, t, step);
    GuardedAfter(s, t, step);
  }

  // What a step of the backend does to them.
  lemma BackendSpinAfter(s: State)
    requires Enabled(s, ByBackend) && Safe(s, ByBackend)
    ensures var s' := BackendApply(s);
            && s'.producers == s.producers
            && (s.bpc.BLock? ==> s.spin == Nobody && s'.spin == Backend && s'.bpc.BTakeNew?)
            && (s.bpc.BUnlock? ==> s'.spin == Nobody && s'.bpc.BScan?)
            && (!s.bpc.BLock? && !s.bpc.BUnlock? ==>
                  s'.spin == s.spin && (BackendInSpin(s'.bpc) <==> BackendInSpin(s.bpc)))
            && (s'.add == s.add || s.bpc.BLinkNew?)
            && (s'.bpc.BLoadNew? ==> s'.add != [])
            && (s'.bpc.BLinkNew? ==> s.bpc.BLoadNew? && s'.bpc.head == s.add == s'.add)
  {
    hide Mod;
  }

  lemma BackendKeepsSpin(s: State)
    requires Spin(s) && Enabled(s, ByBackend) && Safe(s, ByBackend)
    ensures Spin(BackendApply(s))
  {
    hide BackendApply;
    BackendSpinAfter(s);
  }

  lemma SetCapacityKeepsSpin(s: State, c: nat)
    requires Spin(s)
    ensures Spin(s.(cap := c))
  {
  }

  lemma BackendStepKeepsData(s: State)
    requires Inv(s) && Enabled(s, ByBackend) && Safe(s, ByBackend)
    ensures Data(BackendApply(s))
  {
    hide Mod, Data, BackendApply;
    match s.bpc {
      case BLinkNew(_) => LinkNewKeepsData(s);
      case BCall(_, w, r, _, _) => if r != w { CallKeepsData(s); } else { MovingOnKeepsData(s); }
      case BStore(_, _) => StoreKeepsData(s);
      case BDone(_) => DoneKeepsData(s);
      case BUnlink(_) => UnlinkKeepsData(s);
      case _ => MovingOnKeepsData(s);
    }
  }

  lemma StepKeepsInv(s: State, step: Step)
    requires Inv(s) && Enabled(s, step) && Careful(s, step)
    ensures Safe(s, step) && Inv(Apply(s, step))
  {
    hide Mod, Data, Spin, ProducerApply, BackendApply;
    match step {
      case SetCapacity(c) =>
        SetCapacityKeepsData(s, c);
        SetCapacityKeepsSpin(s, c);
      case ByProducer(t, ps) =>
        if !ps.SetUp? {
          RingOf(s, t);
          AliveRing(s, s.producers[t].ring);
        }
        ProducerStepKeepsData(s, t, ps);
        ProducerKeepsSpin(s, t, ps);
      case ByBackend =>
        BackendIsSafe(s);
        BackendStepKeepsData(s);
        BackendKeepsSpin(s);
    }
  }

  lemma AliveRing(s: State, id: RingId)
    requires id in s.rings && RingData(s.cap, s.rings[id]) && !s.rings[id].freed
    ensures Alive(s, id)
  {
    hide Mod;
  }

  // ---------------------------------------------------------------- whole runs

  // Steps of any threads, from any state.
  ghost predicate Goes(states: seq<State>, steps: seq<Step>) {
    && |states| == |steps| + 1
    && forall i {:trigger steps[i]} :: 0 <= i < |steps| ==>
         Enabled(states[i], steps[i]) && (Safe(states[i], steps[i]) ==> states[i + 1] == Apply(states[i], steps[i]))
  }

  ghost predicate Run(states: seq<State>, steps: seq<Step>) {
    Goes(states, steps) && Init(states[0])
  }

  ghost predicate AllCareful(states: seq<State>, steps: seq<Step>) {
    |steps| < |states| && forall i :: 0 <= i < |steps| ==> Careful(states[i], steps[i])
  }

  // What the rings promise: items are called back in order and once each, a ring never holds
  // more than it has room for, and is freed only after all of it was called back.
  ghost predicate Promised(s: State) {
    forall id :: id in s.rings ==>
      && s.rings[id].called <= s.rings[id].moved
      && |s.rings[id].moved| <= |s.rings[id].called| + s.cap - 1
      && (s.rings[id].freed ==> s.rings[id].called == s.rings[id].moved)
  }

  lemma InvIsPromised(s: State)
    requires Inv(s)
    ensures Promised(s)
  {
    hide Mod, Data;
    forall id | id in s.rings
      ensures && s.rings[id].called <= s.rings[id].moved && |s.rings[id].moved| <= |s.rings[id].called| + s.cap - 1
              && (s.rings[id].freed ==> s.rings[id].called == s.rings[id].moved)
    {
      RingFacts(s, id);
      assert s.rings[id].moved[..|s.rings[id].moved|] == s.rings[id].moved;
    }
  }

  lemma {:induction false} GoesKeepsInv(states: seq<State>, steps: seq<Step>, i: nat)
    requires Goes(states, steps) && AllCareful(states, steps) && Inv(states[0]) && i < |states|
    ensures Inv(states[i])
  {
    hide Mod, Inv, Careful;
    if i == 0 {
    } else {
      GoesKeepsInv(states, steps, i - 1);
      StepKeepsInv(states[i - 1], steps[i - 1]);
    }
  }

  lemma InitIsInv(s: State)
    requires Init(s)
    ensures Inv(s)
  {
    hide Mod;
  }

  /** In every run, for any number of producers: the backend has called back, in order and
      once each, exactly a prefix of what each producer moved into each of its rings; a ring
      is freed only after all of it was called back; no step, of a producer or of the
      backend, touches a freed ring; and one thread at a time is between taking and releasing
      the spinlock. */
  lemma EveryRunIsSafe(states: seq<State>, steps: seq<Step>, i: nat)
    requires Run(states, steps) && AllCareful(states, steps) && i < |states|
    ensures Promised(states[i]) && Spin(states[i]) && (i < |steps| ==> Safe(states[i], steps[i]))
  {
    hide Mod, Data, Spin, Promised, Careful;
    InitIsInv(states[0]);
    GoesKeepsInv(states, steps, i);
    InvIsPromised(states[i]);
    if i < |steps| {
      StepKeepsInv(states[i], steps[i]);
    }
  }

  /** cleanup returns only when every item of its ring has been called back. */
  lemma CleanupWaitsForAll(states: seq<State>, steps: seq<Step>, i: nat, t: Thread)
    requires Run(states, steps) && AllCareful(states, steps) && i < |steps| && steps[i] == ByProducer(t, Free)
    ensures var s := states[i];
            && t in s.producers && s.producers[t].ring in s.rings
            && s.rings[s.producers[t].ring].called == s.rings[s.producers[t].ring].moved
  {
    hide Mod, Data, Spin, Careful;
    InitIsInv(states[0]);
    GoesKeepsInv(states, steps, i);
    var s := states[i];
    RingOf(s, t);
    var g := s.rings[s.producers[t].ring];
    assert g.called == g.moved[..|g.called|] && g.moved[..|g.moved|] == g.moved;
  }
}
