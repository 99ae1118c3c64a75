/** The pool with one allocating and one freeing thread (muggle/c/memory/sowr_memory_pool.c).
    Blocks are freed in the order of their allocation; freeing one frees all allocated
    before it.  alloc_idx is a 32-bit counter that wraps; cached_free_pos may lag behind
    free_idx.  One step for each access to free_idx, the only cell both threads touch. */
module SowrPool {
  import opened NextPower
  import opened Options
  import opened PowerOfTwo
  import opened Words

  datatype Pc = Idle | Reload  // about to load free_idx

  // live: the blocks handed out and not yet freed, oldest first.  allocs, frees and seen
  // count the allocations, the allocations freed, and those freed as of the last load of
  // free_idx.  These four are history: no step of the pool reads them.
  datatype State = State(
    cap: nat, allocIdx: nat, cached: nat, freeIdx: nat, pc: Pc,
    live: seq<nat>, allocs: nat, frees: nat, seen: nat)

  datatype Step = Try | Load | Free(i: nat)

  // A power of two that divides the range of the 32-bit counters.
  ghost predicate Capacity(cap: nat) {
    exists k: nat :: k < 32 && cap == Pow2(k)
  }

  ghost predicate Init(s: State) {
    && Capacity(s.cap) && s.allocIdx == 0 && s.freeIdx == 0 && s.cached == s.cap - 1
    && s.pc == Idle && s.live == [] && s.allocs == 0 && s.frees == 0 && s.seen == 0
  }

  // The caller frees an outstanding block: the i-th oldest.
  predicate Enabled(s: State, step: Step) {
    match step
    case Try => s.pc == Idle
    case Load => s.pc == Reload
    case Free(i) => i < |s.live|
  }

  function AllocPos(s: State): nat
    requires s.cap > 0
  {
    Mod(s.allocIdx, s.cap)
  }

  function HandOut(s: State): State
    requires s.cap > 0
  {
    s.(allocIdx := (s.allocIdx + 1) % TWO_TO_32, pc := Idle, live := s.live + [AllocPos(s)], allocs := s.allocs + 1)
  }

  function Apply(s: State, step: Step): State
    requires s.cap > 0 && Enabled(s, step)
  {
    match step
    case Try => if AllocPos(s) != s.cached then HandOut(s) else s.(pc := Reload)
    case Load =>
      var pos := Mod((s.freeIdx + TWO_TO_32 - 1) % TWO_TO_32, s.cap);
      var s1 := s.(cached := pos, seen := s.frees, pc := Idle);
      if AllocPos(s) != pos then HandOut(s1) else s1
    case Free(i) => s.(freeIdx := s.live[i] + 1, live := s.live[i + 1..], frees := s.frees + i + 1)
  }

  // What muggle_sowr_memory_pool_is_all_free answers.
  predicate IsAllFree(s: State)
    requires s.cap > 0
  {
    Mod(s.freeIdx, s.cap) == AllocPos(s)
  }

  ghost predicate Inv(s: State) {
    && Capacity(s.cap) && 0 < s.cap <= TWO_TO_32 / 2
    && s.allocIdx == s.allocs % TWO_TO_32
    && s.freeIdx <= s.cap && Mod(s.freeIdx, s.cap) == Mod(s.frees, s.cap)
    && s.cached == Mod(s.seen - 1, s.cap)
    && s.seen <= s.frees <= s.allocs < s.seen + s.cap
    && |s.live| == s.allocs - s.frees
    && (forall j :: 0 <= j < |s.live| ==> s.live[j] == Mod(s.frees + j, s.cap))
  }

  // ---------------------------------------------------------------- arithmetic

  lemma {:induction false} Pow2Divides(k: nat, n: nat)
    requires k <= n
    ensures Pow2(n) == Pow2(k) * Pow2(n - k)
    decreases k
  {
    if k == 0 {
    } else {
      Pow2Divides(k - 1, n - 1);
      DoubleProduct(Pow2(k - 1), Pow2(n - k));
    }
  }

  lemma DoubleProduct(a: nat, b: nat)
    ensures (2 * a) * b == 2 * (a * b)
  {
  }

  lemma CapacityDividesWrap(cap: nat) returns (laps: nat)
    requires Capacity(cap)
    ensures cap >= 1 && laps >= 2 && TWO_TO_32 == cap * laps
  {
    var k: nat :| k < 32 && cap == Pow2(k);
    Pow2Divides(k, 32);
    Pow2Of63();
    laps := Pow2(32 - k);
    assert laps == 2 * Pow2(31 - k);
  }

  lemma Pow2Of31()
    ensures Pow2(31) == TWO_TO_31
  {
    Pow2Of63();
    assert Pow2(32) == 2 * Pow2(31);
  }

  // The rounded capacity, cut to 32 bits, for every 32-bit capacity asked for.
  lemma RoundedCapacity(asked: nat)
    requires 0 < asked < TWO_TO_32
    ensures var c := NextPowOf2(asked) % TWO_TO_32;
            if asked <= TWO_TO_31 then c == LeastPow2(asked) && Capacity(c) else c == 0
  {
    hide NextPowOf2, LeastPow2, Pow2;
    NextPowOf2IsLeast(asked);
    Pow2Of31();
    Pow2Of63();
    if asked <= TWO_TO_31 {
      LeastPow2Is(asked, 31);
    } else {
      LeastPow2Between(asked, 31);
    }
  }

  /** Wrapping at 2^32 does not move a slot of a power-of-two ring. */
  lemma WrapKeepsSlot(x: nat, cap: nat)
    requires Capacity(cap)
    ensures cap >= 1 && Mod(x % TWO_TO_32, cap) == Mod(x, cap)
  {
    var laps := CapacityDividesWrap(cap);
    var q, r := x / TWO_TO_32, x % TWO_TO_32;
    assert x == TWO_TO_32 * q + r;
    assert TWO_TO_32 * q == cap * (laps * q);
    assert r == cap * (r / cap) + r % cap;
    assert x == cap * (laps * q + r / cap) + r % cap;
    UniqueRemainder(x, cap, laps * q + r / cap, r % cap);
  }

  lemma WrapStep(x: nat)
    ensures (x % TWO_TO_32 + 1) % TWO_TO_32 == (x + 1) % TWO_TO_32
  {
  }

  // (free_idx - 1) in 32 bits, masked, is the slot before frees.
  lemma BeforeFree(s: State)
    requires Inv(s)
    ensures Mod((s.freeIdx + TWO_TO_32 - 1) % TWO_TO_32, s.cap) == Mod(s.frees - 1, s.cap)
  {
    hide Mod;
    var laps := CapacityDividesWrap(s.cap);
    var f := s.freeIdx;
    WrapKeepsSlot(f + TWO_TO_32 - 1, s.cap);
    ShiftedSlot(f, s.frees, s.cap);
    AddLaps(f - 1, s.cap, laps);
  }

  lemma AddLaps(a: int, m: int, laps: int)
    requires m > 0
    ensures Mod(a + m * laps, m) == Mod(a, m)
  {
    assert a + m * laps == m * (a / m + laps) + a % m;
    UniqueRemainder(a + m * laps, m, a / m + laps, a % m);
  }

  lemma ShiftedSlot(a: int, b: int, m: int)
    requires m > 0 && Mod(a, m) == Mod(b, m)
    ensures Mod(a - 1, m) == Mod(b - 1, m)
  {
    hide Mod;
    AddInside(a, -1, m);
    AddInside(b, -1, m);
  }

  // The allocation position meets the slot before n exactly when a lap less one lies between.
  lemma MeetsSlotBefore(s: State, n: nat)
    requires Inv(s) && n <= s.allocs < n + s.cap
    ensures AllocPos(s) == Mod(n - 1, s.cap) <==> s.allocs == n + s.cap - 1
  {
    hide Mod;
    WrapKeepsSlot(s.allocs, s.cap);
    AddLap(n - 1, s.cap);
    SameSlot(n - 1 + s.cap, s.allocs, s.cap);
  }

  // ---------------------------------------------------------------- every step

  lemma HandOutKeepsInv(s: State)
    requires Inv(s) && s.allocs < s.seen + s.cap - 1
    ensures Inv(HandOut(s)) && AllocPos(s) !in s.live && AllocPos(s) < s.cap
  {
    hide Mod;
    hide Capacity;
    NotOutstanding(s);
    WrapStep(s.allocs);
    WrapKeepsSlot(s.allocs, s.cap);
    var s' := HandOut(s);
    forall j | 0 <= j < |s'.live| ensures s'.live[j] == Mod(s'.frees + j, s'.cap) {
      if j == |s.live| { assert s.frees + j == s.allocs; }
    }
  }

  lemma NotOutstanding(s: State)
    requires Inv(s) && s.allocs < s.seen + s.cap - 1
    ensures AllocPos(s) !in s.live && AllocPos(s) < s.cap
  {
    hide Mod;
    hide Capacity;
    WrapKeepsSlot(s.allocs, s.cap);
    forall j | 0 <= j < |s.live| ensures s.live[j] != AllocPos(s) {
      SameSlot(s.allocs, s.frees + j, s.cap);
    }
  }

  lemma FreeKeepsInv(s: State, i: nat)
    requires Inv(s) && i < |s.live|
    ensures Inv(Apply(s, Free(i)))
  {
    hide Mod;
    var s' := Apply(s, Free(i));
    NextSlot(s.frees + i, s.cap);
    forall j | 0 <= j < |s'.live|
      ensures s'.live[j] == Mod(s'.frees + j, s.cap)
    {
      assert s'.live[j] == s.live[i + 1 + j];
    }
  }

  lemma LiveBound(s: State)
    requires Inv(s)
    ensures 0 < s.cap && |s.live| <= s.cap - 1
  {
    hide Mod;
  }

  /** Each step keeps the invariant; a block handed out is in range and not outstanding; the
      load answers NULL exactly when all blocks but one are outstanding at that moment. */
  lemma StepIsSafe(s: State, step: Step)
    requires Inv(s) && Enabled(s, step)
    ensures var s' := Apply(s, step);
            && Inv(s')
            && (!step.Free? ==>
                  || s'.live == s.live
                  || (AllocPos(s) < s.cap && AllocPos(s) !in s.live && s'.live == s.live + [AllocPos(s)]))
            && (step.Load? ==> (s'.live == s.live <==> |s.live| == s.cap - 1))
  {
    hide Mod;
    match step
    case Free(i) => FreeKeepsInv(s, i);
    case Try => TryIsSafe(s);
    case Load => LoadIsSafe(s);
  }

  lemma TryIsSafe(s: State)
    requires Inv(s) && Enabled(s, Try)
    ensures var s' := Apply(s, Try);
            && Inv(s')
            && (|| s'.live == s.live
                || (AllocPos(s) < s.cap && AllocPos(s) !in s.live && s'.live == s.live + [AllocPos(s)]))
  {
    hide Mod;
    hide Capacity;
    MeetsSlotBefore(s, s.seen);
    if AllocPos(s) != s.cached { HandOutKeepsInv(s); }
  }

  /** The first try hands out a block if and only if fewer than capacity - 1 were handed out since
      the freed position was last loaded; otherwise the position is loaded anew. */
  lemma TryDecides(s: State)
    requires Inv(s) && Enabled(s, Try)
    ensures Apply(s, Try) == if s.allocs - s.seen < s.cap - 1 then HandOut(s) else s.(pc := Reload)
    ensures HandOut(s).live == s.live + [AllocPos(s)] && HandOut(s).allocs == s.allocs + 1
  {
    hide Mod, Capacity;
    MeetsSlotBefore(s, s.seen);
  }

  lemma LoadIsSafe(s: State)
    requires Inv(s) && Enabled(s, Load)
    ensures var s' := Apply(s, Load);
            && Inv(s') && (s'.live == s.live <==> |s.live| == s.cap - 1)
            && (|| s'.live == s.live
                || (AllocPos(s) < s.cap && AllocPos(s) !in s.live && s'.live == s.live + [AllocPos(s)]))
  {
    hide Mod;
    hide Capacity;
    BeforeFree(s);
    MeetsSlotBefore(s, s.frees);
    var s1 := s.(cached := Mod(s.frees - 1, s.cap), seen := s.frees, pc := Idle);
    if AllocPos(s) != s1.cached { HandOutKeepsInv(s1); }
  }

  /** is_all_free answers 1 exactly when no block is outstanding. */
  lemma AllFreeIsExact(s: State)
    requires Inv(s)
    ensures IsAllFree(s) <==> s.live == []
  {
    hide Mod;
    WrapKeepsSlot(s.allocs, s.cap);
    SameSlot(s.allocs, s.frees, s.cap);
  }

  // ---------------------------------------------------------------- whole runs

  ghost predicate Run(states: seq<State>, steps: seq<Step>) {
    && |states| == |steps| + 1 && Init(states[0])
    && forall i {:trigger steps[i]} :: 0 <= i < |steps| ==>
         && states[i].cap > 0 && Enabled(states[i], steps[i])
         && states[i + 1] == Apply(states[i], steps[i])
  }

  /** In every interleaving: no block is outstanding twice, at most cap - 1 are outstanding,
      and is_all_free is exact. */
  lemma {:induction false} EveryRunIsSafe(states: seq<State>, steps: seq<Step>, i: nat)
    requires Run(states, steps) && i < |states|
    ensures Inv(states[i]) && |states[i].live| <= states[i].cap - 1
    ensures IsAllFree(states[i]) <==> states[i].live == []
    ensures forall j, k :: 0 <= j < k < |states[i].live| ==> states[i].live[j] != states[i].live[k]
  {
    hide Mod;
    var s := states[i];
    if i == 0 {
      var laps := CapacityDividesWrap(s.cap);
      MultipleAtLeast(s.cap, laps);
      SmallRemainder(0, s.cap);
      SmallRemainder(s.cap - 1, s.cap);
      AddLap(-1, s.cap);
      assert 2 * s.cap <= s.cap * laps by { assert s.cap * (laps - 2) >= 0; }
    } else {
      EveryRunIsSafe(states, steps, i - 1);
      StepIsSafe(states[i - 1], steps[i - 1]);
    }
    AllFreeIsExact(s);
    forall j, k | 0 <= j < k < |s.live|
      ensures s.live[j] != s.live[k]
    {
      SameSlot(s.frees + k, s.frees + j, s.cap);
    }
  }

  // ---------------------------------------------------------------- the pool as an object

  class MemoryPool {
    const capacity: nat
    var allocIdx: nat
    var cachedFreePos: nat
    var freeIdx: nat
    ghost var hist: State

    ghost predicate Valid()
      reads this
    {
      && Inv(hist) && hist.pc == Idle
      && hist.cap == capacity && hist.allocIdx == allocIdx && hist.cached == cachedFreePos && hist.freeIdx == freeIdx
    }

    constructor (cap: nat)
      requires Capacity(cap)
      ensures Valid() && hist.live == [] && capacity == cap
    {
      capacity, allocIdx, freeIdx, cachedFreePos := cap, 0, 0, cap - 1;
      hist := State(cap, 0, cap - 1, 0, Idle, [], 0, 0, 0);
      new;
      EveryRunIsSafe([hist], [], 0);
    }

    /** muggle_sowr_memory_pool_init: 0 stands for 8, and the capacity is rounded up to a power
        of two; above 2^31 the 32-bit result would be 0 and is refused. */
    static method Init(cap: nat) returns (pool: MemoryPool?)
      requires cap < TWO_TO_32
      ensures pool == null <==> cap > TWO_TO_31
      ensures pool != null ==> fresh(pool) && pool.Valid() && pool.hist.live == []
                               && pool.capacity == LeastPow2(if cap == 0 then 8 else cap)
    {
      var asked := if cap == 0 then 8 else cap;
      RoundedCapacity(asked);
      hide NextPowOf2, LeastPow2;
      var capacity := NextPowOf2(asked) % TWO_TO_32;
      if capacity == 0 { return null; }
      pool := new MemoryPool(capacity);
    }

    // The two tries of muggle_sowr_memory_pool_alloc with no free in between.
    method Alloc() returns (block: Option<nat>)
      requires Valid()
      modifies this
      ensures Valid()
      ensures block.None? <==> |old(hist.live)| == capacity - 1
      ensures block.None? ==> hist.live == old(hist.live)
      ensures block.Some? ==> block.value < capacity && block.value !in old(hist.live)
                              && hist.live == old(hist.live) + [block.value]
    {
      hide Inv, Mod;
      LiveBound(hist);
      StepIsSafe(hist, Try);
      hist := Apply(hist, Try);
      LiveBound(hist);
      var allocPos := Mod(allocIdx, capacity);
      if allocPos != cachedFreePos {
        allocIdx := (allocIdx + 1) % TWO_TO_32;
        return Some(allocPos);
      }
      StepIsSafe(hist, Load);
      hist := Apply(hist, Load);
      cachedFreePos := freeIdx;
      cachedFreePos := (cachedFreePos + TWO_TO_32 - 1) % TWO_TO_32;
      cachedFreePos := Mod(cachedFreePos, capacity);
      if allocPos != cachedFreePos {
        allocIdx := (allocIdx + 1) % TWO_TO_32;
        return Some(allocPos);
      }
      return None;
    }

    method Free(blockIdx: nat, ghost i: nat)
      requires Valid() && i < |hist.live| && hist.live[i] == blockIdx
      modifies this
      ensures Valid() && hist.live == old(hist.live)[i + 1..]
    {
      StepIsSafe(hist, Step.Free(i));
      hist := Apply(hist, Step.Free(i));
      freeIdx := blockIdx + 1;
    }

    method AllFree() returns (all: bool)
      requires Valid()
      ensures all <==> hist.live == []
    {
      AllFreeIsExact(hist);
      var freePos := Mod(freeIdx, capacity);
      var allocPos := Mod(allocIdx, capacity);
      all := freePos == allocPos;
    }
  }
}
