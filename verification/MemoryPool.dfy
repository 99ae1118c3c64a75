/** The growing block pool (muggle/c/memory/memory_pool.c): a circular list of free block
    pointers, laid out anew when the pool grows.  The operations are first functions on the
    pool's value, then methods of an object that updates its fields and its pointer array
    in place. */
module MemoryPool {
  import opened Options
  import opened Sequences
  import opened Words

  // A block is known by the data buffer it was cut from and its place there.
  datatype Block = Block(buf: nat, idx: nat)

  // sizes[b] is the number of blocks of data buffer b; |sizes| is num_buf.  fixed is the
  // constant-size flag and maxDelta the largest step of a growth by allocation, 0 for no limit.
  datatype Pool = Pool(ptr: seq<Block>, allocIndex: nat, freeIndex: nat, used: nat, sizes: seq<nat>,
                       fixed: bool, maxDelta: nat)

  function Wrap(i: nat, cap: nat): nat { if i < cap then i else i - cap }

  function NewBlocks(buf: nat, n: nat): (s: seq<Block>)
    ensures |s| == n
  {
    seq(n, i requires 0 <= i => Block(buf, i))
  }

  // muggle_memory_pool_init.
  function Fresh(initCapacity: nat, blockSize: nat): Pool
    requires blockSize > 0
  {
    var n := if initCapacity == 0 then 8 else initCapacity;
    Pool(NewBlocks(0, n), 0, 0, 0, [n], false, TWO_TO_31 / blockSize)
  }

  predicate Indexed(p: Pool) {
    p.allocIndex < |p.ptr| && p.freeIndex < |p.ptr| && p.used <= |p.ptr|
  }

  // muggle_memory_pool_alloc once there is a free block.
  function Taken(p: Pool): Block
    requires Indexed(p)
  {
    p.ptr[p.allocIndex]
  }

  function Advanced(p: Pool): Pool
    requires Indexed(p)
  {
    p.(used := p.used + 1, allocIndex := Wrap(p.allocIndex + 1, |p.ptr|))
  }

  function Returned(p: Pool, b: Block): Pool
    requires Indexed(p) && p.used > 0
  {
    p.(ptr := p.ptr[p.freeIndex := b], freeIndex := Wrap(p.freeIndex + 1, |p.ptr|), used := p.used - 1)
  }

  // The three-way section copy of muggle_memory_pool_ensure_space: the old pointers in their
  // new order, and the new allocation index among them.
  function Sections(p: Pool): (s: (seq<Block>, nat))
    requires Indexed(p)
    ensures |s.0| == |p.ptr|
  {
    var a, f := p.allocIndex, p.freeIndex;
    if p.used == |p.ptr| then (p.ptr[f..] + p.ptr[..f], |p.ptr|)
    else if a > f then (p.ptr[f..a] + p.ptr[a..] + p.ptr[..f], a - f)
    else (p.ptr[f..] + p.ptr[..a] + p.ptr[a..f], |p.ptr| - f + a)
  }

  function Grow(p: Pool, cap: nat): Pool
    requires Indexed(p) && |p.ptr| < cap
  {
    var (kept, split) := Sections(p);
    var delta := cap - |p.ptr|;
    p.(ptr := kept + NewBlocks(|p.sizes|, delta), allocIndex := split, freeIndex := 0, sizes := p.sizes + [delta])
  }

  // muggle_memory_pool_ensure_space; granted says whether the system had the memory.
  predicate Grows(p: Pool, cap: nat, granted: bool) { |p.ptr| < cap && !p.fixed && granted }

  function Reserved(p: Pool, cap: nat, granted: bool): Pool
    requires Indexed(p)
  {
    if Grows(p, cap, granted) then Grow(p, cap) else p
  }

  // The capacity, in 32 bits, that an allocation from a full pool asks for.
  function NextCap(p: Pool): nat {
    var delta := if 0 < p.maxDelta < |p.ptr| then p.maxDelta else |p.ptr|;
    (|p.ptr| + delta) % TWO_TO_32
  }

  predicate Refused(p: Pool, granted: bool) { p.used == |p.ptr| && !Grows(p, NextCap(p), granted) }

  // muggle_memory_pool_alloc.
  function Allocate(p: Pool, granted: bool): (Option<Block>, Pool)
    requires Congruent(p)
  {
    if Refused(p, granted) then (None, p)
    else
      var q := if p.used == |p.ptr| then Grow(p, NextCap(p)) else p;
      (Some(Taken(q)), Advanced(q))
  }

  // muggle_memory_pool_set_flag, which never takes a flag back, and set_max_delta_cap.
  function Flagged(p: Pool, constantSize: bool): Pool { p.(fixed := p.fixed || constantSize) }

  function Limited(p: Pool, delta: nat): Pool { p.(maxDelta := delta) }

  // ---------------------------------------------------------------- the free list

  // alloc_index is free_index + used, modulo the capacity.
  predicate Congruent(p: Pool) {
    Indexed(p) && p.allocIndex == Wrap(p.freeIndex + p.used, |p.ptr|)
  }

  // The free blocks in the order in which they will be handed out.
  ghost function Queue(p: Pool): (q: seq<Block>)
    requires Indexed(p)
    ensures |q| == |p.ptr| - p.used
    ensures forall j :: 0 <= j < |q| ==> q[j] == p.ptr[Wrap(p.allocIndex + j, |p.ptr|)]
  {
    (p.ptr[p.allocIndex..] + p.ptr[..p.allocIndex])[..|p.ptr| - p.used]
  }

  ghost function Created(p: Pool): set<Block> {
    set b, i | 0 <= b < |p.sizes| && 0 <= i < p.sizes[b] :: Block(b, i)
  }

  // The free list holds each block that is not outstanding once, and no other.
  ghost predicate Sound(p: Pool, out: set<Block>) {
    && Congruent(p) && |out| == p.used
    && NoDup(Queue(p)) && (forall b :: b in Queue(p) ==> b !in out)
    && (forall b :: b in Created(p) <==> b in out || b in Queue(p))
  }

  /** Allocation takes the head of the free list. */
  lemma AllocTakesHead(p: Pool)
    requires Congruent(p) && p.used < |p.ptr|
    ensures Congruent(Advanced(p)) && Queue(p) == [Taken(p)] + Queue(Advanced(p))
  {
    hide Queue;
    var q, r := Queue(p), [Taken(p)] + Queue(Advanced(p));
    assert forall j :: 0 <= j < |q| ==> q[j] == r[j];
  }

  /** Freeing appends to the free list. */
  lemma FreeAppends(p: Pool, b: Block)
    requires Congruent(p) && p.used > 0
    ensures Congruent(Returned(p, b)) && Queue(Returned(p, b)) == Queue(p) + [b]
  {
    hide Queue;
    var q, r := Queue(Returned(p, b)), Queue(p) + [b];
    assert forall j :: 0 <= j < |q| ==> q[j] == r[j];
  }

  /** Growing a pool with blocks in use keeps the free list and appends the new blocks. */
  lemma GrowAppends(p: Pool, cap: nat)
    requires Congruent(p) && p.used > 0 && |p.ptr| < cap
    ensures Congruent(Grow(p, cap)) && Queue(Grow(p, cap)) == Queue(p) + NewBlocks(|p.sizes|, cap - |p.ptr|)
  {
    hide Queue, NewBlocks;
    var q, r := Queue(Grow(p, cap)), Queue(p) + NewBlocks(|p.sizes|, cap - |p.ptr|);
    assert forall j :: 0 <= j < |q| ==> q[j] == r[j];
  }

  /** Growing keeps the list congruent exactly when blocks are in use: the last branch of the
      copy takes an all-free pool for an all-used one. */
  lemma GrowIsSoundIffUsed(p: Pool, cap: nat)
    requires Congruent(p) && |p.ptr| < cap
    ensures Congruent(Grow(p, cap)) <==> p.used > 0
  {
  }

  // ---------------------------------------------------------------- no block is given out twice

  lemma NewBlocksAt(buf: nat, n: nat)
    ensures NoDup(NewBlocks(buf, n))
    ensures forall b :: b in NewBlocks(buf, n) <==> b.buf == buf && b.idx < n
  {
    var s := NewBlocks(buf, n);
    forall b: Block | b.buf == buf && b.idx < n ensures b in s { assert s[b.idx] == b; }
  }

  lemma FreshIsSound(initCapacity: nat, blockSize: nat)
    requires blockSize > 0
    ensures Sound(Fresh(initCapacity, blockSize), {})
  {
    var p := Fresh(initCapacity, blockSize);
    NewBlocksAt(0, |p.ptr|);
    assert Queue(p) == p.ptr;
  }

  lemma AllocIsSound(p: Pool, out: set<Block>)
    requires Sound(p, out) && p.used < |p.ptr|
    ensures Taken(p) !in out && Taken(p) in Created(p) && Sound(Advanced(p), out + {Taken(p)})
  {
    hide Queue, NoDup, Created;
    AllocTakesHead(p);
    var q, r, b := Queue(p), Queue(Advanced(p)), Taken(p);
    TailNoDup(q, b, r);
    SameCreated(p, Advanced(p));
    assert forall x :: x in Created(p) <==> x in out + {b} || x in r;
  }

  lemma SameCreated(p: Pool, q: Pool)
    requires q.sizes == p.sizes
    ensures Created(q) == Created(p)
  {
  }

  lemma FreeIsSound(p: Pool, out: set<Block>, b: Block)
    requires Sound(p, out) && b in out
    ensures p.used > 0 && Sound(Returned(p, b), out - {b})
  {
    hide Queue, NoDup, Created;
    assert out != {};
    FreeAppends(p, b);
    SameCreated(p, Returned(p, b));
    OneNoDup(b);
    JoinNoDup(Queue(p), [b]);
    assert forall x :: x in Created(p) <==> x in out - {b} || x in Queue(p) + [b];
  }

  lemma OneNoDup(b: Block)
    ensures NoDup([b])
  {
  }

  lemma GrowIsSound(p: Pool, out: set<Block>, cap: nat)
    requires Sound(p, out) && p.used > 0 && |p.ptr| < cap
    ensures Sound(Grow(p, cap), out)
  {
    GrowAppends(p, cap);
    NewBlocksAt(|p.sizes|, cap - |p.ptr|);
    CreatedGrows(p, cap);
    hide Queue, Grow, NewBlocks, Created, Congruent, NoDup;
    JoinNoDup(Queue(p), NewBlocks(|p.sizes|, cap - |p.ptr|));
  }

  lemma JoinNoDup(q: seq<Block>, r: seq<Block>)
    requires NoDup(q) && NoDup(r) && forall b :: b in q ==> b !in r
    ensures NoDup(q + r)
  {
    var s := q + r;
    forall i, j | 0 <= i < j < |s| ensures s[i] != s[j] {
      if i < |q| <= j { assert q[i] in q && r[j - |q|] in r; }
    }
  }

  lemma CreatedGrows(p: Pool, cap: nat)
    requires Indexed(p) && |p.ptr| < cap
    ensures forall b :: b in Created(Grow(p, cap)) <==> b in Created(p) || b in NewBlocks(|p.sizes|, cap - |p.ptr|)
    ensures forall b :: b in Created(p) ==> b !in NewBlocks(|p.sizes|, cap - |p.ptr|)
    ensures Grow(p, cap).used == p.used
  {
    NewBlocksAt(|p.sizes|, cap - |p.ptr|);
    var s := Grow(p, cap).sizes;
    assert s[|p.sizes|] == cap - |p.ptr|;
    assert forall i :: 0 <= i < |p.sizes| ==> s[i] == p.sizes[i];
  }

  /** Allocation hands out a block that nobody holds, and fails only when the pool is full and
      cannot grow; a pool that grows by allocation stays sound. */
  lemma AllocateIsSound(p: Pool, out: set<Block>, granted: bool)
    requires Sound(p, out)
    ensures match Allocate(p, granted)
      case (None, q) => Refused(p, granted) && q == p
      case (Some(b), q) => !Refused(p, granted) && b !in out && b in Created(q) && Sound(q, out + {b})
  {
    if p.used < |p.ptr| {
      AllocIsSound(p, out);
    } else if !Refused(p, granted) {
      GrowIsSound(p, out, NextCap(p));
      GrowCapacity(p, NextCap(p));
      AllocIsSound(Grow(p, NextCap(p)), out);
    }
  }

  lemma GrowCapacity(p: Pool, cap: nat)
    requires Indexed(p) && |p.ptr| < cap
    ensures |Grow(p, cap).ptr| == cap && Grow(p, cap).used == p.used
    ensures Grow(p, cap).fixed == p.fixed && Grow(p, cap).maxDelta == p.maxDelta
  {
  }

  /** When an allocation fails, and what the capacity is afterwards: a full pool grows by its own
      capacity, or by the limit if that is smaller, unless the flag, the memory or the 32 bits of
      the capacity forbid it. */
  lemma AllocateInNumbers(p: Pool, granted: bool)
    requires Congruent(p) && |p.ptr| < TWO_TO_32
    ensures var d := if 0 < p.maxDelta < |p.ptr| then p.maxDelta else |p.ptr|;
            var (b, q) := Allocate(p, granted);
            && (b.None? <==> p.used == |p.ptr| && (p.fixed || !granted || |p.ptr| + d >= TWO_TO_32))
            && (b.Some? ==> |q.ptr| == if p.used == |p.ptr| then |p.ptr| + d else |p.ptr|)
            && (b.Some? ==> q.used == p.used + 1) && q.fixed == p.fixed && q.maxDelta == p.maxDelta
  {
    hide Grow;
    if p.used == |p.ptr| && |p.ptr| < NextCap(p) { GrowCapacity(p, NextCap(p)); }
  }

  /** Making room gives the capacity asked for, unless that is there already or the flag or the
      system forbids it; nothing else about the settings changes. */
  lemma ReservedInNumbers(p: Pool, cap: nat, granted: bool)
    requires Indexed(p)
    ensures var q := Reserved(p, cap, granted);
            && |q.ptr| == (if |p.ptr| < cap && !p.fixed && granted then cap else |p.ptr|)
            && q.used == p.used && q.fixed == p.fixed && q.maxDelta == p.maxDelta
  {
    hide Grow;
    if |p.ptr| < cap { GrowCapacity(p, cap); }
  }

  /** A new pool has the capacity asked for, or 8, and grows by no more than 2^31 bytes at a time. */
  lemma FreshInNumbers(initCapacity: nat, blockSize: nat)
    requires blockSize > 0
    ensures var p := Fresh(initCapacity, blockSize);
            && |p.ptr| == (if initCapacity == 0 then 8 else initCapacity) && p.used == 0 && !p.fixed
            && p.maxDelta * blockSize <= TWO_TO_31 < (p.maxDelta + 1) * blockSize
  {
    var d := TWO_TO_31 / blockSize;
    assert TWO_TO_31 == d * blockSize + TWO_TO_31 % blockSize;
  }

  lemma SoundIsCongruent(p: Pool, out: set<Block>)
    requires Sound(p, out)
    ensures Congruent(p)
  {
  }

  lemma SettingsAreSound(p: Pool, out: set<Block>, q: Pool)
    requires Sound(p, out) && q == p.(fixed := q.fixed, maxDelta := q.maxDelta)
    ensures Sound(q, out)
  {
    assert Queue(q) == Queue(p) && Created(q) == Created(p);
  }

  /** No step makes a constant-size pool grow or variable again. */
  lemma FixedPoolKeepsSize(s: State, step: Step)
    requires Safe(s, step) && s.pool.fixed
    ensures Apply(s, step).pool.fixed && |Apply(s, step).pool.ptr| == |s.pool.ptr|
  {
  }

  // ---------------------------------------------------------------- runs

  datatype Step =
    | Take(granted: bool) | Give(block: Block) | Reserve(cap: nat, granted: bool)
    | SetFlag(constantSize: bool) | SetMaxDelta(delta: nat)

  datatype State = State(pool: Pool, out: set<Block>)

  // What a caller may do.  Reserving space is restricted to a pool with a block in use.
  predicate Enabled(s: State, step: Step) {
    match step
    case Take(_) => true
    case Give(b) => b in s.out
    case Reserve(cap, granted) => cap < TWO_TO_32 && (Grows(s.pool, cap, granted) ==> s.pool.used > 0)
    case _ => true
  }

  // The reads of the step are in bounds.
  ghost predicate Safe(s: State, step: Step) {
    Congruent(s.pool) && (step.Give? ==> s.pool.used > 0)
  }

  ghost function Apply(s: State, step: Step): State
    requires Safe(s, step)
  {
    match step
    case Take(granted) =>
      var (got, q) := Allocate(s.pool, granted);
      State(q, if got.None? then s.out else s.out + {got.value})
    case Give(b) => State(Returned(s.pool, b), s.out - {b})
    case Reserve(cap, granted) => State(Reserved(s.pool, cap, granted), s.out)
    case SetFlag(constantSize) => State(Flagged(s.pool, constantSize), s.out)
    case SetMaxDelta(delta) => State(Limited(s.pool, delta), s.out)
  }

  ghost predicate Run(states: seq<State>, steps: seq<Step>, initCapacity: nat, blockSize: nat)
    requires blockSize > 0
  {
    && |states| == |steps| + 1 && states[0] == State(Fresh(initCapacity, blockSize), {})
    && forall i {:trigger steps[i]} :: 0 <= i < |steps| ==>
         Enabled(states[i], steps[i]) && (Safe(states[i], steps[i]) ==> states[i + 1] == Apply(states[i], steps[i]))
  }

  lemma StepIsSound(s: State, step: Step)
    requires Sound(s.pool, s.out) && Enabled(s, step)
    ensures Safe(s, step)
    ensures var s' := Apply(s, step);
            && Sound(s'.pool, s'.out)
            && (step.Take? && s'.out != s.out ==> exists b :: b !in s.out && s'.out == s.out + {b})
  {
    assert Congruent(s.pool);
    hide Sound, Grow, Created, Queue, Congruent;
    match step
    case Take(granted) => AllocateIsSound(s.pool, s.out, granted);
    case Give(b) => FreeIsSound(s.pool, s.out, b);
    case Reserve(cap, granted) => if Grows(s.pool, cap, granted) { GrowIsSound(s.pool, s.out, cap); }
    case SetFlag(constantSize) => SettingsAreSound(s.pool, s.out, Flagged(s.pool, constantSize));
    case SetMaxDelta(delta) => SettingsAreSound(s.pool, s.out, Limited(s.pool, delta));
  }

  /** In every run the free list and the blocks in use share out the created blocks exactly,
      and every step stays in bounds. */
  lemma {:induction false} EveryRunIsSound(
    states: seq<State>, steps: seq<Step>, initCapacity: nat, blockSize: nat, i: nat)
    requires blockSize > 0 && Run(states, steps, initCapacity, blockSize) && i < |states|
    ensures Sound(states[i].pool, states[i].out)
    ensures i < |steps| ==> Safe(states[i], steps[i])
  {
    hide Sound, Safe, Apply, Enabled, Fresh;
    if i == 0 {
      FreshIsSound(initCapacity, blockSize);
    } else {
      EveryRunIsSound(states, steps, initCapacity, blockSize, i - 1);
      var step := steps[i - 1];
      StepIsSound(states[i - 1], step);
    }
    if i < |steps| { StepIsSound(states[i], steps[i]); }
  }

  // ---------------------------------------------------------------- reserving in an idle pool

  // The blocks handed out by k allocations in a row, none of which needs to grow.
  function Handed(p: Pool, k: nat): (s: seq<Block>)
    requires Indexed(p) && p.used + k <= |p.ptr|
    ensures |s| == k
    decreases k
  {
    if k == 0 then [] else [Taken(p)] + Handed(Advanced(p), k - 1)
  }

  lemma {:induction false} HandedAt(p: Pool, k: nat, j: nat)
    requires Indexed(p) && p.used + k <= |p.ptr| && j < k
    ensures Handed(p, k)[j] == p.ptr[Wrap(p.allocIndex + j, |p.ptr|)]
    decreases k
  {
    if j == 0 {
    } else {
      HandedAt(Advanced(p), k - 1, j - 1);
    }
  }

  /** After growing a sound pool with no block in use, one allocation, its return, and as many
      allocations as there are blocks hand the same block out twice. */
  lemma GrowingIdleHandsOutTwice(p: Pool, cap: nat, i: nat, j: nat)
    requires Sound(p, {}) && |p.ptr| < cap && i == cap - |p.ptr| - 1 && j == cap - 1
    ensures var g := Grow(p, cap);
            Indexed(g) && g.used == 0 && |g.ptr| == cap &&
            var q := Returned(Advanced(g), Taken(g));
            Indexed(q) && i < j < cap && Handed(q, cap)[i] == Handed(q, cap)[j]
  {
    var g := Grow(p, cap);
    var q := Returned(Advanced(g), Taken(g));
    HandedAt(q, cap, i);
    HandedAt(q, cap, j);
  }

  lemma AllocateSplits(p: Pool, out: set<Block>, granted: bool)
    requires Sound(p, out)
    ensures Congruent(p)
    ensures Allocate(p, granted) ==
            if Refused(p, granted) then (None, p)
            else var q := if p.used == |p.ptr| then Grow(p, NextCap(p)) else p; (Some(Taken(q)), Advanced(q))
    ensures p.used == |p.ptr| && !Refused(p, granted) ==>
              var q := Grow(p, NextCap(p)); Indexed(q) && q.used < |q.ptr| && Sound(q, out)
  {
    if p.used == |p.ptr| && !Refused(p, granted) {
      GrowIsSound(p, out, NextCap(p));
      GrowCapacity(p, NextCap(p));
    }
  }

  lemma GrowFacts(p: Pool, out: set<Block>, cap: nat)
    requires Sound(p, out) && |p.ptr| < cap
    ensures Sound(Grow(p, cap), out) <==> p.used > 0
  {
    if p.used > 0 { GrowIsSound(p, out, cap); }
  }

  lemma CongruentFacts(p: Pool, out: set<Block>)
    requires Sound(p, out)
    ensures Congruent(p)
  {
  }

  // The section pointers and counts that the code computes describe Sections.
  lemma SectionsAre(p: Pool, numFree1: nat, numFree2: nat, alloc1: nat, numAlloc1: nat, numAlloc2: nat)
    requires Indexed(p)
    requires var n, a, f := |p.ptr|, p.allocIndex, p.freeIndex;
             (numFree1, numFree2, alloc1, numAlloc1, numAlloc2) ==
             if p.used == n then (n - f, f, 0, 0, 0)
             else if a > f then (a - f, 0, a, n - a, f)
             else (n - f, a, a, f - a, 0)
    ensures var s, f := p.ptr, p.freeIndex;
            (s[f..f + numFree1] + s[..numFree2] + s[alloc1..alloc1 + numAlloc1] + s[..numAlloc2], numFree1 + numFree2)
            == Sections(p)
  {
    var s, f := p.ptr, p.freeIndex;
    var a, b, c, d := s[f..f + numFree1], s[..numFree2], s[alloc1..alloc1 + numAlloc1], s[..numAlloc2];
    if p.used == |s| {
      assert c == [] && d == [] && a == s[f..] && a + b + c + d == a + b;
    } else if p.allocIndex > f {
      assert b == [] && c == s[alloc1..] && a + b + c + d == a + c + d;
    } else {
      assert d == [] && a == s[f..] && a + b + c + d == a + b + c;
    }
  }

  // ---------------------------------------------------------------- the object

  // memcpy between two pointer buffers.
  method Copy(dst: array<Block>, at: nat, src: array<Block>, from: nat, n: nat)
    requires dst != src && at + n <= dst.Length && from + n <= src.Length
    modifies dst
    ensures dst[..at + n] == old(dst[..at]) + src[from..from + n]
  {
    forall i | 0 <= i < n { dst[at + i] := src[from + i]; }
  }

  // Copies a section and then one from the start of the buffer.
  method CopyTwo(dst: array<Block>, at: nat, src: array<Block>, from: nat, n: nat, m: nat, ghost s: seq<Block>)
    returns (end: nat)
    requires dst != src && at + n + m <= dst.Length && from + n <= src.Length && m <= src.Length && s == src[..]
    modifies dst
    ensures end == at + n + m && dst[..end] == old(dst[..at]) + s[from..from + n] + s[..m]
  {
    end := at;
    if n > 0 {
      Copy(dst, end, src, from, n);
      end := end + n;
    }
    assert dst[..end] == old(dst[..at]) + src[from..from + n];
    if m > 0 {
      Copy(dst, end, src, 0, m);
      end := end + m;
    }
  }

  // Copies the free sections and then the allocatable ones; returns where the latter begin.
  method CopyFour(dst: array<Block>, src: array<Block>, free1: nat, numFree1: nat, numFree2: nat, alloc1: nat,
                  numAlloc1: nat, numAlloc2: nat, ghost s: seq<Block>)
    returns (split: nat)
    requires dst != src && s == src[..] && free1 + numFree1 <= src.Length && numFree2 <= src.Length
    requires alloc1 + numAlloc1 <= src.Length && numAlloc2 <= src.Length
    requires numFree1 + numFree2 + numAlloc1 + numAlloc2 <= dst.Length
    modifies dst
    ensures split == numFree1 + numFree2
    ensures dst[..split + numAlloc1 + numAlloc2]
            == s[free1..free1 + numFree1] + s[..numFree2] + s[alloc1..alloc1 + numAlloc1] + s[..numAlloc2]
  {
    split := CopyTwo(dst, 0, src, free1, numFree1, numFree2, s);
    assert dst[..split] == s[free1..free1 + numFree1] + s[..numFree2];
    var _ := CopyTwo(dst, split, src, alloc1, numAlloc1, numAlloc2, s);
  }

  class MemoryPool {
    var ptrBuf: array<Block>
    var allocIndex: nat
    var freeIndex: nat
    var capacity: nat
    var used: nat
    var sizes: seq<nat>
    var fixed: bool
    var maxDelta: nat
    ghost var out: set<Block>

    ghost function View(): Pool
      reads this, ptrBuf
    {
      Pool(ptrBuf[..], allocIndex, freeIndex, used, sizes, fixed, maxDelta)
    }

    ghost predicate Valid()
      reads this, ptrBuf
    {
      capacity == ptrBuf.Length < TWO_TO_32 && Sound(View(), out)
    }

    constructor (initCapacity: nat, blockSize: nat)
      requires initCapacity < TWO_TO_32 && 0 < blockSize < TWO_TO_32
      ensures Valid() && fresh(ptrBuf) && out == {} && View() == Fresh(initCapacity, blockSize)
    {
      var n := if initCapacity == 0 then 8 else initCapacity;
      ptrBuf := new Block[n](i => Block(0, i));
      allocIndex, freeIndex, used, capacity := 0, 0, 0, n;
      sizes, fixed, maxDelta, out := [n], false, TWO_TO_31 / blockSize, {};
      new;
      assert ptrBuf[..] == NewBlocks(0, n);
      FreshIsSound(initCapacity, blockSize);
    }

    // muggle_memory_pool_init: a block size of 0 is refused.
    static method Init(initCapacity: nat, blockSize: nat, granted: bool) returns (pool: MemoryPool?)
      requires initCapacity < TWO_TO_32 && blockSize < TWO_TO_32
      ensures pool == null <==> blockSize == 0 || !granted
      ensures pool != null ==> fresh(pool) && fresh(pool.ptrBuf) && pool.Valid()
                               && pool.View() == Fresh(initCapacity, blockSize) && pool.out == {}
      ensures pool != null ==> pool.capacity == (if initCapacity == 0 then 8 else initCapacity) && !pool.fixed
                               && pool.maxDelta * blockSize <= TWO_TO_31 < (pool.maxDelta + 1) * blockSize
    {
      if blockSize == 0 || !granted { return null; }
      FreshInNumbers(initCapacity, blockSize);
      hide Fresh;
      pool := new MemoryPool(initCapacity, blockSize);
    }

    /** The new pointer buffer is the old free list followed by the new blocks; the pool stays
        valid exactly when it did not grow or had a block in use. */
    method EnsureSpace(cap: nat, granted: bool) returns (ok: bool)
      requires Valid() && cap < TWO_TO_32
      modifies this
      ensures ok == (cap <= old(capacity) || (!old(fixed) && granted))
      ensures capacity == if ok && old(capacity) < cap then cap else old(capacity)
      ensures View() == Reserved(old(View()), cap, granted) && out == old(out)
      ensures ptrBuf == old(ptrBuf) || fresh(ptrBuf)
      ensures Valid() <==> !Grows(old(View()), cap, granted) || old(used) > 0
    {
      ghost var p := View();
      if cap <= capacity { return true; }
      if fixed || !granted { return false; }
      GrowFacts(p, out, cap);
      Relocate(cap);
      return true;
    }

    // Finds the sections of the pointer buffer: where they start and how long they are.
    method FindSections() returns (numFree1: nat, numFree2: nat, alloc1: nat, numAlloc1: nat, numAlloc2: nat)
      requires Indexed(View()) && capacity == ptrBuf.Length
      ensures freeIndex + numFree1 <= capacity && numFree2 <= capacity && alloc1 + numAlloc1 <= capacity
      ensures numAlloc2 <= capacity == numFree1 + numFree2 + numAlloc1 + numAlloc2
      ensures var s, f := View().ptr, freeIndex;
              (s[f..f + numFree1] + s[..numFree2] + s[alloc1..alloc1 + numAlloc1] + s[..numAlloc2], numFree1 + numFree2)
              == Sections(View())
    {
      numFree1, numFree2, alloc1, numAlloc1, numAlloc2 := 0, 0, 0, 0, 0;
      if used == capacity {
        numFree1, numFree2 := capacity - freeIndex, freeIndex;
      } else if allocIndex > freeIndex {
        numFree1 := allocIndex - freeIndex;
        alloc1, numAlloc1, numAlloc2 := allocIndex, capacity - allocIndex, freeIndex;
      } else {
        numFree1, numFree2 := capacity - freeIndex, allocIndex;
        alloc1, numAlloc1 := allocIndex, freeIndex - allocIndex;
      }
      hide Sections;
      SectionsAre(View(), numFree1, numFree2, alloc1, numAlloc1, numAlloc2);
    }

    // Copies the sections into a new pointer buffer.
    method CopySections(buf: array<Block>) returns (split: nat)
      requires Indexed(View()) && capacity == ptrBuf.Length <= buf.Length && buf != ptrBuf
      modifies buf
      ensures (buf[..capacity], split) == Sections(View())
    {
      hide Sections, Indexed;
      var numFree1, numFree2, alloc1, numAlloc1, numAlloc2 := FindSections();
      split := CopyFour(buf, ptrBuf, freeIndex, numFree1, numFree2, alloc1, numAlloc1, numAlloc2, View().ptr);
    }

    // Lays the pool out in a new pointer buffer of the given capacity.
    method Relocate(cap: nat)
      requires Indexed(View()) && capacity == ptrBuf.Length < cap
      modifies this
      ensures View() == Grow(old(View()), cap) && out == old(out) && fresh(ptrBuf) && capacity == cap == ptrBuf.Length
    {
      ghost var p := View();
      var buf := new Block[cap];
      var split := CopySections(buf);
      hide Sections;
      var delta, i := cap - capacity, 0;
      while i < delta
        invariant 0 <= i <= delta && buf[..capacity] == Sections(p).0
        invariant forall j :: 0 <= j < i ==> buf[capacity + j] == Block(|sizes|, j)
        modifies buf
      {
        buf[capacity + i] := Block(|sizes|, i);
        i := i + 1;
      }
      assert buf[..] == buf[..capacity] + NewBlocks(|sizes|, delta);
      ptrBuf, sizes, capacity := buf, sizes + [delta], cap;
      freeIndex, allocIndex := 0, split;
    }

    // The part of an allocation after the pool has made room.
    method TakeHead() returns (block: Block)
      requires Indexed(View()) && used < capacity == ptrBuf.Length
      modifies this`used, this`allocIndex
      ensures View() == Advanced(old(View())) && block == Taken(old(View()))
    {
      used := used + 1;
      block := ptrBuf[allocIndex];
      allocIndex := allocIndex + 1;
      if allocIndex == capacity { allocIndex := 0; }
    }

    // The two settings; the flag is only ever added.
    method SetFlag(constantSize: bool)
      requires Valid()
      modifies this`fixed
      ensures Valid() && View() == Flagged(old(View()), constantSize) && fixed == (old(fixed) || constantSize)
    {
      SettingsAreSound(View(), out, Flagged(View(), constantSize));
      hide Sound;
      fixed := fixed || constantSize;
    }

    method SetMaxDelta(delta: nat)
      requires Valid() && delta < TWO_TO_32
      modifies this`maxDelta
      ensures Valid() && View() == Limited(old(View()), delta) && maxDelta == delta
    {
      SettingsAreSound(View(), out, Limited(View(), delta));
      hide Sound;
      maxDelta := delta;
    }

    /** Hands out the head of the free list, growing a full pool first. */
    method Alloc(granted: bool) returns (ret: Option<Block>)
      requires Valid()
      modifies this
      ensures Valid() && (ptrBuf == old(ptrBuf) || fresh(ptrBuf))
      ensures (ret, View()) == Allocate(old(View()), granted)
      ensures ret.None? ==> out == old(out)
      ensures var d := if 0 < old(maxDelta) < old(capacity) then old(maxDelta) else old(capacity);
              && (ret.None? <==>
                    old(used) == old(capacity) && (old(fixed) || !granted || old(capacity) + d >= TWO_TO_32))
              && (ret.Some? ==> capacity == if old(used) == old(capacity) then old(capacity) + d else old(capacity))
      ensures ret.Some? ==> ret.value !in old(out) && out == old(out) + {ret.value}
    {
      ghost var p := View();
      hide Sound, Congruent, Allocate, Grow, Refused, NextCap, Advanced, Taken, Created;
      SoundIsCongruent(p, out);
      AllocateInNumbers(p, granted);
      AllocateIsSound(p, out, granted);
      AllocateSplits(p, out, granted);
      var ok := MakeRoom(granted);
      if !ok { return None; }
      var block := TakeHead();
      ret := Some(block);
      out := out + {block};
    }

    // The part of an allocation that grows a full pool.
    method MakeRoom(granted: bool) returns (ok: bool)
      requires Valid()
      modifies this
      ensures ok == !Refused(old(View()), granted) && out == old(out)
      ensures !ok ==> View() == old(View())
      ensures ok ==> View() == if old(used) == old(capacity) then Grow(old(View()), NextCap(old(View())))
                               else old(View())
      ensures capacity == ptrBuf.Length < TWO_TO_32 && (ptrBuf == old(ptrBuf) || fresh(ptrBuf))
    {
      hide Sound, Grow;
      CongruentFacts(View(), out);
      if used < capacity { return true; }
      var delta := capacity;
      if maxDelta > 0 && delta > maxDelta { delta := maxDelta; }
      var newCap := (capacity + delta) % TWO_TO_32;
      if newCap <= capacity { return false; }
      ok := EnsureSpace(newCap, granted);
    }

    /** A returned block goes to the end of the free list. */
    method Free(block: Block)
      requires Valid() && block in out
      modifies this, ptrBuf
      ensures Valid() && ptrBuf == old(ptrBuf) && out == old(out) - {block}
      ensures old(used) > 0 && View() == Returned(old(View()), block)
    {
      ghost var p := View();
      FreeIsSound(p, out, block);
      hide Sound;
      PutTail(block);
      out := out - {block};
    }

    method PutTail(block: Block)
      requires Indexed(View()) && used > 0 && capacity == ptrBuf.Length
      modifies this`used, this`freeIndex, ptrBuf
      ensures View() == Returned(old(View()), block)
    {
      ghost var s := ptrBuf[..];
      ptrBuf[freeIndex] := block;
      assert ptrBuf[..] == s[freeIndex := block];
      freeIndex := freeIndex + 1;
      if freeIndex == capacity { freeIndex := 0; }
      used := used - 1;
    }
  }
}
