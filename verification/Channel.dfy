/** The channel (muggle/c/sync/channel.c): any number of writers behind a write lock, one
    reader, a ring of blocks.  The three read modes (futex, mutex with condition variable,
    busy loop) and the locked and unlocked ("single writer") write modes are one transition
    system with a step for each access to a shared cell, lock operation, wait and wake.
    Sequential consistency is assumed.  Masking with capacity - 1 is written as a remainder
    (PowerOfTwo.MaskIsRemainder). */
module Channel {
  import opened PowerOfTwo

  type Thread = nat
  type Msg = int

  datatype ReadMode = Sync | Mutex | Busy

  datatype WriterPc =
    | WIdle
    | WWantLock(m: Msg)
    | WWantReadMutex(m: Msg)  // Mutex only
    | WCheck(m: Msg)          // about to compare the next write position with the read cursor
    | WReload(m: Msg)         // Busy only: about to load read_cursor into cached_r_cur
    | WPut(m: Msg)            // about to store into the block
    | WPublish(m: Msg)        // about to store write_cursor
    | WDropReadMutex(ok: bool)
    | WUnlock(ok: bool)
    | WWake                   // published; about to wake the reader

  datatype ReaderPc =
    | RIdle
    | RWantMutex              // Mutex only
    | RLoad                   // about to load write_cursor
    | RWait(wpos: nat)        // Sync only: about to call muggle_sync_wait
    | RParked                 // asleep in the futex or on the condition variable
    | RGet                    // about to read the block
    | RAdvance(m: Msg)        // about to store read_cursor
    | RDropMutex              // Mutex only

  datatype Owner = Nobody | Writer(t: Thread) | Reader

  // accepted and taken are the messages accepted and returned so far; seen counts those taken
  // as of the load behind cached_r_cur.  No step reads these three.
  datatype State = State(
    mode: ReadMode, single: bool, cap: nat,
    blocks: seq<Msg>, w: nat, r: nat, cachedR: nat,
    lock: Owner, readMutex: Owner, writers: map<Thread, WriterPc>, rpc: ReaderPc,
    accepted: seq<Msg>, taken: seq<Msg>, seen: nat)

  datatype WriterStep =
    | CallWrite(m: Msg) | Lock | LockReadMutex | Check | Reload | Put | Publish | UnlockReadMutex | Unlock | Wake

  datatype ReaderStep = CallRead | ReaderLock | Load | Wait | SpuriousWake | Get | Advance | ReaderUnlock

  datatype Step = ByWriter(t: Thread, ws: WriterStep) | ByReader(rs: ReaderStep)

  ghost predicate Init(s: State) {
    && 1 <= s.cap && |s.blocks| == s.cap && s.w == 0 && s.r == s.cap - 1 && s.cachedR == s.cap - 1
    && s.lock == Nobody && s.readMutex == Nobody && s.rpc == RIdle
    && (forall t :: t in s.writers ==> s.writers[t] == WIdle)
    && (s.single ==> forall t, u :: t in s.writers && u in s.writers ==> t == u)
    && s.accepted == [] && s.taken == [] && s.seen == 0
  }

  predicate WriterEnabled(s: State, pc: WriterPc, step: WriterStep) {
    match step
    case CallWrite(_) => pc.WIdle?
    case Lock => pc.WWantLock? && (s.single || s.lock == Nobody)
    case LockReadMutex => pc.WWantReadMutex? && s.readMutex == Nobody
    case Check => pc.WCheck?
    case Reload => pc.WReload?
    case Put => pc.WPut?
    case Publish => pc.WPublish?
    case UnlockReadMutex => pc.WDropReadMutex?
    case Unlock => pc.WUnlock?
    case Wake => pc.WWake?
  }

  predicate ReaderEnabled(s: State, step: ReaderStep) {
    match step
    case CallRead => s.rpc.RIdle?
    case ReaderLock => s.rpc.RWantMutex? && s.readMutex == Nobody
    case Load => s.rpc.RLoad?
    case Wait => s.rpc.RWait?
    case SpuriousWake => s.rpc.RParked?
    case Get => s.rpc.RGet?
    case Advance => s.rpc.RAdvance?
    case ReaderUnlock => s.rpc.RDropMutex?
  }

  predicate Enabled(s: State, step: Step) {
    match step
    case ByWriter(t, ws) => t in s.writers && WriterEnabled(s, s.writers[t], ws)
    case ByReader(rs) => ReaderEnabled(s, rs)
  }

  // Array accesses stay inside blocks.
  predicate Safe(s: State, step: Step) {
    0 < s.cap && s.w < |s.blocks| && Mod(s.r + 1, s.cap) < |s.blocks|
  }

  function Goto(s: State, t: Thread, pc: WriterPc): State {
    s.(writers := s.writers[t := pc])
  }

  function Refuse(s: State, t: Thread): State {
    Goto(s, t, if s.mode == Mutex then WDropReadMutex(false) else WUnlock(false))
  }

  function Woken(s: State): State {
    if s.rpc.RParked? then s.(rpc := if s.mode == Mutex then RWantMutex else RLoad) else s
  }

  function WriterApply(s: State, t: Thread, step: WriterStep): State
    requires Enabled(s, ByWriter(t, step)) && Safe(s, ByWriter(t, step))
  {
    var next := Mod(s.w + 1, s.cap);
    match step
    case CallWrite(m) => Goto(s, t, WWantLock(m))
    case Lock =>
      Goto(if s.single then s else s.(lock := Writer(t)), t,
           if s.mode == Mutex then WWantReadMutex(s.writers[t].m) else WCheck(s.writers[t].m))
    case LockReadMutex => Goto(s.(readMutex := Writer(t)), t, WCheck(s.writers[t].m))
    case Check =>
      var m := s.writers[t].m;
      if s.mode == Busy then Goto(s, t, if next != s.cachedR then WPut(m) else WReload(m))
      else if next == s.r then Refuse(s, t) else Goto(s, t, WPut(m))
    case Reload =>
      var s1 := s.(cachedR := s.r, seen := |s.taken|);
      if next != s.r then Goto(s1, t, WPut(s.writers[t].m)) else Refuse(s1, t)
    case Put => Goto(s.(blocks := s.blocks[s.w := s.writers[t].m]), t, WPublish(s.writers[t].m))
    case Publish =>
      Goto(s.(w := next, accepted := s.accepted + [s.writers[t].m]), t,
           if s.mode == Mutex then WDropReadMutex(true) else WUnlock(true))
    case UnlockReadMutex => Goto(s.(readMutex := Nobody), t, WUnlock(s.writers[t].ok))
    case Unlock => Goto(if s.single then s else s.(lock := Nobody), t, if s.writers[t].ok then WWake else WIdle)
    case Wake => Woken(Goto(s, t, WIdle))
  }

  function ReaderApply(s: State, step: ReaderStep): State
    requires Enabled(s, ByReader(step)) && Safe(s, ByReader(step))
  {
    var rpos := Mod(s.r + 1, s.cap);
    match step
    case CallRead => s.(rpc := if s.mode == Mutex then RWantMutex else RLoad)
    case ReaderLock => s.(readMutex := Reader, rpc := RLoad)
    case Load =>
      if s.w != rpos then s.(rpc := RGet)
      else if s.mode == Sync then s.(rpc := RWait(s.w))
      else if s.mode == Mutex then s.(readMutex := Nobody, rpc := RParked)  // wait drops the mutex and parks at once
      else s
    case Wait => s.(rpc := if s.w == s.rpc.wpos then RParked else RLoad)
    case SpuriousWake => Woken(s)
    case Get => s.(rpc := RAdvance(s.blocks[rpos]))
    case Advance => s.(r := rpos, taken := s.taken + [s.rpc.m], rpc := if s.mode == Mutex then RDropMutex else RIdle)
    case ReaderUnlock => s.(readMutex := Nobody, rpc := RIdle)
  }

  function Apply(s: State, step: Step): State
    requires Enabled(s, step) && Safe(s, step)
  {
    match step
    case ByWriter(t, ws) => WriterApply(s, t, ws)
    case ByReader(rs) => ReaderApply(s, rs)
  }

  // ---------------------------------------------------------------- invariant

  // The most messages that can be unread: none for capacities 1 and 2.
  function Room(cap: nat): nat { if cap <= 2 then 0 else cap - 2 }

  // Cursors, block contents and counts.
  ghost predicate Ring(s: State) {
    && 1 <= s.cap && |s.blocks| == s.cap
    && s.w == Mod(|s.accepted|, s.cap) && s.r == Mod(|s.taken| - 1, s.cap)
    && |s.taken| <= |s.accepted| <= |s.taken| + Room(s.cap)
    && (s.cap <= 2 ==> s.accepted == [])
    && s.taken == s.accepted[..|s.taken|]
    && (forall j :: |s.taken| <= j < |s.accepted| ==> s.blocks[Mod(j, s.cap)] == s.accepted[j])
    && (s.mode == Busy ==>
          && s.seen <= |s.taken| && |s.accepted| <= s.seen + Room(s.cap)
          && s.cachedR == Mod(s.seen - 1, s.cap))
  }

  predicate Critical(pc: WriterPc) {
    !pc.WIdle? && !pc.WWantLock? && !pc.WWake?
  }

  predicate UsesReadMutex(pc: WriterPc) {
    pc.WCheck? || pc.WPut? || pc.WPublish? || pc.WDropReadMutex?
  }

  // One writer at a time between lock and unlock.
  ghost predicate WriteLock(s: State) {
    && (forall t, u :: t in s.writers && u in s.writers && Critical(s.writers[t]) && Critical(s.writers[u]) ==> t == u)
    && (if s.single then forall t, u :: t in s.writers && u in s.writers ==> t == u
        else forall t :: t in s.writers && Critical(s.writers[t]) ==> s.lock == Writer(t))
  }

  // The read mutex serves one side at a time; each mode has its own program points.
  ghost predicate ReadMutex(s: State) {
    && (s.mode == Mutex ==>
          && (forall t :: t in s.writers && UsesReadMutex(s.writers[t]) ==> s.readMutex == Writer(t))
          && (s.rpc.RLoad? || s.rpc.RGet? || s.rpc.RAdvance? || s.rpc.RDropMutex? ==> s.readMutex == Reader))
    && (forall t :: t in s.writers ==>
          && (s.writers[t].WReload? ==> s.mode == Busy)
          && (s.writers[t].WWantReadMutex? || s.writers[t].WDropReadMutex? ==> s.mode == Mutex))
    && (s.rpc.RWantMutex? || s.rpc.RDropMutex? ==> s.mode == Mutex)
    && (s.rpc.RWait? ==> s.mode == Sync) && (s.rpc.RParked? ==> s.mode != Busy)
  }

  ghost predicate Locks(s: State) {
    WriteLock(s) && ReadMutex(s)
  }

  // A writer past its check has room for its message, however stale the check.
  ghost predicate WriterRoom(s: State, pc: WriterPc)
    requires Ring(s)
  {
    && (pc.WPut? || pc.WPublish? ==>
          && |s.accepted| < |s.taken| + Room(s.cap)
          && (s.mode == Busy ==> |s.accepted| < s.seen + Room(s.cap)))
    && (pc.WPublish? ==> s.blocks[s.w] == pc.m)
  }

  ghost predicate ReaderSees(s: State) {
    && (s.rpc.RGet? || s.rpc.RAdvance? ==> |s.taken| < |s.accepted|)
    && (s.rpc.RAdvance? && |s.taken| < |s.accepted| ==> s.rpc.m == s.accepted[|s.taken|])
    && (s.rpc.RWait? && 0 < s.cap ==> s.rpc.wpos == Mod(|s.taken|, s.cap))
  }

  // The writer has published and its wake is still to come.
  predicate OwesWake(pc: WriterPc) {
    pc.WWake? || (pc.WUnlock? && pc.ok) || (pc.WDropReadMutex? && pc.ok)
  }

  ghost predicate SomeoneOwesWake(s: State) {
    exists t :: t in s.writers && OwesWake(s.writers[t])
  }

  ghost predicate NoLostWakeup(s: State) {
    s.rpc.RParked? && |s.taken| < |s.accepted| ==> SomeoneOwesWake(s)
  }

  ghost predicate Inv(s: State) {
    && Ring(s) && Locks(s) && ReaderSees(s) && NoLostWakeup(s)
    && (forall t :: t in s.writers ==> WriterRoom(s, s.writers[t]))
  }

  // ---------------------------------------------------------------- positions

  /** The next write position meets the slot before n exactly when Room(cap) messages lie
      between: this is what the comparison of cursors decides. */
  lemma FullIff(n: nat, w: nat, cap: nat)
    requires 1 <= cap && n <= w <= n + Room(cap)
    ensures Mod(Mod(w, cap) + 1, cap) == Mod(n - 1, cap) <==> w == n + Room(cap)
  {
    NextSlot(w, cap);
    if cap == 1 {
      UniqueRemainder(w + 1, 1, w + 1, 0);
      UniqueRemainder(n - 1, 1, n - 1, 0);
    } else {
      AddLap(n - 1, cap);
      SameSlot(n - 1 + cap, w + 1, cap);
    }
  }

  lemma EmptyIff(s: State)
    requires Ring(s)
    ensures Mod(s.r + 1, s.cap) == Mod(|s.taken|, s.cap)
    ensures s.w == Mod(|s.taken|, s.cap) <==> |s.accepted| == |s.taken|
  {
    hide Mod;
    NextSlot(|s.taken| - 1, s.cap);
    SameSlot(|s.accepted|, |s.taken|, s.cap);
  }

  // ---------------------------------------------------------------- writer steps

  // What a writer step does to the write lock and to the writers.
  lemma LockAfter(s: State, t: Thread, step: WriterStep)
    requires Enabled(s, ByWriter(t, step)) && Safe(s, ByWriter(t, step))
    ensures var s' := WriterApply(s, t, step);
            && s'.single == s.single && s'.writers.Keys == s.writers.Keys
            && (forall u :: u in s.writers && u != t ==> s'.writers[u] == s.writers[u])
            && (step.Lock? ==> s.single || (s.lock == Nobody && s'.lock == Writer(t)))
            && (step.Unlock? ==> Critical(s.writers[t]) && !Critical(s'.writers[t]))
            && (!step.Lock? && !step.Unlock? ==> s'.lock == s.lock)
            && (Critical(s'.writers[t]) ==> Critical(s.writers[t]) || step.Lock?)
  {
    hide Mod;
  }

  lemma WriterKeepsWriteLock(s: State, t: Thread, step: WriterStep)
    requires WriteLock(s) && Enabled(s, ByWriter(t, step)) && Safe(s, ByWriter(t, step))
    ensures WriteLock(WriterApply(s, t, step))
  {
    hide Mod, WriterApply, Critical;
    LockAfter(s, t, step);
  }

  // What a writer step does to the read mutex and to the reader.
  lemma MutexAfter(s: State, t: Thread, step: WriterStep)
    requires Enabled(s, ByWriter(t, step)) && Safe(s, ByWriter(t, step)) && (s.writers[t].WReload? ==> s.mode == Busy)
    ensures var s' := WriterApply(s, t, step);
            && t in s'.writers && s'.mode == s.mode
            && (step.LockReadMutex? ==> s.readMutex == Nobody && s'.readMutex == Writer(t))
            && (step.UnlockReadMutex? ==> s.writers[t].WDropReadMutex? && !UsesReadMutex(s'.writers[t]))
            && (!step.LockReadMutex? && !step.UnlockReadMutex? ==> s'.readMutex == s.readMutex)
            && (s.mode == Mutex && UsesReadMutex(s'.writers[t]) ==> UsesReadMutex(s.writers[t]) || step.LockReadMutex?)
            && (s'.writers[t].WReload? ==> s.mode == Busy)
            && (s'.writers[t].WWantReadMutex? || s'.writers[t].WDropReadMutex? ==> s.mode == Mutex)
            && (s'.rpc == s.rpc || (s.rpc.RParked? && s'.rpc == if s.mode == Mutex then RWantMutex else RLoad))
  {
    hide Mod;
  }

  lemma WriterKeepsReadMutex(s: State, t: Thread, step: WriterStep)
    requires Locks(s) && Enabled(s, ByWriter(t, step)) && Safe(s, ByWriter(t, step))
    ensures ReadMutex(WriterApply(s, t, step))
  {
    hide Mod, WriteLock, WriterApply;
    LockAfter(s, t, step);
    MutexAfter(s, t, step);
    if Critical(s.writers[t]) {
      OthersAreOutside(s, t);
    }
  }

  lemma WriterKeepsLocks(s: State, t: Thread, step: WriterStep)
    requires Locks(s) && Enabled(s, ByWriter(t, step)) && Safe(s, ByWriter(t, step))
    ensures Locks(WriterApply(s, t, step))
  {
    hide Mod, WriteLock, ReadMutex, WriterApply;
    WriterKeepsWriteLock(s, t, step);
    WriterKeepsReadMutex(s, t, step);
  }

  lemma OthersAreOutside(s: State, t: Thread)
    requires Locks(s) && t in s.writers && Critical(s.writers[t])
    ensures forall u :: u in s.writers && u != t ==> !Critical(s.writers[u])
  {
    hide Mod, ReadMutex, Critical;
  }

  lemma InvFacts(s: State)
    requires Inv(s)
    ensures Ring(s) && Locks(s) && ReaderSees(s) && NoLostWakeup(s)
    ensures forall u :: u in s.writers ==> WriterRoom(s, s.writers[u])
  {
    hide Ring, Locks, ReaderSees, NoLostWakeup, WriterRoom;
  }

  ghost predicate SameRing(s: State, s': State) {
    && s'.cap == s.cap && s'.blocks == s.blocks && s'.w == s.w && s'.r == s.r && s'.mode == s.mode
    && s'.accepted == s.accepted && s'.taken == s.taken && s'.cachedR == s.cachedR && s'.seen == s.seen
  }

  lemma SameRingKeeps(s: State, s': State)
    requires Ring(s) && SameRing(s, s')
    ensures Ring(s') && forall pc :: WriterRoom(s', pc) <==> WriterRoom(s, pc)
    ensures s'.rpc == s.rpc && ReaderSees(s) ==> ReaderSees(s')
  {
    hide Mod, Room;
  }

  // The other writers are outside the lock, so only the stepping writer's room is in question.
  lemma CriticalStepKeepsRoom(s: State, t: Thread, step: WriterStep)
    requires Inv(s) && Enabled(s, ByWriter(t, step)) && Safe(s, ByWriter(t, step)) && Critical(s.writers[t])
    requires var s' := WriterApply(s, t, step); Ring(s') && t in s'.writers && WriterRoom(s', s'.writers[t])
    ensures var s' := WriterApply(s, t, step); forall u :: u in s'.writers ==> WriterRoom(s', s'.writers[u])
  {
    hide Mod, Inv, Ring, Locks, WriterApply;
    InvFacts(s);
    OthersAreOutside(s, t);
    LockAfter(s, t, step);
  }

  // Steps that do not touch the ring.
  lemma QuietWriterKeepsRing(s: State, t: Thread, step: WriterStep)
    requires Inv(s) && Enabled(s, ByWriter(t, step)) && Safe(s, ByWriter(t, step))
    requires !step.Check? && !step.Reload? && !step.Put? && !step.Publish?
    ensures var s' := WriterApply(s, t, step);
            Ring(s') && ReaderSees(s') && forall u :: u in s'.writers ==> WriterRoom(s', s'.writers[u])
  {
    hide Mod, Inv, Ring, Locks, NoLostWakeup;
    InvFacts(s);
    SameRingKeeps(s, WriterApply(s, t, step));
  }

  lemma CheckFindsRoom(s: State, t: Thread)
    requires Inv(s) && Enabled(s, ByWriter(t, Check)) && Safe(s, ByWriter(t, Check))
    ensures WriterRoom(s, WriterApply(s, t, Check).writers[t])
  {
    hide Mod, Inv, Locks, ReaderSees, NoLostWakeup;
    InvFacts(s);
    FullIff(|s.taken|, |s.accepted|, s.cap);
    if s.mode == Busy {
      FullIff(s.seen, |s.accepted|, s.cap);
    }
  }

  lemma CheckKeepsRing(s: State, t: Thread)
    requires Inv(s) && Enabled(s, ByWriter(t, Check)) && Safe(s, ByWriter(t, Check))
    ensures var s' := WriterApply(s, t, Check);
            Ring(s') && ReaderSees(s') && forall u :: u in s'.writers ==> WriterRoom(s', s'.writers[u])
  {
    hide Mod, Inv, Ring, Locks, ReaderSees, NoLostWakeup, WriterRoom;
    InvFacts(s);
    CheckFindsRoom(s, t);
    SameRingKeeps(s, WriterApply(s, t, Check));
    CriticalStepKeepsRoom(s, t, Check);
  }

  lemma CacheAfresh(s: State)
    requires Ring(s)
    ensures Ring(s.(cachedR := s.r, seen := |s.taken|))
  {
    hide Mod, Room;
  }

  lemma ReloadSeesRing(s: State, t: Thread)
    requires Ring(s) && ReaderSees(s) && s.mode == Busy
    requires Enabled(s, ByWriter(t, Reload)) && Safe(s, ByWriter(t, Reload))
    ensures var s' := WriterApply(s, t, Reload);
            Ring(s') && ReaderSees(s') && t in s'.writers && WriterRoom(s', s'.writers[t])
  {
    hide Mod, Room, ReaderSees;
    FullIff(|s.taken|, |s.accepted|, s.cap);
    CacheAfresh(s);
    SameRingKeeps(s.(cachedR := s.r, seen := |s.taken|), WriterApply(s, t, Reload));
    SameReader(s, WriterApply(s, t, Reload));
  }

  lemma SameReader(s: State, s': State)
    requires ReaderSees(s) && s'.rpc == s.rpc && s'.taken == s.taken && s'.accepted == s.accepted && s'.cap == s.cap
    ensures ReaderSees(s')
  {
  }

  lemma ReloadKeepsRing(s: State, t: Thread)
    requires Inv(s) && Enabled(s, ByWriter(t, Reload)) && Safe(s, ByWriter(t, Reload))
    ensures var s' := WriterApply(s, t, Reload);
            Ring(s') && ReaderSees(s') && forall u :: u in s'.writers ==> WriterRoom(s', s'.writers[u])
  {
    hide Mod, Inv, Ring, WriteLock, ReaderSees, NoLostWakeup, WriterRoom, WriterApply;
    InvFacts(s);
    ReloadSeesRing(s, t);
    CriticalStepKeepsRoom(s, t, Reload);
  }

  lemma PutFillsBlock(s: State, t: Thread)
    requires Ring(s) && ReaderSees(s) && Enabled(s, ByWriter(t, Put)) && Safe(s, ByWriter(t, Put))
    requires WriterRoom(s, s.writers[t])
    ensures var s' := WriterApply(s, t, Put);
            Ring(s') && ReaderSees(s') && t in s'.writers && WriterRoom(s', s'.writers[t])
  {
    hide Mod;
    var s' := WriterApply(s, t, Put);
    forall j | |s.taken| <= j < |s.accepted|
      ensures s'.blocks[Mod(j, s.cap)] == s.accepted[j]
    {
      SameSlot(|s.accepted|, j, s.cap);
    }
  }

  lemma PutKeepsRing(s: State, t: Thread)
    requires Inv(s) && Enabled(s, ByWriter(t, Put)) && Safe(s, ByWriter(t, Put))
    ensures var s' := WriterApply(s, t, Put);
            Ring(s') && ReaderSees(s') && forall u :: u in s'.writers ==> WriterRoom(s', s'.writers[u])
  {
    hide Mod, Inv, Ring, Locks, ReaderSees, NoLostWakeup, WriterRoom, WriterApply;
    InvFacts(s);
    PutFillsBlock(s, t);
    CriticalStepKeepsRoom(s, t, Put);
  }

  lemma PublishExtendsRing(s: State, t: Thread)
    requires Ring(s) && ReaderSees(s) && Enabled(s, ByWriter(t, Publish)) && Safe(s, ByWriter(t, Publish))
    requires WriterRoom(s, s.writers[t])
    ensures var s' := WriterApply(s, t, Publish);
            Ring(s') && ReaderSees(s') && t in s'.writers && WriterRoom(s', s'.writers[t])
  {
    hide Mod;
    NextSlot(|s.accepted|, s.cap);
    var s' := WriterApply(s, t, Publish);
    assert s'.accepted[..|s.accepted|] == s.accepted;
    assert s'.accepted[..|s.taken|] == s.accepted[..|s.taken|];
    assert Ring(s');
  }

  lemma PublishKeepsRing(s: State, t: Thread)
    requires Inv(s) && Enabled(s, ByWriter(t, Publish)) && Safe(s, ByWriter(t, Publish))
    ensures var s' := WriterApply(s, t, Publish);
            Ring(s') && ReaderSees(s') && forall u :: u in s'.writers ==> WriterRoom(s', s'.writers[u])
  {
    hide Mod, Inv, Ring, Locks, ReaderSees, NoLostWakeup, WriterRoom, WriterApply;
    InvFacts(s);
    PublishExtendsRing(s, t);
    CriticalStepKeepsRoom(s, t, Publish);
  }

  lemma WriterKeepsWakeup(s: State, t: Thread, step: WriterStep)
    requires Inv(s) && Enabled(s, ByWriter(t, step)) && Safe(s, ByWriter(t, step))
    ensures NoLostWakeup(WriterApply(s, t, step))
  {
    hide Mod;
    hide Ring;
    hide Locks;
    hide WriterRoom;
    var s' := WriterApply(s, t, step);
    if SomeoneOwesWake(s) {
      var u :| u in s.writers && OwesWake(s.writers[u]);
      if u != t || !step.Wake? {
        assert u in s'.writers && OwesWake(s'.writers[u]);
      }
    }
    if step.Publish? {
      assert OwesWake(s'.writers[t]);
    }
  }

  lemma WriterStepKeepsInv(s: State, t: Thread, step: WriterStep)
    requires Inv(s) && Enabled(s, ByWriter(t, step)) && Safe(s, ByWriter(t, step))
    ensures Inv(WriterApply(s, t, step))
  {
    hide Mod, Ring, Locks, ReaderSees, WriterRoom, NoLostWakeup, WriterApply;
    WriterKeepsLocks(s, t, step);
    WriterKeepsWakeup(s, t, step);
    match step {
      case Check => CheckKeepsRing(s, t);
      case Reload => ReloadKeepsRing(s, t);
      case Put => PutKeepsRing(s, t);
      case Publish => PublishKeepsRing(s, t);
      case _ => QuietWriterKeepsRing(s, t, step);
    }
  }

  // ---------------------------------------------------------------- reader steps

  lemma ReaderKeepsLocks(s: State, step: ReaderStep)
    requires Inv(s) && Enabled(s, ByReader(step)) && Safe(s, ByReader(step))
    ensures Locks(ReaderApply(s, step))
  {
    hide Mod;
    hide Ring;
    hide NoLostWakeup;
    hide ReaderSees;
    hide WriterRoom;
  }

  lemma AdvanceTakesOne(s: State)
    requires Ring(s) && ReaderSees(s) && Enabled(s, ByReader(Advance)) && Safe(s, ByReader(Advance))
    ensures var s' := ReaderApply(s, Advance); Ring(s') && ReaderSees(s')
  {
    hide Mod;
    EmptyIff(s);
    var s' := ReaderApply(s, Advance);
    assert s'.taken == s.accepted[..|s.taken| + 1];
    assert Ring(s');
  }

  lemma AdvanceKeepsRing(s: State)
    requires Inv(s) && Enabled(s, ByReader(Advance)) && Safe(s, ByReader(Advance))
    ensures var s' := ReaderApply(s, Advance);
            Ring(s') && ReaderSees(s') && forall u :: u in s'.writers ==> WriterRoom(s', s'.writers[u])
  {
    hide Mod, Inv, Ring, Locks, ReaderSees, NoLostWakeup;
    InvFacts(s);
    AdvanceTakesOne(s);
  }

  lemma BlockIsNext(s: State)
    requires Ring(s)
    ensures |s.taken| <= |s.accepted|
    ensures |s.taken| < |s.accepted| ==> s.blocks[Mod(s.r + 1, s.cap)] == s.accepted[|s.taken|]
  {
    hide Mod;
    EmptyIff(s);
  }

  lemma ReaderKeepsRing(s: State, step: ReaderStep)
    requires Inv(s) && Enabled(s, ByReader(step)) && Safe(s, ByReader(step))
    ensures var s' := ReaderApply(s, step);
            Ring(s') && ReaderSees(s') && forall u :: u in s'.writers ==> WriterRoom(s', s'.writers[u])
  {
    hide Mod, Inv, Ring, Locks, NoLostWakeup;
    if step.Advance? {
      AdvanceKeepsRing(s);
    } else {
      InvFacts(s);
      EmptyIff(s);
      SameRingKeeps(s, ReaderApply(s, step));
      BlockIsNext(s);
    }
  }

  /** The futex compares the word with the value the reader saw; equality means that nothing
      is unread, since less than a lap of writes fits without a read. */
  lemma ReaderKeepsWakeup(s: State, step: ReaderStep)
    requires Inv(s) && Enabled(s, ByReader(step)) && Safe(s, ByReader(step))
    ensures NoLostWakeup(ReaderApply(s, step))
  {
    hide Mod;
    EmptyIff(s);
    hide Locks;
    hide WriterRoom;
    hide Ring;
    var s' := ReaderApply(s, step);
    if SomeoneOwesWake(s) {
      var u :| u in s.writers && OwesWake(s.writers[u]);
      assert u in s'.writers && OwesWake(s'.writers[u]);
    }
  }

  // ---------------------------------------------------------------- whole runs

  lemma EveryStepIsSafe(s: State, step: Step)
    requires Inv(s)
    ensures Safe(s, step)
  {
    hide Mod;
    EmptyIff(s);
  }

  lemma StepKeepsInv(s: State, step: Step)
    requires Inv(s) && Enabled(s, step)
    ensures Safe(s, step) && Inv(Apply(s, step))
  {
    hide Mod;
    EveryStepIsSafe(s, step);
    match step {
      case ByWriter(t, ws) => WriterStepKeepsInv(s, t, ws);
      case ByReader(rs) =>
        ReaderKeepsLocks(s, rs);
        ReaderKeepsRing(s, rs);
        ReaderKeepsWakeup(s, rs);
        hide Ring;
        hide Locks;
        hide ReaderSees;
        hide WriterRoom;
        hide NoLostWakeup;
    }
  }

  /** A write is refused exactly when, at the comparison with the read cursor, Room(cap)
      messages are unread: capacity - 2 for every capacity of at least 2. */
  lemma RefusedOnlyWhenFull(s: State, t: Thread, step: WriterStep)
    requires Inv(s) && Enabled(s, ByWriter(t, step)) && Safe(s, ByWriter(t, step))
    requires step.Reload? || (step.Check? && s.mode != Busy)
    ensures var pc := WriterApply(s, t, step).writers[t];
            && (pc.WPut? || pc == WUnlock(false) || pc == WDropReadMutex(false))
            && (pc.WPut? <==> |s.accepted| - |s.taken| != Room(s.cap))
  {
    hide Mod;
    FullIff(|s.taken|, |s.accepted|, s.cap);
    hide Locks;
    hide NoLostWakeup;
    hide WriterRoom;
  }

  ghost predicate Run(states: seq<State>, steps: seq<Step>) {
    && |states| == |steps| + 1 && Init(states[0])
    && forall i {:trigger steps[i]} :: 0 <= i < |steps| ==>
         Enabled(states[i], steps[i]) && (Safe(states[i], steps[i]) ==> states[i + 1] == Apply(states[i], steps[i]))
  }

  lemma {:induction false} RunKeepsInv(states: seq<State>, steps: seq<Step>, i: nat)
    requires Run(states, steps) && i < |states|
    ensures Inv(states[i])
  {
    hide Mod;
    if i == 0 {
      var s := states[0];
      SmallRemainder(0, s.cap);
      SmallRemainder(s.cap - 1, s.cap);
      AddLap(-1, s.cap);
    } else {
      RunKeepsInv(states, steps, i - 1);
      hide Inv;
      StepKeepsInv(states[i - 1], steps[i - 1]);
    }
  }

  // The block j places after the one last read.
  ghost function Slot(s: State, j: nat): Msg
    requires 0 < s.cap == |s.blocks|
  {
    s.blocks[Mod(s.r + 1 + j, s.cap)]
  }

  // The messages in the slots strictly between read_cursor and write_cursor, in ring order.
  ghost function Slots(s: State): seq<Msg>
    requires 0 < s.cap == |s.blocks|
  {
    seq(Mod(s.w - s.r - 1, s.cap), j requires 0 <= j => Slot(s, j))
  }

  lemma SlotIs(s: State, j: nat)
    requires Ring(s) && |s.taken| + j < |s.accepted|
    ensures Slot(s, j) == s.accepted[|s.taken| + j]
  {
    hide Mod;
    AddInside(|s.taken| - 1, 1 + j, s.cap);
  }

  lemma SlotsAreUnread(s: State)
    requires Ring(s)
    ensures Slots(s) == s.accepted[|s.taken|..]
  {
    hide Mod;
    CursorDistance(|s.taken|, |s.accepted|, s.cap);
    forall j | 0 <= j < |s.accepted| - |s.taken|
      ensures Slot(s, j) == s.accepted[|s.taken| + j]
    {
      SlotIs(s, j);
    }
    hide Ring;
    hide Slot;
  }

  lemma CursorDistance(t: nat, a: nat, cap: nat)
    requires 1 <= cap && t <= a < t + cap
    ensures Mod(Mod(a, cap) - Mod(t - 1, cap) - 1, cap) == a - t
  {
    AddInside(a, -((t - 1) % cap) - 1, cap);
    var q, r := (t - 1) / cap, (t - 1) % cap;
    assert t - 1 == cap * q + r;
    assert a - r - 1 == cap * q + (a - t);
    UniqueRemainder(a - r - 1, cap, q, a - t);
  }

  /** In every state of every run, for any number of writers and in every mode: the messages
      read so far followed by the slots between the cursors are the accepted messages in
      publish order; a parked reader with unread messages has a wake coming; and channels of
      capacity 1 and 2 accept nothing. */
  lemma EveryRunIsFifo(states: seq<State>, steps: seq<Step>, i: nat)
    requires Run(states, steps) && i < |states|
    ensures var s := states[i];
            && 0 < s.cap == |s.blocks|
            && s.taken + Slots(s) == s.accepted
            && |Slots(s)| <= Room(s.cap)
            && (s.rpc.RParked? && Slots(s) != [] ==> SomeoneOwesWake(s))
            && (s.cap <= 2 ==> s.accepted == [])
            && (i < |steps| ==> Safe(s, steps[i]))
  {
    hide Mod;
    RunKeepsInv(states, steps, i);
    var s := states[i];
    SlotsAreUnread(s);
    if i < |steps| {
      EveryStepIsSafe(s, steps[i]);
    }
  }
}
