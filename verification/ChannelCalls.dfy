/** The calls of the channel (muggle/c/sync/channel.c), from the first step to the last: what a
    caller passes to write is what is published, the answer of write is true, and a call that
    nobody disturbs does what is asked of it. */
module ChannelCalls {
  import opened Channel
  import opened PowerOfTwo

  // ---------------------------------------------------------------- what was passed, what was published

  // Where a writer stands that was called with m, and whether it has published since.
  predicate InCall(pc: WriterPc, m: Msg, published: bool) {
    match pc
    case WIdle => true
    case WWantLock(x) => x == m && !published
    case WWantReadMutex(x) => x == m && !published
    case WCheck(x) => x == m && !published
    case WReload(x) => x == m && !published
    case WPut(x) => x == m && !published
    case WPublish(x) => x == m && !published
    case WDropReadMutex(ok) => ok == published
    case WUnlock(ok) => ok == published
    case WWake => published
  }

  ghost predicate HasPublished(steps: seq<Step>, t: Thread, j: nat, i: nat) {
    exists x :: j < x < i <= |steps| && steps[x] == ByWriter(t, Publish)
  }

  // Call j of thread t is its last before i.
  ghost predicate LastCall(steps: seq<Step>, t: Thread, m: Msg, j: nat, i: nat) {
    && j < i <= |steps| && steps[j] == ByWriter(t, CallWrite(m))
    && forall x :: j < x < i ==> !(steps[x].ByWriter? && steps[x].t == t && steps[x].ws.CallWrite?)
  }

  lemma CallStarts(s: State, t: Thread, m: Msg)
    requires Enabled(s, ByWriter(t, CallWrite(m))) && Safe(s, ByWriter(t, CallWrite(m)))
    ensures var u := WriterApply(s, t, CallWrite(m)); t in u.writers && u.writers[t] == WWantLock(m)
  {
  }

  lemma OwnStepKeepsCall(s: State, t: Thread, ws: WriterStep, m: Msg, published: bool)
    requires Enabled(s, ByWriter(t, ws)) && Safe(s, ByWriter(t, ws))
    requires !ws.CallWrite? && InCall(s.writers[t], m, published)
    ensures var u := WriterApply(s, t, ws); t in u.writers && InCall(u.writers[t], m, published || ws.Publish?)
  {
    hide Mod;
  }

  lemma ReaderKeepsCalls(s: State, rs: ReaderStep)
    requires Enabled(s, ByReader(rs)) && Safe(s, ByReader(rs))
    ensures ReaderApply(s, rs).writers == s.writers
  {
    hide Mod;
  }

  lemma OtherStepKeepsCall(s: State, step: Step, t: Thread)
    requires Enabled(s, step) && Safe(s, step) && t in s.writers && !(step.ByWriter? && step.t == t)
    ensures var u := Apply(s, step); t in u.writers && u.writers[t] == s.writers[t]
  {
    hide Mod, WriterApply, ReaderApply;
    match step
    case ByWriter(v, ws) => LockAfter(s, v, ws);
    case ByReader(rs) => ReaderKeepsCalls(s, rs);
  }

  lemma OneStep(states: seq<State>, steps: seq<Step>, i: nat)
    requires Run(states, steps) && i < |steps|
    ensures i + 1 < |states| && Inv(states[i]) && Enabled(states[i], steps[i]) && Safe(states[i], steps[i])
    ensures states[i + 1] == Apply(states[i], steps[i])
  {
    hide Inv, Enabled, Safe, Apply;
    RunKeepsInv(states, steps, i);
    StepKeepsInv(states[i], steps[i]);
  }

  lemma {:induction false} CallGoesOn(states: seq<State>, steps: seq<Step>, t: Thread, m: Msg, j: nat, i: nat)
    requires Run(states, steps) && LastCall(steps, t, m, j, i)
    ensures i < |states| && t in states[i].writers && InCall(states[i].writers[t], m, HasPublished(steps, t, j, i))
    decreases i
  {
    hide Run, InCall, Inv, Safe, Enabled, WriterApply, ReaderApply;
    OneStep(states, steps, i - 1);
    var s, step := states[i - 1], steps[i - 1];
    if i == j + 1 {
      CallStarts(s, t, m);
      StartsUnpublished(m);
    } else {
      CallGoesOn(states, steps, t, m, j, i - 1);
      PublishedBy(steps, t, j, i);
      if step.ByWriter? && step.t == t {
        OwnStepKeepsCall(s, t, step.ws, m, HasPublished(steps, t, j, i - 1));
      } else {
        OtherStepKeepsCall(s, step, t);
      }
    }
  }

  lemma StartsUnpublished(m: Msg)
    ensures InCall(WWantLock(m), m, false)
  {
  }

  lemma PublishedBy(steps: seq<Step>, t: Thread, j: nat, i: nat)
    requires j + 1 < i <= |steps|
    ensures HasPublished(steps, t, j, i) <==> HasPublished(steps, t, j, i - 1) || steps[i - 1] == ByWriter(t, Publish)
  {
    if HasPublished(steps, t, j, i - 1) {
      var x :| j < x < i - 1 <= |steps| && steps[x] == ByWriter(t, Publish);
      assert j < x < i <= |steps| && steps[x] == ByWriter(t, Publish);
    }
  }

  /** In every run, what a writer publishes is what its caller passed. */
  lemma PassedIsAccepted(states: seq<State>, steps: seq<Step>, t: Thread, m: Msg, j: nat, i: nat)
    requires Run(states, steps) && LastCall(steps, t, m, j, i) && i < |steps| && steps[i] == ByWriter(t, Publish)
    ensures i + 1 < |states| && states[i + 1].accepted == states[i].accepted + [m] && !HasPublished(steps, t, j, i)
  {
    hide Run, Inv, Safe, LastCall, HasPublished, Mod;
    OneStep(states, steps, i);
    CallGoesOn(states, steps, t, m, j, i);
  }

  /** In every run, the answer that a writer comes back with says whether it has published since
      it was called, and only then does it go on to wake the reader. */
  lemma AnswerIsTrue(states: seq<State>, steps: seq<Step>, t: Thread, m: Msg, j: nat, i: nat)
    requires Run(states, steps) && LastCall(steps, t, m, j, i) && i < |steps| && steps[i] == ByWriter(t, Unlock)
    ensures i + 1 < |states| && t in states[i].writers && t in states[i + 1].writers
    ensures states[i].writers[t] == WUnlock(HasPublished(steps, t, j, i))
    ensures states[i + 1].writers[t] == if HasPublished(steps, t, j, i) then WWake else WIdle
  {
    hide Run, Inv, Safe, LastCall, HasPublished, Mod;
    OneStep(states, steps, i);
    CallGoesOn(states, steps, t, m, j, i);
  }

  // ---------------------------------------------------------------- calls without interference

  // From s to u by steps of the kind that who allows, and no others.
  ghost predicate Leads(s: State, u: State, who: Step -> bool) {
    exists states: seq<State>, steps: seq<Step> :: Path(states, steps, who) && states[0] == s && states[|steps|] == u
  }

  ghost predicate Path(states: seq<State>, steps: seq<Step>, who: Step -> bool) {
    && |states| == |steps| + 1
    && forall i {:trigger steps[i]} :: 0 <= i < |steps| ==>
         && who(steps[i]) && Enabled(states[i], steps[i])
         && Safe(states[i], steps[i]) && states[i + 1] == Apply(states[i], steps[i])
  }

  lemma LeadsItself(s: State, who: Step -> bool)
    ensures Leads(s, s, who)
  {
    var states, steps: seq<Step> := [s], [];
    assert Path(states, steps, who) && states[0] == s && states[|steps|] == s;
  }

  lemma LeadsOn(a: State, s: State, who: Step -> bool, step: Step) returns (u: State)
    requires Leads(a, s, who) && who(step) && Inv(s) && Enabled(s, step)
    ensures Safe(s, step) && u == Apply(s, step) && Leads(a, u, who) && Inv(u)
  {
    hide Inv, Enabled, Safe, Apply;
    StepKeepsInv(s, step);
    u := Apply(s, step);
    var states: seq<State>, steps: seq<Step> :| Path(states, steps, who) && states[0] == a && states[|steps|] == s;
    var states', steps' := states + [u], steps + [step];
    forall i | 0 <= i < |steps'|
      ensures && who(steps'[i]) && Enabled(states'[i], steps'[i])
              && Safe(states'[i], steps'[i]) && states'[i + 1] == Apply(states'[i], steps'[i])
    {
      if i < |steps| { assert steps'[i] == steps[i]; }
    }
    assert Path(states', steps', who) && states'[0] == a && states'[|steps'|] == u;
  }

  function OfReader(): Step -> bool { (step: Step) => step.ByReader? }

  function OfWriter(t: Thread): Step -> bool { (step: Step) => step.ByWriter? && step.t == t }

  lemma Reads(a: State, s: State, rs: ReaderStep) returns (u: State)
    requires Leads(a, s, OfReader()) && Inv(s) && Enabled(s, ByReader(rs))
    ensures Safe(s, ByReader(rs)) && u == ReaderApply(s, rs) && Leads(a, u, OfReader()) && Inv(u)
  {
    hide Leads, Inv, ReaderApply;
    u := LeadsOn(a, s, OfReader(), ByReader(rs));
  }

  lemma Writes(a: State, s: State, t: Thread, ws: WriterStep) returns (u: State)
    requires Leads(a, s, OfWriter(t)) && Inv(s) && Enabled(s, ByWriter(t, ws))
    ensures Safe(s, ByWriter(t, ws)) && u == WriterApply(s, t, ws) && Leads(a, u, OfWriter(t)) && Inv(u)
  {
    hide Leads, Inv, WriterApply;
    u := LeadsOn(a, s, OfWriter(t), ByWriter(t, ws));
  }

  /** The reader's comparison lets it on if and only if a message is unread. */
  lemma LoadFindsIff(s: State)
    requires Inv(s) && s.rpc.RLoad?
    ensures Safe(s, ByReader(Load)) && (ReaderApply(s, Load).rpc.RGet? <==> |s.taken| < |s.accepted|)
    ensures |s.taken| < |s.accepted| ==> ReaderApply(s, Load) == s.(rpc := RGet)
    ensures |s.taken| == |s.accepted| ==>
              ReaderApply(s, Load) == match s.mode
                                      case Sync => s.(rpc := RWait(s.w))
                                      case Mutex => s.(readMutex := Nobody, rpc := RParked)
                                      case Busy => s
  {
    hide Inv, Mod, Locks, NoLostWakeup, WriterRoom;
    InvFacts(s);
    EmptyIff(s);
    RingCounts(s);
    EveryStepIsSafe(s, ByReader(Load));
  }

  lemma RingCounts(s: State)
    requires Ring(s)
    ensures |s.taken| <= |s.accepted| <= |s.taken| + Room(s.cap) && 1 <= s.cap
    ensures s.w == Mod(|s.accepted|, s.cap) && s.r == Mod(|s.taken| - 1, s.cap)
  {
    hide Mod;
  }

  // What a read leaves behind: the oldest unread message is taken, the read mutex is free, and
  // nothing else has changed.
  ghost predicate Took(s: State, u: State) {
    && |s.taken| < |s.accepted|
    && u == s.(r := Mod(s.r + 1, s.cap), taken := s.taken + [s.accepted[|s.taken|]], rpc := RIdle,
               readMutex := if s.mode == Mutex then Nobody else s.readMutex)
  }

  // From the load on.
  lemma ReadOn(a: State, s: State) returns (u: State)
    requires Leads(a, s, OfReader()) && Inv(s) && |s.taken| < |s.accepted|
    requires s.rpc.RLoad? || s.rpc.RGet? || s.rpc.RAdvance?
    ensures Leads(a, u, OfReader()) && Inv(u) && Took(s, u)
  {
    hide Leads, Inv, Mod;
    u := s;
    if u.rpc.RLoad? {
      LoadFindsIff(u);
      u := Reads(a, u, Load);
    }
    if u.rpc.RGet? {
      u := Reads(a, u, Get);
    }
    TakesTheNext(u);
    u := Reads(a, u, Advance);
    if u.rpc.RDropMutex? {
      u := Reads(a, u, ReaderUnlock);
    }
  }

  lemma TakesTheNext(s: State)
    requires Inv(s) && s.rpc.RAdvance?
    ensures |s.taken| < |s.accepted| && s.rpc.m == s.accepted[|s.taken|]
  {
    hide Ring, Locks, NoLostWakeup, WriterRoom;
  }

  /** A reader that waits goes to sleep if and only if nothing has been published since it looked,
      and otherwise looks again. */
  lemma WaitSleepsIff(s: State)
    requires Inv(s) && s.rpc.RWait?
    ensures Safe(s, ByReader(Wait))
    ensures ReaderApply(s, Wait) == s.(rpc := if |s.taken| == |s.accepted| then RParked else RLoad)
  {
    hide Locks, NoLostWakeup, WriterRoom, Mod;
    EmptyIff(s);
    EveryStepIsSafe(s, ByReader(Wait));
  }

  /** A reader that is not asleep, with a message unread and no writer holding the read mutex,
      comes back with the oldest unread message after steps of its own only. */
  lemma ReadAlone(s: State) returns (u: State)
    requires Inv(s) && |s.taken| < |s.accepted| && !s.rpc.RParked? && !s.rpc.RDropMutex?
    requires s.mode == Mutex ==> s.readMutex == Nobody || s.readMutex == Reader
    requires s.rpc.RIdle? || s.rpc.RWantMutex? ==> s.mode != Mutex || s.readMutex == Nobody
    ensures Leads(s, u, OfReader()) && Inv(u) && Took(s, u)
  {
    hide Leads, Inv, Mod;
    LeadsItself(s, OfReader());
    u := s;
    if u.rpc.RIdle? {
      u := Reads(s, u, CallRead);
    }
    if u.rpc.RWantMutex? {
      WantsMutexInMutexMode(u);
      u := Reads(s, u, ReaderLock);
    }
    if u.rpc.RWait? {
      WaitSleepsIff(u);
      u := Reads(s, u, Wait);
    }
    u := ReadOn(s, u);
  }

  lemma WantsMutexInMutexMode(s: State)
    requires Inv(s)
    ensures s.rpc.RWantMutex? ==> s.mode == Mutex
  {
    hide Ring, WriteLock, NoLostWakeup, WriterRoom, ReaderSees;
  }

  // ---------------------------------------------------------------- a write

  // What a write without interference leaves behind.
  ghost predicate Wrote(s: State, u: State, t: Thread, m: Msg, ok: bool) {
    && u.accepted == (if ok then s.accepted + [m] else s.accepted) && u.taken == s.taken
    && u.cap == s.cap && u.mode == s.mode && u.lock == s.lock && u.readMutex == s.readMutex
    && u.writers == s.writers[t := WIdle]
    && u.rpc == (if ok && s.rpc.RParked? then (if s.mode == Mutex then RWantMutex else RLoad) else s.rpc)
  }

  lemma NoMoreRoom(s: State)
    requires Inv(s)
    ensures |s.accepted| <= |s.taken| + Room(s.cap)
    ensures Mod(s.w + 1, s.cap) == s.r <==> |s.accepted| == |s.taken| + Room(s.cap)
    ensures s.mode == Busy && |s.accepted| == |s.taken| + Room(s.cap) ==> Mod(s.w + 1, s.cap) == s.cachedR
  {
    hide Inv, Mod, Locks, NoLostWakeup, WriterRoom;
    InvFacts(s);
    FullIff(|s.taken|, |s.accepted|, s.cap);
    if s.mode == Busy {
      FullIff(s.seen, |s.accepted|, s.cap);
    }
  }

  /** In busy mode the comparison with the cached cursor sends the writer to load the read cursor
      if and only if the messages since that was loaded fill the ring. */
  lemma CachedCursorDecides(s: State, t: Thread, m: Msg)
    requires Inv(s) && s.mode == Busy && t in s.writers && s.writers[t] == WCheck(m)
    ensures Safe(s, ByWriter(t, Check)) && |s.accepted| <= s.seen + Room(s.cap)
    ensures WriterApply(s, t, Check) ==
            Goto(s, t, if |s.accepted| == s.seen + Room(s.cap) then WReload(m) else WPut(m))
  {
    hide Inv, Mod, Locks, NoLostWakeup, WriterRoom;
    InvFacts(s);
    EveryStepIsSafe(s, ByWriter(t, Check));
    FullIff(s.seen, |s.accepted|, s.cap);
  }

  // Through the locks to the comparison.
  lemma WriteToCheck(s: State, t: Thread, m: Msg) returns (u: State)
    requires Inv(s) && t in s.writers && s.writers[t] == WIdle && (s.single || s.lock == Nobody)
    requires s.mode == Mutex ==> s.readMutex == Nobody
    ensures Leads(s, u, OfWriter(t)) && Inv(u)
    ensures u == s.(lock := if s.single then s.lock else Writer(t),
                    readMutex := if s.mode == Mutex then Writer(t) else s.readMutex,
                    writers := s.writers[t := WCheck(m)])
  {
    hide Leads, Inv, Mod;
    LeadsItself(s, OfWriter(t));
    var s1 := Writes(s, s, t, CallWrite(m));
    u := Writes(s, s1, t, Lock);
    if s.mode == Mutex {
      u := Writes(s, u, t, LockReadMutex);
    }
    assert u.writers == s.writers[t := WCheck(m)];
  }

  // Whether there is room decides it, also behind a cursor loaded long ago.
  lemma CheckDecides(a: State, s: State, t: Thread, m: Msg) returns (u: State)
    requires Leads(a, s, OfWriter(t)) && Inv(s) && t in s.writers && s.writers[t] == WCheck(m)
    ensures Leads(a, u, OfWriter(t)) && Inv(u) && u == s.(writers := u.writers, cachedR := u.cachedR, seen := u.seen)
    ensures var pc := if |s.accepted| < |s.taken| + Room(s.cap) then WPut(m)
                      else if s.mode == Mutex then WDropReadMutex(false) else WUnlock(false);
            u.writers == s.writers[t := pc]
  {
    hide Leads, Inv, Mod;
    NoMoreRoom(s);
    u := Writes(a, s, t, Check);
    if u.writers[t].WReload? {
      u := Writes(a, u, t, Reload);
    }
  }

  // From the answer back to the caller.
  lemma WriteReturns(a: State, s: State, t: Thread, ok: bool) returns (u: State)
    requires Leads(a, s, OfWriter(t)) && Inv(s) && t in s.writers
    requires s.writers[t] == if s.mode == Mutex then WDropReadMutex(ok) else WUnlock(ok)
    ensures Leads(a, u, OfWriter(t)) && Inv(u)
    ensures u == s.(lock := if s.single then s.lock else Nobody,
                    readMutex := if s.mode == Mutex then Nobody else s.readMutex,
                    writers := s.writers[t := WIdle],
                    rpc := if ok && s.rpc.RParked? then (if s.mode == Mutex then RWantMutex else RLoad) else s.rpc)
  {
    hide Leads, Inv, Mod;
    u := s;
    if s.mode == Mutex {
      u := Writes(a, u, t, UnlockReadMutex);
    }
    u := Writes(a, u, t, Unlock);
    if ok {
      u := Writes(a, u, t, Wake);
    }
    assert u.writers == s.writers[t := WIdle];
  }

  lemma PutAndPublish(a: State, s: State, t: Thread, m: Msg) returns (u: State)
    requires Leads(a, s, OfWriter(t)) && Inv(s) && t in s.writers && s.writers[t] == WPut(m)
    ensures Leads(a, u, OfWriter(t)) && Inv(u)
    ensures u == s.(blocks := u.blocks, w := u.w, accepted := s.accepted + [m],
                    writers := s.writers[t := if s.mode == Mutex then WDropReadMutex(true) else WUnlock(true)])
  {
    hide Leads, Inv, Mod;
    var v := Writes(a, s, t, Put);
    u := Writes(a, v, t, Publish);
    assert u.writers == s.writers[t := if s.mode == Mutex then WDropReadMutex(true) else WUnlock(true)];
  }

  /** A write that finds the locks free succeeds if and only if there is room: then exactly its
      message is appended and a sleeping reader is awake afterwards; otherwise nothing changes. */
  lemma WriteAlone(s: State, t: Thread, m: Msg) returns (u: State, ok: bool)
    requires Inv(s) && t in s.writers && s.writers[t] == WIdle && (s.single || s.lock == Nobody)
    requires s.mode == Mutex ==> s.readMutex == Nobody
    ensures Leads(s, u, OfWriter(t)) && Inv(u) && Wrote(s, u, t, m, ok)
    ensures ok <==> |s.accepted| - |s.taken| < Room(s.cap)
  {
    hide Leads, Inv, Mod;
    var s1 := WriteToCheck(s, t, m);
    var s2 := CheckDecides(s, s1, t, m);
    ok := |s.accepted| - |s.taken| < Room(s.cap);
    if ok {
      s2 := PutAndPublish(s, s2, t, m);
    }
    u := WriteReturns(s, s2, t, ok);
    assert u.writers == s.writers[t := WIdle];
  }
}
