/** The futex lock (muggle/c/sync/synclock.c) as a transition system for any number of
    threads: one step for each compare-and-exchange, futex wait, store and futex wake.
    Sequential consistency is assumed. */
module SyncLock {
  datatype Pc =
    | Idle        // outside lock and unlock
    | Trying      // about to compare-and-exchange
    | AboutToWait // the exchange found LOCK; about to call muggle_sync_wait
    | Parked      // asleep in the futex
    | Holding     // muggle_synclock_lock has returned
    | OwesWake    // stored UNLOCK; about to call muggle_sync_wake_one

  type Thread = nat

  const UNLOCK := 0
  const LOCK := 1

  datatype State = State(word: int, pcs: map<Thread, Pc>)

  datatype Step =
    | CallLock(t: Thread)
    | Exchange(t: Thread)          // the weak compare-and-exchange, comparing truly
    | SpuriousFailure(t: Thread)   // it fails although the word is UNLOCK
    | Wait(t: Thread)              // the kernel compares the word with LOCK and parks or returns
    | SpuriousWake(t: Thread)
    | Store(t: Thread)             // unlock: word = UNLOCK
    | WakeNone(t: Thread)          // wake_one finds nobody parked
    | WakeOne(t: Thread, u: Thread)

  ghost predicate Init(s: State) {
    s.word == UNLOCK && forall t :: t in s.pcs ==> s.pcs[t] == Idle
  }

  predicate In(s: State, t: Thread, pc: Pc) {
    t in s.pcs && s.pcs[t] == pc
  }

  ghost predicate SomeIn(s: State, pc: Pc) {
    exists t :: In(s, t, pc)
  }

  ghost predicate Enabled(s: State, step: Step) {
    match step
    case CallLock(t) => In(s, t, Idle)
    case Exchange(t) => In(s, t, Trying)
    case SpuriousFailure(t) => In(s, t, Trying) && s.word == UNLOCK
    case Wait(t) => In(s, t, AboutToWait)
    case SpuriousWake(t) => In(s, t, Parked)
    case Store(t) => In(s, t, Holding)
    case WakeNone(t) => In(s, t, OwesWake) && !SomeIn(s, Parked)
    case WakeOne(t, u) => In(s, t, OwesWake) && In(s, u, Parked)
  }

  function Goto(s: State, t: Thread, pc: Pc): State {
    s.(pcs := s.pcs[t := pc])
  }

  function Apply(s: State, step: Step): State {
    match step
    case CallLock(t) => Goto(s, t, Trying)
    case Exchange(t) =>
      if s.word == UNLOCK then Goto(s.(word := LOCK), t, Holding) else Goto(s, t, AboutToWait)
    case SpuriousFailure(t) => s
    case Wait(t) => if s.word == LOCK then Goto(s, t, Parked) else Goto(s, t, Trying)
    case SpuriousWake(t) => Goto(s, t, Trying)
    case Store(t) => Goto(s.(word := UNLOCK), t, OwesWake)
    case WakeNone(t) => Goto(s, t, Idle)
    case WakeOne(t, u) => Goto(Goto(s, t, Idle), u, Trying)
  }

  ghost predicate Mutex(s: State) {
    forall t, u :: In(s, t, Holding) && In(s, u, Holding) ==> t == u
  }

  // Somebody will look at the free word again.
  ghost predicate WakerComing(s: State) {
    SomeIn(s, OwesWake) || SomeIn(s, Trying) || SomeIn(s, AboutToWait)
  }

  ghost predicate Inv(s: State) {
    && (s.word == UNLOCK || s.word == LOCK)
    && Mutex(s) && (s.word == LOCK <==> SomeIn(s, Holding))
    && (s.word == UNLOCK && SomeIn(s, Parked) ==> WakerComing(s))
  }

  lemma StepKeepsMutex(s: State, step: Step)
    requires Inv(s) && Enabled(s, step)
    ensures var s' := Apply(s, step);
            && (s'.word == UNLOCK || s'.word == LOCK) && Mutex(s')
            && (s'.word == LOCK <==> SomeIn(s', Holding))
  {
    var s' := Apply(s, step);
    if step.Exchange? && s.word == UNLOCK {
      assert In(s', step.t, Holding);
    }
    forall u | In(s', u, Holding)
      ensures || (In(s, u, Holding) && !(step.Store? && u == step.t))
              || (step.Exchange? && s.word == UNLOCK && u == step.t)
    {
    }
    if SomeIn(s, Holding) {
      var h :| In(s, h, Holding);
      if !step.Store? {
        assert In(s', h, Holding);
      }
    }
  }

  /** No wake-up is lost: when the word is free and threads are parked, an unlocker still
      owes a wake or an awake thread is about to retry; a wake goes to a parked thread,
      which then retries itself. */
  lemma StepKeepsWaker(s: State, step: Step)
    requires Inv(s) && Enabled(s, step)
    ensures var s' := Apply(s, step); s'.word == UNLOCK && SomeIn(s', Parked) ==> WakerComing(s')
  {
    var s' := Apply(s, step);
    match step
    case CallLock(t) => assert In(s', t, Trying);
    case Exchange(t) =>
    case SpuriousFailure(t) => assert In(s', t, Trying);
    case Wait(t) =>
      if s.word == UNLOCK { assert In(s', t, Trying); }
    case SpuriousWake(t) => assert In(s', t, Trying);
    case Store(t) => assert In(s', t, OwesWake);
    case WakeNone(t) =>
      if SomeIn(s', Parked) {
        var u :| In(s', u, Parked);
        assert In(s, u, Parked);
      }
    case WakeOne(t, u) => assert In(s', u, Trying);
  }

  ghost predicate Run(states: seq<State>, steps: seq<Step>) {
    && |states| == |steps| + 1 && Init(states[0])
    && forall i {:trigger steps[i]} :: 0 <= i < |steps| ==>
         Enabled(states[i], steps[i]) && states[i + 1] == Apply(states[i], steps[i])
  }

  /** Every state of every run, for any number of threads: at most one holder, the word is
      LOCK exactly while there is one, and parked threads are never left behind. */
  lemma {:induction false} EveryRunIsSafe(states: seq<State>, steps: seq<Step>, i: nat)
    requires Run(states, steps) && i < |states|
    ensures Inv(states[i])
  {
    if i == 0 {
    } else {
      EveryRunIsSafe(states, steps, i - 1);
      StepKeepsMutex(states[i - 1], steps[i - 1]);
      StepKeepsWaker(states[i - 1], steps[i - 1]);
    }
  }

  // Threads that want the lock.
  ghost predicate Contending(s: State) {
    SomeIn(s, Trying) || SomeIn(s, AboutToWait) || SomeIn(s, Parked)
  }

  /** No deadlock: whenever the word is free and some thread wants the lock, a step that is
      not spurious is enabled, and it takes the lock, or the word stays free and a thread is
      about to take it. */
  lemma FreeLockIsTaken(s: State) returns (step: Step, t: Thread)
    requires Inv(s) && s.word == UNLOCK && Contending(s)
    ensures Enabled(s, step) && !step.SpuriousFailure? && !step.SpuriousWake?
    ensures t in s.pcs && s.pcs[t] in {Trying, AboutToWait, OwesWake}
    ensures var s' := Apply(s, step);
            if s.pcs[t] == Trying then In(s', t, Holding)
            else s'.word == UNLOCK && SomeIn(s', Trying)
  {
    if SomeIn(s, Trying) {
      t :| In(s, t, Trying);
      step := Exchange(t);
    } else if SomeIn(s, AboutToWait) {
      t :| In(s, t, AboutToWait);
      step := Wait(t);
      assert In(Apply(s, step), t, Trying);
    } else {
      t :| In(s, t, OwesWake);
      var u :| In(s, u, Parked);
      step := WakeOne(t, u);
      assert In(Apply(s, step), u, Trying);
    }
  }

  /** A call of lock that nobody disturbs takes a free lock in two steps, and goes to sleep in
      three if the lock is held. */
  lemma LockAlone(s: State, t: Thread)
    requires Inv(s) && In(s, t, Idle)
    ensures Enabled(s, CallLock(t)) && Enabled(Apply(s, CallLock(t)), Exchange(t))
    ensures var u := Apply(Apply(s, CallLock(t)), Exchange(t));
            if s.word == UNLOCK then u == State(LOCK, s.pcs[t := Holding])
            else Enabled(u, Wait(t)) && Apply(u, Wait(t)) == s.(pcs := s.pcs[t := Parked])
  {
    var u := Apply(Apply(s, CallLock(t)), Exchange(t));
    assert s.word == UNLOCK ==> u.pcs == s.pcs[t := Holding];
    assert s.word != UNLOCK ==> Apply(u, Wait(t)).pcs == s.pcs[t := Parked];
  }

  /** A call of unlock that nobody disturbs frees the lock and sends one sleeping thread, if there
      is any, to try again. */
  lemma UnlockAlone(s: State, t: Thread) returns (step: Step)
    requires Inv(s) && In(s, t, Holding)
    ensures Enabled(s, Store(t)) && Enabled(Apply(s, Store(t)), step)
    ensures var v := Apply(Apply(s, Store(t)), step);
            && v.word == UNLOCK
            && if SomeIn(s, Parked) then
                 step.WakeOne? && In(s, step.u, Parked) && v.pcs == s.pcs[t := Idle][step.u := Trying]
               else v.pcs == s.pcs[t := Idle]
  {
    var u := Apply(s, Store(t));
    if SomeIn(s, Parked) {
      var w :| In(s, w, Parked);
      step := WakeOne(t, w);
      assert In(u, w, Parked) && Apply(u, step).pcs == s.pcs[t := Idle][w := Trying];
    } else {
      step := WakeNone(t);
      if SomeIn(u, Parked) {
        var w :| In(u, w, Parked);
        assert In(s, w, Parked);
      }
      assert Apply(u, step).pcs == s.pcs[t := Idle];
    }
  }
}
