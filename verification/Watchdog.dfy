// The idle watchdog: Touch, Stop, Expire, Start and the run loop over one
// compare-and-swap state and one deadline.  Each load, store, swap and clock
// reading is a step of its own, and any number of calls interleave.
module Watchdog {
  import opened Seqs

  datatype Mode = Active | Stopped | Expired

  // ----- The object, one call at a time -----

  // Each call is a run of its steps in the model of all interleavings below,
  // with no other in between.
  class Watchdog {
    const timeout: int
    var mode: Mode
    var deadline: int
    var cancelled: bool   // the context of the run loop
    var fired: nat        // runs of onExpire
    var fireOnce: bool
    var startOnce: bool
    var running: bool     // a run loop was spawned

    // Only an expired watchdog has run its callback.
    ghost predicate Valid()
      reads this
    {
      && fired == (if mode == Expired then 1 else 0)
      && fireOnce == (fired > 0)
      && cancelled == (mode != Active)
    }

    // The words of the object are those of g.
    ghost predicate Is(g: Shared)
      reads this
    {
      && timeout == g.timeout && mode == g.mode && deadline == g.deadline && cancelled == g.cancelled
      && fireOnce == g.fireOnce && startOnce == g.startOnce && fired == g.fired
    }

    constructor (timeout: int)
      ensures Valid() && mode == Active && !startOnce && !running && this.timeout == timeout
    {
      this.timeout := timeout;
      mode, deadline, cancelled, fired, fireOnce, startOnce, running := Active, 0, false, 0, false, false, false;
    }

    method Start(now: int)
      requires Valid()
      modifies this`startOnce, this`deadline, this`running
      ensures Valid() && startOnce
      ensures old(startOnce) ==> deadline == old(deadline) && running == old(running)
      ensures !old(startOnce) ==> deadline == now + timeout && running
      ensures forall g: Shared :: old(Is(g)) && g.now == now ==>
                Is(Solo(g, StartOnce, 4).0) && Solo(g, StartOnce, 4).1 == if old(startOnce) then StartRet else RunLoad
    {
      hide Solo;
      forall g: Shared { SoloStart(g); }
      if !startOnce {
        startOnce := true;
        deadline := now + timeout;
        running := true;
      }
    }

    method Touch(now: int) returns (ok: bool)
      requires Valid()
      modifies this`deadline
      ensures Valid()
      ensures ok == (mode == Active)
      ensures deadline == if ok then now + timeout else old(deadline)
      ensures forall g: Shared :: old(Is(g)) && g.now == now ==>
                Is(Solo(g, TouchLoad, 3).0) && Solo(g, TouchLoad, 3).1 == TouchRet(ok)
    {
      hide Solo;
      forall g: Shared { SoloTouch(g); }
      if mode != Active {
        return false;
      }
      deadline := now + timeout;
      return true;
    }

    method CompareAndSwap(to: Mode) returns (ok: bool)
      modifies this`mode
      ensures ok == (old(mode) == Active)
      ensures mode == if ok then to else old(mode)
    {
      ok := mode == Active;
      if ok {
        mode := to;
      }
    }

    method Stop() returns (ok: bool)
      requires Valid()
      modifies this`mode, this`cancelled
      ensures Valid()
      ensures ok == (old(mode) == Active)
      ensures mode == if ok then Stopped else old(mode)
      ensures forall g: Shared :: old(Is(g)) ==>
                Is(Solo(g, StopSwap, 2).0) && Solo(g, StopSwap, 2).1 == StopRet(ok)
    {
      hide Solo;
      forall g: Shared { SoloStop(g); }
      ok := CompareAndSwap(Stopped);
      if !ok {
        return;
      }
      cancelled := true;
    }

    method Expire() returns (ok: bool)
      requires Valid()
      modifies this`mode, this`cancelled, this`fired, this`fireOnce
      ensures Valid()
      ensures ok == (old(mode) == Active)
      ensures mode == if ok then Expired else old(mode)
      ensures fired == old(fired) + (if ok then 1 else 0)
      ensures forall g: Shared :: old(Is(g)) ==>
                Is(Solo(g, ExpireSwap, 3).0) && Solo(g, ExpireSwap, 3).1 == ExpireRet(ok)
    {
      hide Solo;
      forall g: Shared { SoloExpire(g); }
      ok := CompareAndSwap(Expired);
      if !ok {
        return;
      }
      cancelled := true;
      if !fireOnce {
        fireOnce := true;
        fired := fired + 1;
      }
    }
  }

  // ----- All interleavings -----

  // The shared words, the clock, and what has happened to them so far.
  datatype Shared = Shared(
    timeout: int,
    mode: Mode,
    deadline: int,
    cancelled: bool,
    fireOnce: bool,
    startOnce: bool,
    now: int,
    fired: nat,     // runs of onExpire
    wins: nat,      // swaps that succeeded
    stores: nat,    // deadlines stored
    lastAt: int)    // the clock reading behind the last of them

  // One call in progress, or the run loop, by what it does next.
  datatype Thread =
    | TouchLoad | TouchClock | TouchStore(at: int) | TouchRet(ok: bool)
    | StopSwap | StopCancel | StopRet(ok: bool)
    | ExpireSwap | ExpireCancel | ExpireFire | ExpireRet(ok: bool)
    | StartOnce | StartClock | StartStore(at: int) | StartSpawn | StartRet
    | RunLoad
    | RunClock(due: int, seen: nat)   // deadline loaded when `seen` stores had happened
    | RunSwap(due: int, seen: nat)
    | RunCancel | RunFire | RunSleep(until: int) | RunExit

  datatype State = State(g: Shared, threads: seq<Thread>)

  datatype Step =
    | Tick(to: int)
    | Call(t: Thread)       // a new Touch, Stop, Expire or Start
    | Advance(i: nat)
    | Interrupt(i: nat)     // the sleeping run loop sees its context done

  predicate IsEntry(t: Thread) {
    t == TouchLoad || t == StopSwap || t == ExpireSwap || t == StartOnce
  }

  // The thread has a next step of its own.
  predicate CanAdvance(g: Shared, t: Thread) {
    match t
    case TouchRet(_) => false
    case StopRet(_) => false
    case ExpireRet(_) => false
    case StartRet => false
    case RunExit => false
    case RunSleep(until) => g.now >= until
    case _ => true
  }

  function Swap(g: Shared, to: Mode): Shared {
    if g.mode == Active then g.(mode := to, wins := g.wins + 1) else g
  }

  function Fire(g: Shared): Shared {
    if g.fireOnce then g else g.(fireOnce := true, fired := g.fired + 1)
  }

  function StoreDeadline(g: Shared, at: int): Shared {
    g.(deadline := at + g.timeout, stores := g.stores + 1, lastAt := at)
  }

  function NextShared(g: Shared, t: Thread): Shared {
    match t
    case TouchStore(at) => StoreDeadline(g, at)
    case StartStore(at) => StoreDeadline(g, at)
    case StopSwap => Swap(g, Stopped)
    case ExpireSwap => Swap(g, Expired)
    case RunSwap(_, _) => Swap(g, Expired)
    case StopCancel => g.(cancelled := true)
    case ExpireCancel => g.(cancelled := true)
    case RunCancel => g.(cancelled := true)
    case ExpireFire => Fire(g)
    case RunFire => Fire(g)
    case StartOnce => g.(startOnce := true)
    case _ => g
  }

  function NextThread(g: Shared, t: Thread): Thread {
    match t
    case TouchLoad => if g.mode == Active then TouchClock else TouchRet(false)
    case TouchClock => TouchStore(g.now)
    case TouchStore(_) => TouchRet(true)
    case StopSwap => if g.mode == Active then StopCancel else StopRet(false)
    case StopCancel => StopRet(true)
    case ExpireSwap => if g.mode == Active then ExpireCancel else ExpireRet(false)
    case ExpireCancel => ExpireFire
    case ExpireFire => ExpireRet(true)
    case StartOnce => if g.startOnce then StartRet else StartClock
    case StartClock => StartStore(g.now)
    case StartStore(_) => StartSpawn
    case StartSpawn => RunLoad         // the call returns; the loop it spawned goes on
    case RunLoad => RunClock(g.deadline, g.stores)
    case RunClock(due, seen) => if due - g.now <= 0 then RunSwap(due, seen) else RunSleep(due)
    case RunSwap(_, _) => if g.mode == Active then RunCancel else RunExit
    case RunCancel => RunFire
    case RunFire => RunExit
    case RunSleep(_) => RunLoad
    case _ => t
  }

  // n steps of one thread, undisturbed; a call that has returned stays as it is.
  function Solo(g: Shared, t: Thread, n: nat): (Shared, Thread)
    decreases n
  {
    if n == 0 then (g, t) else Solo(NextShared(g, t), NextThread(g, t), n - 1)
  }

  lemma SoloNone(g: Shared, t: Thread)
    ensures Solo(g, t, 0) == (g, t)
  {
  }

  lemma SoloStep(g: Shared, t: Thread, n: nat)
    requires n > 0
    ensures Solo(g, t, n) == Solo(NextShared(g, t), NextThread(g, t), n - 1)
  {
  }

  lemma {:induction false} SoloReturned(g: Shared, t: Thread, n: nat)
    requires t.TouchRet? || t.StopRet? || t.ExpireRet? || t.StartRet?
    ensures Solo(g, t, n) == (g, t)
  {
    if n > 0 {
      SoloReturned(g, t, n - 1);
    }
  }

  lemma SoloStart(g: Shared)
    ensures Solo(g, StartOnce, 4) ==
              if g.startOnce then (g, StartRet) else (StoreDeadline(g.(startOnce := true), g.now), RunLoad)
  {
    hide Solo, StoreDeadline;
    SoloStep(g, StartOnce, 4);
    if g.startOnce {
      assert g == g.(startOnce := true);
      SoloReturned(g, StartRet, 3);
    } else {
      var h := g.(startOnce := true);
      SoloStep(h, StartClock, 3);
      SoloStep(h, StartStore(h.now), 2);
      SoloStep(StoreDeadline(h, h.now), StartSpawn, 1);
      SoloNone(StoreDeadline(h, h.now), RunLoad);
    }
  }

  lemma SoloTouch(g: Shared)
    ensures Solo(g, TouchLoad, 3) ==
              if g.mode == Active then (StoreDeadline(g, g.now), TouchRet(true)) else (g, TouchRet(false))
  {
    hide Solo, StoreDeadline;
    SoloStep(g, TouchLoad, 3);
    if g.mode == Active {
      SoloStep(g, TouchClock, 2);
      SoloStep(g, TouchStore(g.now), 1);
      SoloNone(StoreDeadline(g, g.now), TouchRet(true));
    } else {
      SoloReturned(g, TouchRet(false), 2);
    }
  }

  lemma SoloStop(g: Shared)
    ensures Solo(g, StopSwap, 2) ==
              if g.mode == Active then (Swap(g, Stopped).(cancelled := true), StopRet(true)) else (g, StopRet(false))
  {
    hide Solo;
    SoloStep(g, StopSwap, 2);
    if g.mode == Active {
      SoloStep(Swap(g, Stopped), StopCancel, 1);
      SoloNone(Swap(g, Stopped).(cancelled := true), StopRet(true));
    } else {
      SoloReturned(g, StopRet(false), 1);
    }
  }

  lemma SoloExpire(g: Shared)
    ensures Solo(g, ExpireSwap, 3) ==
              if g.mode == Active then (Fire(Swap(g, Expired).(cancelled := true)), ExpireRet(true))
              else (g, ExpireRet(false))
  {
    hide Solo, Fire;
    SoloStep(g, ExpireSwap, 3);
    if g.mode == Active {
      var h := Swap(g, Expired).(cancelled := true);
      SoloStep(Swap(g, Expired), ExpireCancel, 2);
      SoloStep(h, ExpireFire, 1);
      SoloNone(Fire(h), ExpireRet(true));
    } else {
      SoloReturned(g, ExpireRet(false), 2);
    }
  }

  // The run loop undisturbed: with the deadline behind it, it expires an active
  // watchdog, runs the callback if nobody has, and ends; before the deadline it
  // sleeps until then, and it ends on a watchdog that is not active.
  lemma LoopAlone(g: Shared)
    ensures g.deadline > g.now ==> Solo(g, RunLoad, 2) == (g, RunSleep(g.deadline))
    ensures g.deadline <= g.now && g.mode == Active ==>
              && Solo(g, RunLoad, 5) == (Fire(Swap(g, Expired).(cancelled := true)), RunExit)
              && Solo(g, RunLoad, 5).0.mode == Expired && Solo(g, RunLoad, 5).0.fireOnce
    ensures g.deadline <= g.now && g.mode != Active ==> Solo(g, RunLoad, 3) == (g, RunExit)
  {
    hide Solo, Fire;
    var due, seen := g.deadline, g.stores;
    SoloStep(g, RunLoad, 2);
    SoloStep(g, RunLoad, 3);
    SoloStep(g, RunLoad, 5);
    if g.deadline > g.now {
      SoloStep(g, RunClock(due, seen), 1);
      SoloNone(g, RunSleep(due));
    } else if g.mode == Active {
      var h := Swap(g, Expired).(cancelled := true);
      SoloStep(g, RunClock(due, seen), 4);
      SoloStep(g, RunSwap(due, seen), 3);
      SoloStep(Swap(g, Expired), RunCancel, 2);
      SoloStep(h, RunFire, 1);
      SoloNone(Fire(h), RunExit);
      FireKeeps(h);
    } else {
      SoloStep(g, RunClock(due, seen), 2);
      SoloStep(g, RunSwap(due, seen), 1);
      SoloNone(g, RunExit);
    }
  }

  lemma FireKeeps(g: Shared)
    ensures Fire(g).mode == g.mode && Fire(g).fireOnce && Fire(g).fired == g.fired + (if g.fireOnce then 0 else 1)
  {
  }

  predicate Enabled(s: State, step: Step) {
    match step
    case Tick(to) => to >= s.g.now
    case Call(t) => IsEntry(t)
    case Advance(i) => i < |s.threads| && CanAdvance(s.g, s.threads[i])
    case Interrupt(i) => i < |s.threads| && s.threads[i].RunSleep? && s.g.cancelled
  }

  function Do(s: State, step: Step): State
    requires Enabled(s, step)
  {
    match step
    case Tick(to) => s.(g := s.g.(now := to))
    case Call(t) => s.(threads := s.threads + [t])
    case Advance(i) =>
      State(NextShared(s.g, s.threads[i]), s.threads[i := NextThread(s.g, s.threads[i])])
    case Interrupt(i) => s.(threads := s.threads[i := RunExit])
  }

  function Init(timeout: int, now: int): State {
    State(Shared(timeout, Active, 0, false, false, false, now, 0, 0, 0, now), [])
  }

  predicate IsRun(s: State, steps: seq<Step>)
    decreases |steps|
  {
    steps == [] || (Enabled(s, steps[0]) && IsRun(Do(s, steps[0]), steps[1..]))
  }

  function After(s: State, steps: seq<Step>): State
    requires IsRun(s, steps)
    decreases |steps|
  {
    if steps == [] then s else After(Do(s, steps[0]), steps[1..])
  }

  // ----- What one thread may rely on, and what every step guarantees -----

  // Won its swap to Expired and has not yet called fire.
  predicate BeforeFire(t: Thread) {
    t == ExpireCancel || t == ExpireFire || t == RunCancel || t == RunFire
  }

  // The run loop, or the one Start call that will spawn it.
  predicate IsLoop(t: Thread) {
    match t
    case StartClock => true case StartStore(_) => true case StartSpawn => true
    case RunLoad => true case RunClock(_, _) => true case RunSwap(_, _) => true
    case RunCancel => true case RunFire => true case RunSleep(_) => true case RunExit => true
    case _ => false
  }

  predicate ThreadOk(g: Shared, t: Thread) {
    match t
    case TouchStore(at) => at <= g.now
    case StartStore(at) => at <= g.now
    case StopCancel => g.mode == Stopped
    case StopRet(ok) => ok ==> g.mode == Stopped
    case ExpireCancel => g.mode == Expired
    case ExpireFire => g.mode == Expired
    case ExpireRet(ok) => ok ==> g.mode == Expired
    case RunCancel => g.mode == Expired
    case RunFire => g.mode == Expired
    case StartSpawn => g.stores > 0
    case RunLoad => g.stores > 0
    case RunSleep(_) => g.stores > 0
    case RunClock(due, seen) => 0 < seen <= g.stores && (seen == g.stores ==> due == g.deadline)
    case RunSwap(due, seen) => due <= g.now && 0 < seen <= g.stores && (seen == g.stores ==> due == g.deadline)
    case _ => true
  }

  // A terminal mode is final; clock and store count only grow.
  predicate Evolves(g: Shared, h: Shared) {
    && (g.mode != Active ==> h.mode == g.mode)
    && g.now <= h.now
    && g.stores <= h.stores
    && (g.stores == h.stores ==> h.deadline == g.deadline)
    && h.timeout == g.timeout
    && g.fired <= h.fired
  }

  lemma ThreadStable(g: Shared, h: Shared, t: Thread)
    requires ThreadOk(g, t) && Evolves(g, h)
    ensures ThreadOk(h, t)
  {
  }

  predicate SharedOk(g: Shared) {
    && g.wins == (if g.mode == Active then 0 else 1)
    && g.fireOnce == (g.fired > 0)
    && (g.stores > 0 ==> g.deadline == g.lastAt + g.timeout)
    && g.lastAt <= g.now
  }

  predicate Inv(s: State) {
    && SharedOk(s.g)
    && (forall i :: 0 <= i < |s.threads| ==> ThreadOk(s.g, s.threads[i]))
    && Count(s.threads, BeforeFire) + s.g.fired == (if s.g.mode == Expired then 1 else 0)
    && Count(s.threads, IsLoop) == (if s.g.startOnce then 1 else 0)
  }

  lemma AdvanceEvolves(g: Shared, t: Thread)
    requires SharedOk(g) && ThreadOk(g, t) && CanAdvance(g, t)
    requires BeforeFire(t) ==> g.fired == 0
    ensures SharedOk(NextShared(g, t)) && Evolves(g, NextShared(g, t))
  {
    hide NextThread;
  }

  lemma AdvanceFires(g: Shared, t: Thread)
    requires SharedOk(g) && ThreadOk(g, t) && CanAdvance(g, t)
    requires BeforeFire(t) ==> g.fired == 0
    ensures var h, u := NextShared(g, t), NextThread(g, t);
            (if BeforeFire(u) then 1 else 0) + h.fired - (if h.mode == Expired then 1 else 0) ==
            (if BeforeFire(t) then 1 else 0) + g.fired - (if g.mode == Expired then 1 else 0)
  {
    hide IsLoop;
  }

  lemma AdvanceLoops(g: Shared, t: Thread)
    requires CanAdvance(g, t)
    ensures var h, u := NextShared(g, t), NextThread(g, t);
            (if IsLoop(u) then 1 else 0) - (if h.startOnce then 1 else 0) ==
            (if IsLoop(t) then 1 else 0) - (if g.startOnce then 1 else 0)
  {
  }

  lemma AdvanceOk(g: Shared, t: Thread)
    requires SharedOk(g) && ThreadOk(g, t) && CanAdvance(g, t)
    requires BeforeFire(t) ==> g.fired == 0
    ensures ThreadOk(NextShared(g, t), NextThread(g, t))
  {
  }

  lemma AdvanceKeeps(s: State, i: nat)
    requires Inv(s) && Enabled(s, Advance(i))
    ensures Inv(Do(s, Advance(i))) && Evolves(s.g, Do(s, Advance(i)).g)
  {
    hide Count;
    var t, u, h := s.threads[i], NextThread(s.g, s.threads[i]), NextShared(s.g, s.threads[i]);
    if BeforeFire(t) {
      CountSome(s.threads, BeforeFire, i);
    }
    AdvanceOk(s.g, t);
    AdvanceEvolves(s.g, t);
    AdvanceFires(s.g, t);
    AdvanceLoops(s.g, t);
    CountUpdate(s.threads, i, u, BeforeFire);
    CountUpdate(s.threads, i, u, IsLoop);
    forall j | 0 <= j < |s.threads|
      ensures j != i ==> ThreadOk(h, s.threads[j])
    {
      ThreadStable(s.g, h, s.threads[j]);
    }
  }

  lemma TickKeeps(s: State, to: int)
    requires Inv(s) && to >= s.g.now
    ensures Inv(Do(s, Tick(to))) && Evolves(s.g, Do(s, Tick(to)).g)
  {
    var h := Do(s, Tick(to)).g;
    forall j | 0 <= j < |s.threads|
      ensures ThreadOk(h, s.threads[j])
    {
      ThreadStable(s.g, h, s.threads[j]);
    }
  }

  lemma CallKeeps(s: State, t: Thread)
    requires Inv(s) && IsEntry(t)
    ensures Inv(Do(s, Call(t)))
  {
    hide Count, SharedOk;
    var u := Do(s, Call(t));
    assert u.g == s.g && !BeforeFire(t) && !IsLoop(t) && ThreadOk(s.g, t);
    CountAppend(s.threads, t, BeforeFire);
    CountAppend(s.threads, t, IsLoop);
    forall j | 0 <= j < |u.threads|
      ensures ThreadOk(u.g, u.threads[j])
    {
      assert j < |s.threads| ==> u.threads[j] == s.threads[j];
    }
  }

  lemma InterruptKeeps(s: State, i: nat)
    requires Inv(s) && Enabled(s, Interrupt(i))
    ensures Inv(Do(s, Interrupt(i)))
  {
    hide Count, SharedOk;
    var t := Do(s, Interrupt(i));
    assert t.threads == s.threads[i := RunExit] && t.g == s.g;
    assert !BeforeFire(s.threads[i]) && IsLoop(s.threads[i]);
    CountUpdate(s.threads, i, RunExit, BeforeFire);
    CountUpdate(s.threads, i, RunExit, IsLoop);
    forall j | 0 <= j < |t.threads|
      ensures ThreadOk(t.g, t.threads[j])
    {
      assert j != i ==> t.threads[j] == s.threads[j];
    }
  }

  lemma StepKeeps(s: State, step: Step)
    requires Inv(s) && Enabled(s, step)
    ensures Inv(Do(s, step)) && Evolves(s.g, Do(s, step).g)
  {
    match step
    case Tick(to) => TickKeeps(s, to);
    case Call(t) => CallKeeps(s, t);
    case Advance(i) => AdvanceKeeps(s, i);
    case Interrupt(i) => InterruptKeeps(s, i);
  }

  lemma {:induction false} RunKeeps(s: State, steps: seq<Step>)
    requires Inv(s) && IsRun(s, steps)
    ensures Inv(After(s, steps)) && Evolves(s.g, After(s, steps).g)
    decreases |steps|
  {
    if steps != [] {
      StepKeeps(s, steps[0]);
      RunKeeps(Do(s, steps[0]), steps[1..]);
    }
  }

  // ----- Main results -----

  // Over every interleaving: at most one swap succeeds, the callback runs at
  // most once and only after the swap to Expired, at most one run loop exists,
  // and once the winner of that swap is through, the callback has run.
  lemma ExpiresAtMostOnce(timeout: int, now: int, steps: seq<Step>)
    requires IsRun(Init(timeout, now), steps)
    ensures var s := After(Init(timeout, now), steps);
            && s.g.wins <= 1
            && (s.g.wins == 0 <==> s.g.mode == Active)
            && s.g.fired <= 1
            && (s.g.fired == 1 ==> s.g.mode == Expired)
            && (s.g.mode == Expired && (forall i :: 0 <= i < |s.threads| ==> !BeforeFire(s.threads[i])) ==>
                  s.g.fired == 1)
            && Count(s.threads, IsLoop) <= 1
  {
    var s := After(Init(timeout, now), steps);
    RunKeeps(Init(timeout, now), steps);
    if forall i :: 0 <= i < |s.threads| ==> !BeforeFire(s.threads[i]) {
      CountNone(s.threads, BeforeFire);
    }
  }

  // Once a Stop has returned true, no continuation runs the callback or leaves
  // the stopped mode: not a later Start, Expire or Touch, nor the run loop.
  // Once an Expire has returned true, no continuation runs it again.
  lemma TerminalIsFinal(timeout: int, now: int, steps: seq<Step>, more: seq<Step>)
    requires IsRun(Init(timeout, now), steps) && IsRun(After(Init(timeout, now), steps), more)
    ensures var s := After(Init(timeout, now), steps);
            var t := After(s, more);
            && (StopRet(true) in s.threads ==> t.g.mode == Stopped && t.g.fired == 0)
            && (ExpireRet(true) in s.threads ==> t.g.mode == Expired && t.g.fired <= 1)
            && (s.g.mode != Active ==> t.g.mode == s.g.mode)
  {
    var s := After(Init(timeout, now), steps);
    RunKeeps(Init(timeout, now), steps);
    RunKeeps(s, more);
  }

  function Touched(): Thread -> bool {
    (t: Thread) => t == TouchRet(true)
  }

  // A Touch past its test of the mode
  predicate InsideTouch(t: Thread) {
    t.TouchClock? || t.TouchStore?
  }

  // In a terminal mode, with no Touch past its test of the mode.
  predicate NoTouchInside(s: State) {
    s.g.mode != Active && forall i :: 0 <= i < |s.threads| ==> !InsideTouch(s.threads[i])
  }

  lemma LateAdvance(g: Shared, t: Thread)
    requires g.mode != Active && !InsideTouch(t) && CanAdvance(g, t)
    ensures NextShared(g, t).mode == g.mode && !InsideTouch(NextThread(g, t))
    ensures NextThread(g, t) != TouchRet(true) && t != TouchRet(true)
  {
  }

  lemma LateStep(s: State, step: Step)
    requires NoTouchInside(s) && Enabled(s, step)
    ensures NoTouchInside(Do(s, step)) && Do(s, step).g.mode == s.g.mode
    ensures Count(Do(s, step).threads, Touched()) == Count(s.threads, Touched())
  {
    hide NextShared, NextThread, CanAdvance, Count;
    match step
    case Tick(_) =>
    case Call(t) => CountAppend(s.threads, t, Touched());
    case Advance(i) =>
      LateAdvance(s.g, s.threads[i]);
      LateUpdate(s, i, NextShared(s.g, s.threads[i]), NextThread(s.g, s.threads[i]));
    case Interrupt(i) => LateUpdate(s, i, s.g, RunExit);
  }

  lemma LateUpdate(s: State, i: nat, h: Shared, t: Thread)
    requires NoTouchInside(s) && i < |s.threads| && h.mode == s.g.mode
    requires !InsideTouch(t) && t != TouchRet(true) && s.threads[i] != TouchRet(true)
    ensures NoTouchInside(State(h, s.threads[i := t]))
    ensures Count(s.threads[i := t], Touched()) == Count(s.threads, Touched())
  {
    hide Count;
    CountUpdate(s.threads, i, t, Touched());
  }

  // From then on no Touch ever returns true: none revives the watchdog.
  lemma {:induction false} LateTouchFails(s: State, more: seq<Step>)
    requires NoTouchInside(s) && IsRun(s, more)
    ensures NoTouchInside(After(s, more)) && After(s, more).g.mode == s.g.mode
    ensures Count(After(s, more).threads, Touched()) == Count(s.threads, Touched())
    decreases |more|
  {
    hide NoTouchInside, Do;
    if more != [] {
      LateStep(s, more[0]);
      LateTouchFails(Do(s, more[0]), more[1..]);
    }
  }

  // The run loop never expires the watchdog early: when its swap succeeds and
  // no deadline was stored since the loop loaded it, `timeout` has passed since
  // the clock reading behind the last Touch or Start.  It expires before the
  // deadline exactly when one was stored since and has not yet come.
  lemma NoEarlyExpiry(timeout: int, now: int, steps: seq<Step>, i: nat)
    requires IsRun(Init(timeout, now), steps)
    requires var s := After(Init(timeout, now), steps);
             i < |s.threads| && s.threads[i].RunSwap? && s.g.mode == Active
    ensures var s := After(Init(timeout, now), steps);
            && Do(s, Advance(i)).g.mode == Expired
            && (s.threads[i].seen == s.g.stores ==> s.g.now >= s.g.lastAt + timeout)
            && (s.g.now < s.g.deadline <==> s.threads[i].seen < s.g.stores && s.g.now < s.g.lastAt + timeout)
  {
    var s := After(Init(timeout, now), steps);
    RunKeeps(Init(timeout, now), steps);
    assert ThreadOk(s.g, s.threads[i]);
  }

  // A Touch that stores between the loop's load and its swap returns true and
  // is lost.
  lemma TouchBetweenIsLost(s: State, i: nat, j: nat)
    requires Inv(s) && s.g.mode == Active && i < |s.threads| && j < |s.threads|
    requires s.threads[i].RunSwap? && s.threads[j].TouchStore? && s.threads[j].at + s.g.timeout > s.g.now
    ensures Enabled(s, Advance(j)) && Enabled(Do(s, Advance(j)), Advance(i))
    ensures var t := Do(Do(s, Advance(j)), Advance(i));
            t.threads[j] == TouchRet(true) && t.g.mode == Expired && t.g.now < t.g.deadline
  {
  }

  lemma {:induction false} Append(s: State, steps: seq<Step>, step: Step)
    requires IsRun(s, steps) && Enabled(After(s, steps), step)
    ensures IsRun(s, steps + [step]) && After(s, steps + [step]) == Do(After(s, steps), step)
    decreases |steps|
  {
    if steps == [] {
      assert steps + [step] == [step];
    } else {
      assert (steps + [step])[0] == steps[0] && (steps + [step])[1..] == steps[1..] + [step];
      Append(Do(s, steps[0]), steps[1..], step);
    }
  }

  // So the condition of NoEarlyExpiry is needed: for every positive timeout a
  // new watchdog has a run in which a Touch returned true and the watchdog
  // expired before the deadline that Touch stored.
  lemma TouchMayBeLost(timeout: int) returns (steps: seq<Step>)
    requires timeout > 0
    ensures IsRun(Init(timeout, 0), steps)
    ensures var s := After(Init(timeout, 0), steps);
            TouchRet(true) in s.threads && s.g.mode == Expired && s.g.now < s.g.deadline
  {
    var race := RaceRun(timeout);
    var s := After(Init(timeout, 0), race);
    RunKeeps(Init(timeout, 0), race);
    TouchBetweenIsLost(s, 0, 1);
    Append(Init(timeout, 0), race, Advance(1));
    Append(Init(timeout, 0), race + [Advance(1)], Advance(0));
    steps := race + [Advance(1)] + [Advance(0)];
    var t := After(Init(timeout, 0), steps);
    assert t.threads[1] == TouchRet(true);
  }

  lemma Prepend(s: State, step: Step, rest: seq<Step>)
    requires Enabled(s, step) && IsRun(Do(s, step), rest)
    ensures IsRun(s, [step] + rest) && After(s, [step] + rest) == After(Do(s, step), rest)
  {
    assert ([step] + rest)[1..] == rest;
  }

  // Such a run exists for every positive timeout: the loop loads the deadline,
  // the clock reaches it, and both the loop and a Touch read the clock before
  // either goes on.
  lemma RaceRun(timeout: int) returns (steps: seq<Step>)
    requires timeout > 0
    ensures IsRun(Init(timeout, 0), steps)
    ensures var s := After(Init(timeout, 0), steps);
            && s.threads == [RunSwap(timeout, 1), TouchStore(timeout)]
            && s.g.mode == Active && s.g.now == timeout == s.g.timeout
  {
    hide Do, Enabled;
    var g := Shared(timeout, Active, timeout, false, false, true, 0, 0, 0, 1, 0);
    steps := RaceOn(g);
    steps := TouchFirst(g, steps);
    steps := StartFirst(timeout, State(g, [RunLoad]), steps);
  }

  // The race itself
  lemma RaceOn(g: Shared) returns (steps: seq<Step>)
    requires g.deadline >= g.now && g.stores == 1
    ensures IsRun(State(g, [RunLoad, TouchClock]), steps)
    ensures var s := After(State(g, [RunLoad, TouchClock]), steps);
            s.threads == [RunSwap(g.deadline, 1), TouchStore(g.deadline)] && s.g == g.(now := g.deadline)
  {
    var s2, h := State(g, [RunLoad, TouchClock]), g.(now := g.deadline);
    var s3 := State(g, [RunClock(g.deadline, 1), TouchClock]);
    var s4 := State(h, [RunClock(g.deadline, 1), TouchClock]);
    var s5 := State(h, [RunSwap(g.deadline, 1), TouchClock]);
    assert Do(s2, Advance(0)) == s3 && Do(s3, Tick(g.deadline)) == s4 && Do(s4, Advance(0)) == s5;
    Prepend(s5, Advance(1), []);
    steps := [Advance(1)] + [];
    Prepend(s4, Advance(0), steps);
    steps := [Advance(0)] + steps;
    Prepend(s3, Tick(g.deadline), steps);
    steps := [Tick(g.deadline)] + steps;
    Prepend(s2, Advance(0), steps);
    steps := [Advance(0)] + steps;
  }

  // A Touch that finds the watchdog active, before the rest
  lemma TouchFirst(g: Shared, rest: seq<Step>) returns (steps: seq<Step>)
    requires g.mode == Active && IsRun(State(g, [RunLoad, TouchClock]), rest)
    ensures IsRun(State(g, [RunLoad]), steps)
    ensures After(State(g, [RunLoad]), steps) == After(State(g, [RunLoad, TouchClock]), rest)
  {
    var s0, s1, s2 := State(g, [RunLoad]), State(g, [RunLoad, TouchLoad]), State(g, [RunLoad, TouchClock]);
    assert Do(s0, Call(TouchLoad)) == s1 && Do(s1, Advance(1)) == s2;
    Prepend(s1, Advance(1), rest);
    steps := [Advance(1)] + rest;
    Prepend(s0, Call(TouchLoad), steps);
    steps := [Call(TouchLoad)] + steps;
  }

  // Any run from the started watchdog continues one from the new watchdog.
  lemma StartFirst(timeout: int, s0: State, rest: seq<Step>) returns (steps: seq<Step>)
    requires s0 == State(Shared(timeout, Active, timeout, false, false, true, 0, 0, 0, 1, 0), [RunLoad])
    requires IsRun(s0, rest)
    ensures IsRun(Init(timeout, 0), steps) && After(Init(timeout, 0), steps) == After(s0, rest)
  {
    var i := Init(timeout, 0);
    var s1 := Do(i, Call(StartOnce));
    var s2 := Do(s1, Advance(0));
    assert s2.threads == [StartClock];
    var s3 := Do(s2, Advance(0));
    assert s3.threads == [StartStore(0)];
    var s4 := Do(s3, Advance(0));
    assert s4.threads == [StartSpawn];
    assert Do(s4, Advance(0)) == s0;
    Prepend(s4, Advance(0), rest);
    steps := [Advance(0)] + rest;
    Prepend(s3, Advance(0), steps);
    steps := [Advance(0)] + steps;
    Prepend(s2, Advance(0), steps);
    steps := [Advance(0)] + steps;
    Prepend(s1, Advance(0), steps);
    steps := [Advance(0)] + steps;
    Prepend(i, Call(StartOnce), steps);
    steps := [Call(StartOnce)] + steps;
  }
}
