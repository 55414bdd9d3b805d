// The event pool: publishers hand jobs to a bounded channel, workers run them,
// and Shutdown closes two channels and waits for the workers.
module EventPool {
  import opened Seqs

  const DEFAULT_WORKERS: nat := 16
  const DEFAULT_BUFFER: nat := 64

  // One call of publish, and its job, by what happens to it next.  Jobs are
  // numbered by their publish call.
  datatype Publisher =
    | AtNil           // before the test for a missing pool
    | AtStopCheck     // before the first select
    | AtSend          // in the second select
    | Sent            // the channel has the job
    | Detached        // the job runs in a goroutine of its own
    | DetachedDone
    | Panicked        // sent on the closed channel: the job is lost

  datatype Worker = Idle | Running(job: nat) | Exited

  datatype State = State(
    started: bool,
    capacity: nat,
    stopClosed: bool,
    workClosed: bool,
    publishers: seq<Publisher>,
    buffer: seq<nat>,
    workers: seq<Worker>,
    sent: seq<nat>,     // jobs that entered the channel, in order
    taken: seq<nat>,    // jobs that workers received, in order
    done: seq<nat>)     // jobs that workers completed, in order

  function Init(): State {
    State(false, 0, false, false, [], [], [], [], [], [])
  }

  datatype Step =
    | StartPool(workers: int, bufSize: int)
    | Publish
    | CheckNil(i: nat) | CheckStop(i: nat) | Send(i: nat) | StopInstead(i: nat) | RunDetached(i: nat)
    | CloseStop | CloseWork
    | Receive(w: nat) | Finish(w: nat) | Exit(w: nat)

  predicate At(s: State, i: nat, p: Publisher) {
    i < |s.publishers| && s.publishers[i] == p
  }

  predicate WorkerAt(s: State, w: nat, x: Worker) {
    w < |s.workers| && s.workers[w] == x
  }

  predicate Enabled(s: State, step: Step) {
    match step
    case StartPool(_, _) => true
    case Publish => true
    case CheckNil(i) => At(s, i, AtNil)
    case CheckStop(i) => At(s, i, AtStopCheck)
    // A send on a closed channel does not block: it panics.
    case Send(i) => At(s, i, AtSend) && (s.workClosed || |s.buffer| < s.capacity)
    case StopInstead(i) => At(s, i, AtSend) && s.stopClosed
    case RunDetached(i) => At(s, i, Detached)
    case CloseStop => s.started && !s.stopClosed
    case CloseWork => s.stopClosed && !s.workClosed
    case Receive(w) => WorkerAt(s, w, Idle) && s.buffer != []
    case Finish(w) => w < |s.workers| && s.workers[w].Running?
    case Exit(w) => WorkerAt(s, w, Idle) && s.buffer == [] && s.workClosed
  }

  function Move(s: State, i: nat, p: Publisher): State
    requires i < |s.publishers|
  {
    s.(publishers := s.publishers[i := p])
  }

  function Do(s: State, step: Step): State
    requires Enabled(s, step)
  {
    match step
    case StartPool(workers, bufSize) =>
      if s.started then s
      else
        var n: nat := if workers < 1 then DEFAULT_WORKERS else workers;
        s.(started := true,
           capacity := if bufSize < 1 then DEFAULT_BUFFER else bufSize,
           workers := seq(n, _ => Idle))
    case Publish => s.(publishers := s.publishers + [AtNil])
    case CheckNil(i) => Move(s, i, if s.started then AtStopCheck else Detached)
    case CheckStop(i) => Move(s, i, if s.stopClosed then Detached else AtSend)
    case Send(i) =>
      if s.workClosed then Move(s, i, Panicked)
      else s.(publishers := s.publishers[i := Sent], buffer := s.buffer + [i], sent := s.sent + [i])
    case StopInstead(i) => Move(s, i, Detached)
    case RunDetached(i) => Move(s, i, DetachedDone)
    case CloseStop => s.(stopClosed := true)
    case CloseWork => s.(workClosed := true)
    case Receive(w) =>
      var j := s.buffer[0];
      s.(buffer := s.buffer[1..], workers := s.workers[w := Running(j)], taken := s.taken + [j])
    case Finish(w) => s.(workers := s.workers[w := Idle], done := s.done + [s.workers[w].job])
    case Exit(w) => s.(workers := s.workers[w := Exited])
  }

  predicate IsRun(s: State, steps: seq<Step>)
    decreases |steps|
  {
    steps == [] || (Enabled(s, steps[0]) && IsRun(Do(s, steps[0]), steps[1..]))
  }

  function After(s: State, steps: seq<Step>): State
    requires IsRun(s, steps)
    decreases |steps|
  {
    if steps == [] then s else After(Do(s, steps[0]), steps[1..])
  }

  // ----- Where a job is -----

  function IsJob(j: nat): nat -> bool {
    x => x == j
  }

  function Runs(j: nat): Worker -> bool {
    w => w == Running(j)
  }

  // In how many places job j is, counting publish, the detached goroutines,
  // the panic, the buffer, the workers and the completed jobs.
  function Places(s: State, j: nat): nat
    requires j < |s.publishers|
  {
    (if s.publishers[j] == Sent then 0 else 1)
    + Count(s.buffer, IsJob(j)) + Count(s.workers, Runs(j)) + Count(s.done, IsJob(j))
  }

  predicate JobOk(s: State, j: nat)
    requires j < |s.publishers|
  {
    && Places(s, j) == 1
    && Count(s.sent, IsJob(j)) == (if s.publishers[j] == Sent then 1 else 0)
  }

  // The publisher has passed the nil test on the side of the pool.
  predicate NeedsPool(p: Publisher) {
    p == AtStopCheck || p == AtSend || p == Sent || p == Panicked
  }

  predicate WorkerOk(s: State, x: Worker) {
    && (x.Running? ==> x.job < |s.publishers|)
    && (x == Exited ==> s.workClosed && s.buffer == [])
  }

  predicate Inv(s: State) {
    && s.sent == s.taken + s.buffer
    && (s.workClosed ==> s.stopClosed) && (s.stopClosed ==> s.started)
    && s.started == (|s.workers| > 0)
    && (forall i :: 0 <= i < |s.publishers| ==> JobOk(s, i))
    && (forall i :: 0 <= i < |s.publishers| && NeedsPool(s.publishers[i]) ==> s.started)
    && (forall i :: 0 <= i < |s.publishers| && s.publishers[i] == Panicked ==> s.workClosed)
    && (forall k :: 0 <= k < |s.sent| ==> s.sent[k] < |s.publishers|)
    && (forall k :: 0 <= k < |s.done| ==> s.done[k] < |s.publishers|)
    && (forall w :: 0 <= w < |s.workers| ==> WorkerOk(s, s.workers[w]))
  }

  lemma MoveKeeps(s: State, i: nat, p: Publisher)
    requires Inv(s) && i < |s.publishers| && s.publishers[i] != Sent && p != Sent
    requires NeedsPool(p) ==> s.started
    requires p == Panicked ==> s.workClosed
    ensures Inv(Move(s, i, p))
  {
    var t := Move(s, i, p);
    forall j | 0 <= j < |t.publishers|
      ensures JobOk(t, j)
    {
      assert JobOk(s, j);
    }
    forall w | 0 <= w < |t.workers|
      ensures WorkerOk(t, t.workers[w])
    {
      assert WorkerOk(s, s.workers[w]);
    }
  }

  lemma SendKeeps(s: State, i: nat)
    requires Inv(s) && Enabled(s, Send(i)) && !s.workClosed
    ensures Inv(Do(s, Send(i)))
  {
    var t := Do(s, Send(i));
    forall j | 0 <= j < |t.publishers|
      ensures JobOk(t, j)
    {
      assert JobOk(s, j);
      CountAppend(s.buffer, i, IsJob(j));
      CountAppend(s.sent, i, IsJob(j));
    }
    forall w | 0 <= w < |t.workers|
      ensures WorkerOk(t, t.workers[w])
    {
      assert WorkerOk(s, s.workers[w]);
    }
  }

  lemma {:induction false} CountTail(xs: seq<nat>, j: nat)
    requires xs != []
    ensures Count(xs, IsJob(j)) == Count(xs[1..], IsJob(j)) + (if xs[0] == j then 1 else 0)
  {
    var n := |xs| - 1;
    if n > 0 {
      CountTail(xs[..n], j);
      assert xs[1..][..n - 1] == xs[..n][1..];
    }
  }

  lemma ReceiveKeeps(s: State, w: nat)
    requires Inv(s) && Enabled(s, Receive(w))
    ensures Inv(Do(s, Receive(w)))
  {
    var t, j0 := Do(s, Receive(w)), s.buffer[0];
    assert t.taken + t.buffer == s.taken + s.buffer;
    assert s.sent[|s.taken|] == j0;
    forall j | 0 <= j < |t.publishers|
      ensures JobOk(t, j)
    {
      assert JobOk(s, j);
      CountTail(s.buffer, j);
      CountUpdate(s.workers, w, Running(j0), Runs(j));
    }
    forall v | 0 <= v < |t.workers|
      ensures WorkerOk(t, t.workers[v])
    {
      assert WorkerOk(s, s.workers[v]);
    }
  }

  lemma FinishKeeps(s: State, w: nat)
    requires Inv(s) && Enabled(s, Finish(w))
    ensures Inv(Do(s, Finish(w)))
  {
    var t, j0 := Do(s, Finish(w)), s.workers[w].job;
    assert WorkerOk(s, s.workers[w]);
    forall j | 0 <= j < |t.publishers|
      ensures JobOk(t, j)
    {
      assert JobOk(s, j);
      CountAppend(s.done, j0, IsJob(j));
      CountUpdate(s.workers, w, Idle, Runs(j));
    }
    forall v | 0 <= v < |t.workers|
      ensures WorkerOk(t, t.workers[v])
    {
      assert WorkerOk(s, s.workers[v]);
    }
  }

  lemma ExitKeeps(s: State, w: nat)
    requires Inv(s) && Enabled(s, Exit(w))
    ensures Inv(Do(s, Exit(w)))
  {
    var t := Do(s, Exit(w));
    forall j | 0 <= j < |t.publishers|
      ensures JobOk(t, j)
    {
      assert JobOk(s, j);
      CountUpdate(s.workers, w, Exited, Runs(j));
    }
    forall v | 0 <= v < |t.workers|
      ensures WorkerOk(t, t.workers[v])
    {
      assert WorkerOk(s, s.workers[v]);
    }
  }

  lemma PublishKeeps(s: State)
    requires Inv(s)
    ensures Inv(Do(s, Publish))
  {
    var t, n := Do(s, Publish), |s.publishers|;
    AbsentJob(s, n);
    forall j | 0 <= j < |t.publishers|
      ensures JobOk(t, j)
    {
      if j < n {
        assert JobOk(s, j);
      }
    }
    forall v | 0 <= v < |t.workers|
      ensures WorkerOk(t, t.workers[v])
    {
      assert WorkerOk(s, s.workers[v]);
    }
  }

  // A job not yet published is nowhere.
  lemma AbsentJob(s: State, n: nat)
    requires Inv(s) && n == |s.publishers|
    ensures Count(s.buffer, IsJob(n)) == Count(s.done, IsJob(n)) == Count(s.sent, IsJob(n)) == 0
    ensures Count(s.workers, Runs(n)) == 0
  {
    CountNone(s.sent, IsJob(n));
    forall k | 0 <= k < |s.buffer|
      ensures !IsJob(n)(s.buffer[k])
    {
      assert s.sent[|s.taken| + k] == s.buffer[k];
    }
    CountNone(s.buffer, IsJob(n));
    forall w | 0 <= w < |s.workers|
      ensures !Runs(n)(s.workers[w])
    {
      assert WorkerOk(s, s.workers[w]);
    }
    CountNone(s.workers, Runs(n));
    CountNone(s.done, IsJob(n));
  }

  lemma StartPoolKeeps(s: State, workers: int, bufSize: int)
    requires Inv(s)
    ensures Inv(Do(s, StartPool(workers, bufSize)))
  {
    var t := Do(s, StartPool(workers, bufSize));
    if !s.started {
      forall j | 0 <= j < |t.publishers|
        ensures JobOk(t, j)
      {
        assert JobOk(s, j);
        CountNone(s.workers, Runs(j));
        CountNone(t.workers, Runs(j));
      }
    }
  }

  lemma CloseKeeps(s: State, step: Step)
    requires Inv(s) && Enabled(s, step) && (step == CloseStop || step == CloseWork)
    ensures Inv(Do(s, step))
  {
    var t := Do(s, step);
    forall j | 0 <= j < |t.publishers|
      ensures JobOk(t, j)
    {
      assert JobOk(s, j);
    }
    forall v | 0 <= v < |t.workers|
      ensures WorkerOk(t, t.workers[v])
    {
      assert WorkerOk(s, s.workers[v]);
    }
  }

  lemma StepKeeps(s: State, step: Step)
    requires Inv(s) && Enabled(s, step)
    ensures Inv(Do(s, step))
  {
    match step
    case StartPool(workers, bufSize) => StartPoolKeeps(s, workers, bufSize);
    case Publish => PublishKeeps(s);
    case CheckNil(i) => MoveKeeps(s, i, if s.started then AtStopCheck else Detached);
    case CheckStop(i) => MoveKeeps(s, i, if s.stopClosed then Detached else AtSend);
    case Send(i) => if s.workClosed { MoveKeeps(s, i, Panicked); } else { SendKeeps(s, i); }
    case StopInstead(i) => MoveKeeps(s, i, Detached);
    case RunDetached(i) => MoveKeeps(s, i, DetachedDone);
    case CloseStop => CloseKeeps(s, step);
    case CloseWork => CloseKeeps(s, step);
    case Receive(w) => ReceiveKeeps(s, w);
    case Finish(w) => FinishKeeps(s, w);
    case Exit(w) => ExitKeeps(s, w);
  }

  lemma {:induction false} RunKeeps(s: State, steps: seq<Step>)
    requires Inv(s) && IsRun(s, steps)
    ensures Inv(After(s, steps))
    decreases |steps|
  {
    if steps != [] {
      StepKeeps(s, steps[0]);
      RunKeeps(Do(s, steps[0]), steps[1..]);
    }
  }

  // ----- Main results -----

  // In every reachable state every published job is in exactly one place, and
  // the jobs that entered the channel are received in the order they entered,
  // none of them twice.
  lemma Conservation(steps: seq<Step>)
    requires IsRun(Init(), steps)
    ensures var s := After(Init(), steps);
            && (forall j :: 0 <= j < |s.publishers| ==> Places(s, j) == 1)
            && s.sent == s.taken + s.buffer
            && (forall k, l :: 0 <= k < l < |s.sent| ==> s.sent[k] != s.sent[l])
            && (forall k :: 0 <= k < |s.sent| ==>
                  s.sent[k] < |s.publishers| && s.publishers[s.sent[k]] == Sent)
  {
    var s := After(Init(), steps);
    RunKeeps(Init(), steps);
    forall j | 0 <= j < |s.publishers|
      ensures Places(s, j) == 1
    {
      assert JobOk(s, j);
    }
    forall k, l | 0 <= k < l < |s.sent|
      ensures s.sent[k] != s.sent[l]
    {
      if s.sent[k] == s.sent[l] {
        assert JobOk(s, s.sent[k]);
        CountTwo(s.sent, IsJob(s.sent[k]), k, l);
      }
    }
    forall k | 0 <= k < |s.sent|
      ensures s.sent[k] < |s.publishers| && s.publishers[s.sent[k]] == Sent
    {
      assert JobOk(s, s.sent[k]);
      CountSome(s.sent, IsJob(s.sent[k]), k);
    }
  }

  // A job is run in a goroutine of its own only where there is no pool or the
  // pool has been stopped.
  lemma DetachedExactly(s: State, step: Step, i: nat)
    requires Enabled(s, step) && i < |s.publishers| && s.publishers[i] != Detached
    ensures i < |Do(s, step).publishers|
    ensures Do(s, step).publishers[i] == Detached <==>
            || (step == CheckNil(i) && !s.started)
            || (step == CheckStop(i) && s.stopClosed)
            || step == StopInstead(i)
    ensures step == StopInstead(i) ==> s.stopClosed
  {
  }

  // On the way to the channel, or in it
  predicate Channelled(p: Publisher) {
    p == AtNil || p == AtStopCheck || p == AtSend || p == Sent
  }

  // What is published to a started pool reaches the channel: as long as the
  // pool is not stopped the job stays on its way there, and at the second
  // select it can enter whenever there is room.
  lemma {:induction false} ReachesChannel(s: State, steps: seq<Step>, i: nat)
    requires Inv(s) && s.started && IsRun(s, steps) && !After(s, steps).stopClosed
    requires i < |s.publishers| && Channelled(s.publishers[i])
    ensures var t := After(s, steps);
            && i < |t.publishers| && Channelled(t.publishers[i])
            && (t.publishers[i] == AtSend && |t.buffer| < t.capacity ==>
                  Enabled(t, Send(i)) && Do(t, Send(i)).publishers[i] == Sent && Do(t, Send(i)).buffer == t.buffer + [i])
    decreases |steps|
  {
    if steps == [] {
      assert !s.workClosed;
    } else {
      var t := Do(s, steps[0]);
      StepKeeps(s, steps[0]);
      NotYetStopped(t, steps[1..]);
      ChannelledStep(s, steps[0], i);
      ReachesChannel(t, steps[1..], i);
    }
  }

  lemma ChannelledStep(s: State, step: Step, i: nat)
    requires Inv(s) && s.started && Enabled(s, step) && !Do(s, step).stopClosed
    requires i < |s.publishers| && Channelled(s.publishers[i])
    ensures Do(s, step).started
    ensures i < |Do(s, step).publishers| && Channelled(Do(s, step).publishers[i])
  {
  }

  lemma {:induction false} NotYetStopped(s: State, steps: seq<Step>)
    requires IsRun(s, steps) && !After(s, steps).stopClosed
    ensures !s.stopClosed
    decreases |steps|
  {
    if steps != [] {
      NotYetStopped(Do(s, steps[0]), steps[1..]);
    }
  }

  predicate Bounded(s: State) {
    if s.started then |s.buffer| <= s.capacity && s.capacity >= 1 else s.buffer == [] && s.capacity == 0
  }

  // The channel never holds more than its capacity, and a started pool has room
  // for at least one job.
  lemma {:induction false} BufferBounded(s: State, steps: seq<Step>)
    requires Bounded(s) && IsRun(s, steps)
    ensures Bounded(After(s, steps))
    decreases |steps|
  {
    if steps != [] {
      BoundedStep(s, steps[0]);
      BufferBounded(Do(s, steps[0]), steps[1..]);
    }
  }

  lemma BoundedStep(s: State, step: Step)
    requires Bounded(s) && Enabled(s, step)
    ensures Bounded(Do(s, step))
  {
  }

  // A pool is started once, with the numbers asked for or the defaults.
  lemma StartedOnce(workers: int, bufSize: int, steps: seq<Step>, again: int, size: int)
    requires IsRun(Init(), steps)
    ensures var s := After(Init(), steps);
            && var t := Do(s, StartPool(workers, bufSize));
            && t.started && Bounded(t)
            && (s.started ==> t == s)
            && (!s.started ==> t.capacity == (if bufSize >= 1 then bufSize else 64)
                               && |t.workers| == (if workers >= 1 then workers else 16)
                               && forall w :: 0 <= w < |t.workers| ==> t.workers[w] == Idle)
            && Do(t, StartPool(again, size)) == t
  {
    BufferBounded(Init(), steps);
  }

  // The wait of Shutdown is over: the pool exists and every worker has exited.
  predicate Drained(s: State) {
    s.started && forall w :: 0 <= w < |s.workers| ==> s.workers[w] == Exited
  }

  // Shutdown can return nil: there is no pool, or its wait is over.
  predicate ReturnsNil(s: State) {
    !s.started || Drained(s)
  }

  // When Shutdown returns nil, every job that ever entered the channel has
  // completed, once, and, unless there never was a pool, none can enter any
  // more.
  lemma ShutdownCompletes(steps: seq<Step>)
    requires IsRun(Init(), steps) && ReturnsNil(After(Init(), steps))
    ensures var s := After(Init(), steps);
            && (if s.started then s.workClosed else s.sent == []) && s.buffer == [] && s.taken == s.sent
            && (forall j :: 0 <= j < |s.publishers| ==>
                  Count(s.done, IsJob(j)) == if s.publishers[j] == Sent then 1 else 0)
  {
    var s := After(Init(), steps);
    RunKeeps(Init(), steps);
    if s.started {
      assert WorkerOk(s, s.workers[0]);
    } else {
      NoPoolNoJobs(s);
    }
    forall j | 0 <= j < |s.publishers|
      ensures Count(s.done, IsJob(j)) == if s.publishers[j] == Sent then 1 else 0
    {
      assert JobOk(s, j);
      CountNone(s.workers, Runs(j));
    }
  }

  lemma NoPoolNoJobs(s: State)
    requires Inv(s) && !s.started
    ensures s.sent == []
  {
    if s.sent != [] {
      var j := s.sent[0];
      assert JobOk(s, j) && s.publishers[j] != Sent;
      CountSome(s.sent, IsJob(j), 0);
    }
  }

  function WorkerWork(x: Worker): nat {
    match x
    case Running(_) => 2
    case Idle => 1
    case Exited => 0
  }

  function AllWork(ws: seq<Worker>): nat {
    if ws == [] then 0 else AllWork(ws[..|ws| - 1]) + WorkerWork(ws[|ws| - 1])
  }

  lemma {:induction false} AllWorkUpdate(ws: seq<Worker>, w: nat, x: Worker)
    requires w < |ws|
    ensures AllWork(ws[w := x]) == AllWork(ws) - WorkerWork(ws[w]) + WorkerWork(x)
  {
    var n := |ws| - 1;
    if w == n {
      assert ws[w := x][..n] == ws[..n];
    } else {
      assert ws[w := x][..n] == ws[..n][w := x];
      AllWorkUpdate(ws[..n], w, x);
    }
  }

  // What the workers still have to do, at most.
  function WorkLeft(s: State): nat {
    3 * |s.buffer| + AllWork(s.workers)
  }

  predicate IsWork(step: Step) {
    step.Receive? || step.Finish? || step.Exit?
  }

  // Once the work channel is closed each worker step lowers that, and nothing
  // raises it.
  lemma WorkLowers(s: State, step: Step)
    requires Inv(s) && s.workClosed && Enabled(s, step)
    ensures Do(s, step).workClosed
    ensures WorkLeft(Do(s, step)) <= WorkLeft(s) - (if IsWork(step) then 1 else 0)
  {
    hide AllWork;
    assert s.started;
    match step
    case Receive(w) => AllWorkUpdate(s.workers, w, Running(s.buffer[0]));
    case Finish(w) => AllWorkUpdate(s.workers, w, Idle);
    case Exit(w) => AllWorkUpdate(s.workers, w, Exited);
    case _ =>
  }

  function WorkIn(steps: seq<Step>): nat {
    if steps == [] then 0 else (if IsWork(steps[0]) then 1 else 0) + WorkIn(steps[1..])
  }

  // So the wait of Shutdown ends: after the close the workers take a bounded
  // number of steps, and there is one to take until all have exited.
  lemma {:induction false} ShutdownEnds(s: State, steps: seq<Step>)
    requires Inv(s) && s.workClosed && IsRun(s, steps)
    ensures WorkIn(steps) <= WorkLeft(s)
    ensures Drained(After(s, steps)) || exists step :: IsWork(step) && Enabled(After(s, steps), step)
    decreases |steps|
  {
    hide Do, WorkLeft;
    if steps == [] {
      assert s.started;
      if !Drained(s) {
        var step := CanWork(s);
      }
    } else {
      StepKeeps(s, steps[0]);
      WorkLowers(s, steps[0]);
      ShutdownEnds(Do(s, steps[0]), steps[1..]);
    }
  }

  lemma CanWork(s: State) returns (step: Step)
    requires s.started && s.workClosed && !Drained(s)
    ensures IsWork(step) && Enabled(s, step)
  {
    var w :| 0 <= w < |s.workers| && s.workers[w] != Exited;
    step := if s.workers[w].Running? then Finish(w) else if s.buffer != [] then Receive(w) else Exit(w);
  }

  // No publisher is at p.
  predicate NoneAt(s: State, p: Publisher) {
    forall i :: 0 <= i < |s.publishers| ==> s.publishers[i] != p
  }

  lemma {:induction false} NoSenderStays(s: State, more: seq<Step>)
    requires s.started && s.stopClosed && NoneAt(s, AtSend) && NoneAt(s, Panicked) && IsRun(s, more)
    ensures NoneAt(After(s, more), Panicked)
    decreases |more|
  {
    if more != [] {
      var t := Do(s, more[0]);
      assert NoneAt(t, AtSend) && NoneAt(t, Panicked);
      NoSenderStays(t, more[1..]);
    }
  }

  // No continuation of s loses a job.
  ghost predicate NeverPanics(s: State) {
    forall more :: IsRun(s, more) ==> NoneAt(After(s, more), Panicked)
  }

  lemma SenderPanics(s: State, i: nat)
    requires At(s, i, AtSend) && s.workClosed
    ensures !NeverPanics(s)
  {
    var u := Do(s, Send(i));
    var more := [Send(i)];
    assert more[1..] == [];
    assert IsRun(s, more) && After(s, more) == u;
    assert u.publishers[i] == Panicked;
  }

  // Closing the work channel loses no job, whatever follows, if and only if no
  // publisher stands between its two selects at that moment.
  lemma CloseIsSafeIffNoSender(steps: seq<Step>)
    requires IsRun(Init(), steps) && Enabled(After(Init(), steps), CloseWork)
    ensures var s := After(Init(), steps);
            NeverPanics(Do(s, CloseWork)) <==> NoneAt(s, AtSend)
  {
    var s := After(Init(), steps);
    var t := Do(s, CloseWork);
    RunKeeps(Init(), steps);
    assert t.publishers == s.publishers;
    if NoneAt(s, AtSend) {
      assert NoneAt(t, AtSend) && NoneAt(t, Panicked);
      forall more | IsRun(t, more)
        ensures NoneAt(After(t, more), Panicked)
      {
        NoSenderStays(t, more);
      }
    } else {
      var i :| 0 <= i < |s.publishers| && s.publishers[i] == AtSend;
      SenderPanics(t, i);
    }
  }
}
