// When the server empties: which states of `Slots` can be run on until every
// request is over and every DELETE has finished.  Requests still on their way
// in give up or are dropped, sessions are deleted or their cleanups run.
module Draining {
  import opened Gauges
  import opened Seqs
  import opened Slots

  // Every request is over and every DELETE has run to its end.
  predicate Drained(s: State) {
    (forall i :: 0 <= i < |s.requests| ==> Over(s.requests[i])) && Settled(s)
  }

  // Some DELETE has found the session of request i.
  predicate Sought(s: State, i: nat) {
    exists d :: 0 <= d < |s.deletes| && s.deletes[d].target == i
  }

  // A WebDriver session that still holds its slot: only a DELETE can release it.
  predicate Unreleased(r: Request) {
    r.protocol == WebDriver && IsPut(r.phase) && r.permitsBack == 0
  }

  // Nothing can release its slot any more: no DELETE has found it, and it is
  // not in the map for one to find.
  predicate Lost(s: State, i: nat) {
    && i < |s.requests| && Unreleased(s.requests[i]) && !Sought(s, i)
    && forall k :: k in s.sessions ==> s.sessions[k] != i
  }

  predicate NoneLost(s: State) {
    forall i :: 0 <= i < |s.requests| ==> !Lost(s, i)
  }

  // ----- Every quiet step is progress -----

  // A step that brings in neither a request, a session nor a DELETE.
  predicate Quiet(step: Step) {
    !step.Arrive? && !step.Put? && !step.DeleteFind?
  }

  function PhaseRank(p: Phase): nat {
    match p
    case AtTry => 12 case TryProbe => 11 case AtCheck => 10 case CheckProbe => 9 case AtProtect => 8
    case Waiting => 7 case Granted => 6 case Abandoned => 1 case Admitted => 5 case Serving => 4
    case Dropping => 1 case Registered => 2 case Creating => 1 case Live => 0 case Finished => 0
  }

  function StageRank(g: Stage): nat {
    match g
    case Idle => 5 case Found => 4 case Unlisted => 3 case Uncounted => 2 case Returned => 1 case Cancelled => 0
  }

  function RequestRank(r: Request): nat {
    PhaseRank(r.phase) + StageRank(r.cleanup)
  }

  function DeleteRank(d: Delete): nat {
    StageRank(d.at)
  }

  function Sum<T>(xs: seq<T>, f: T -> nat): nat {
    if xs == [] then 0 else Sum(xs[..|xs| - 1], f) + f(xs[|xs| - 1])
  }

  lemma {:induction false} SumUpdate<T>(xs: seq<T>, i: nat, x: T, f: T -> nat)
    requires i < |xs|
    ensures Sum(xs[i := x], f) == Sum(xs, f) - f(xs[i]) + f(x)
  {
    var n := |xs| - 1;
    if i == n {
      assert xs[i := x][..n] == xs[..n];
    } else {
      assert xs[i := x][..n] == xs[..n][i := x];
      SumUpdate(xs[..n], i, x, f);
    }
  }

  // The steps everybody still has to take, at most.
  function Remaining(s: State): nat {
    Sum(s.requests, RequestRank) + Sum(s.deletes, DeleteRank)
  }

  lemma RequestProgress(s: State, t: State, i: nat)
    requires i < |s.requests| && |t.requests| == |s.requests| && t.deletes == s.deletes
    requires t.requests == s.requests[i := t.requests[i]]
    requires RequestRank(t.requests[i]) < RequestRank(s.requests[i])
    ensures Remaining(t) < Remaining(s)
  {
    hide RequestRank, DeleteRank, Sum;
    SumUpdate(s.requests, i, t.requests[i], RequestRank);
  }

  lemma DeleteProgress(s: State, t: State, d: nat, i: nat)
    requires d < |s.deletes| && |t.deletes| == |s.deletes| && i < |s.requests| && |t.requests| == |s.requests|
    requires t.deletes == s.deletes[d := t.deletes[d]] && DeleteRank(t.deletes[d]) < DeleteRank(s.deletes[d])
    requires t.requests == s.requests[i := t.requests[i]]
    requires RequestRank(t.requests[i]) == RequestRank(s.requests[i])
    ensures Remaining(t) < Remaining(s)
  {
    hide RequestRank, DeleteRank, Sum;
    SumUpdate(s.requests, i, t.requests[i], RequestRank);
    SumUpdate(s.deletes, d, t.deletes[d], DeleteRank);
  }

  lemma MoveLowers(cfg: Config, s: State, step: Step)
    requires Enabled(cfg, s, step) && IsMove(step)
    ensures Remaining(Do(cfg, s, step)) < Remaining(s)
  {
    hide Remaining;
    RequestProgress(s, Do(cfg, s, step), Mover(step));
  }

  lemma CleanupLowers(cfg: Config, s: State, step: Step)
    requires Enabled(cfg, s, step)
    requires step.CleanupBegin? || step.CleanupRemove? || step.CleanupUsed? || step.CleanupPermit?
    ensures Remaining(Do(cfg, s, step)) < Remaining(s)
  {
    hide Remaining;
    RequestProgress(s, Do(cfg, s, step), step.i);
  }

  lemma DeleteLowers(cfg: Config, s: State, step: Step)
    requires Enabled(cfg, s, step)
    requires step.DeleteRemove? || step.DeleteUsed? || step.DeletePermit? || step.DeleteCancel?
    ensures Remaining(Do(cfg, s, step)) < Remaining(s)
  {
    hide Remaining;
    DeleteProgress(s, Do(cfg, s, step), step.d, s.deletes[step.d].target);
  }

  lemma QuietLowers(cfg: Config, s: State, step: Step)
    requires Enabled(cfg, s, step) && Quiet(step)
    ensures Remaining(Do(cfg, s, step)) < Remaining(s)
  {
    hide Remaining, Enabled, Do;
    if IsMove(step) {
      MoveLowers(cfg, s, step);
    } else if step.CleanupBegin? || step.CleanupRemove? || step.CleanupUsed? || step.CleanupPermit? {
      CleanupLowers(cfg, s, step);
    } else {
      DeleteLowers(cfg, s, step);
    }
  }

  // ----- A state that drains by itself -----

  predicate SoughtFrom(s: State, n: nat) {
    forall i: nat :: n <= i < |s.requests| && Unreleased(s.requests[i]) ==> Sought(s, i)
  }

  // Each of them has been found by one.
  predicate AllSought(s: State) {
    SoughtFrom(s, 0)
  }

  // What a quiet step leaves of requests and DELETEs.
  predicate Continues(s: State, t: State) {
    && |t.requests| == |s.requests| && |t.deletes| == |s.deletes|
    && (forall i :: 0 <= i < |s.requests| ==>
          && t.requests[i].protocol == s.requests[i].protocol
          && IsPut(t.requests[i].phase) == IsPut(s.requests[i].phase)
          && t.requests[i].permitsBack >= s.requests[i].permitsBack)
    && (forall d :: 0 <= d < |s.deletes| ==> t.deletes[d].target == s.deletes[d].target)
  }

  lemma QuietContinues(cfg: Config, s: State, step: Step)
    requires Enabled(cfg, s, step) && Quiet(step)
    ensures Continues(s, Do(cfg, s, step))
  {
    if IsMove(step) {
      NextShare(cfg, s, step);
    }
  }

  lemma QuietKeepsSought(cfg: Config, s: State, step: Step)
    requires AllSought(s) && Enabled(cfg, s, step) && Quiet(step)
    ensures AllSought(Do(cfg, s, step))
  {
    hide Enabled, Do;
    var t := Do(cfg, s, step);
    QuietContinues(cfg, s, step);
    forall i: nat | i < |t.requests| && Unreleased(t.requests[i])
      ensures Sought(t, i)
    {
      assert Sought(s, i);
      var d :| 0 <= d < |s.deletes| && s.deletes[d].target == i;
      assert t.deletes[d].target == i;
    }
  }

  // ----- Some quiet step is always enabled -----

  predicate Resting(r: Request) {
    r.phase == Live || r.phase == Finished
  }

  // The step of request i's own handler that ends it soonest.
  function OwnStep(p: Phase, i: nat): Step
    requires p != Live && p != Finished
  {
    match p
    case AtTry => Try(i) case TryProbe => EndTryProbe(i)
    case AtCheck => Check(i) case CheckProbe => EndCheckProbe(i)
    case AtProtect => Enqueue(i) case Waiting => GiveUp(i)
    case Granted => LeaveQueue(i) case Abandoned => LeaveQueue(i)
    case Admitted => Admit(i) case Serving => DropPending(i) case Dropping => DropPermit(i)
    case Registered => CreatePending(i) case Creating => CreateUsed(i)
  }

  lemma HandlerCanStep(cfg: Config, s: State, i: nat)
    requires i < |s.requests| && !Resting(s.requests[i])
    ensures var step := OwnStep(s.requests[i].phase, i); Enabled(cfg, s, step) && Quiet(step)
  {
  }

  function CleanupStep(g: Stage, i: nat): Step
    requires g != Returned && g != Cancelled
  {
    match g
    case Idle => CleanupBegin(i) case Found => CleanupRemove(i)
    case Unlisted => CleanupUsed(i) case Uncounted => CleanupPermit(i)
  }

  lemma CleanupCanStep(cfg: Config, s: State, i: nat)
    requires Inv(cfg, s) && i < |s.requests|
    requires s.requests[i].protocol == Playwright && IsPut(s.requests[i].phase) && s.requests[i].cleanup != Returned
    ensures Consistent(s.deletes, i, s.requests[i]) && s.requests[i].cleanup != Cancelled
    ensures var step := CleanupStep(s.requests[i].cleanup, i); Enabled(cfg, s, step) && Quiet(step)
  {
    hide Total, Count;
    assert Consistent(s.deletes, i, s.requests[i]);
  }

  function DeleteStep(g: Stage, d: nat): Step
    requires g != Idle && g != Cancelled
  {
    match g
    case Found => DeleteRemove(d) case Unlisted => DeleteUsed(d)
    case Uncounted => DeletePermit(d) case Returned => DeleteCancel(d)
  }

  lemma DeleteCanStep(cfg: Config, s: State, d: nat)
    requires Inv(cfg, s) && d < |s.deletes| && s.deletes[d].at != Cancelled
    requires s.requests[s.deletes[d].target].protocol == Playwright ==>
               s.requests[s.deletes[d].target].cleanup == Returned
    ensures DeleteOk(s.requests[s.deletes[d].target], s.deletes[d]) && s.deletes[d].at != Idle
    ensures var step := DeleteStep(s.deletes[d].at, d); Enabled(cfg, s, step) && Quiet(step)
  {
    hide Total, Count;
    assert DeleteOk(s.requests[s.deletes[d].target], s.deletes[d]);
  }

  lemma DeletedIsOver(cfg: Config, s: State, i: nat)
    requires Inv(cfg, s) && Settled(s) && i < |s.requests| && Sought(s, i)
    ensures s.requests[i].permitsBack > 0
  {
    assert Consistent(s.deletes, i, s.requests[i]);
    var d :| 0 <= d < |s.deletes| && s.deletes[d].target == i;
    CountSome(s.deletes, ReturnedFor(i), d);
  }

  lemma CleanedIsOver(cfg: Config, s: State, i: nat)
    requires Inv(cfg, s) && i < |s.requests| && s.requests[i].cleanup == Returned
    ensures s.requests[i].permitsBack > 0
  {
    hide Total, Count;
    assert Consistent(s.deletes, i, s.requests[i]);
  }

  // Where no handler, cleanup or DELETE can step, everything is drained.
  lemma SomeoneCanStep(cfg: Config, s: State) returns (step: Step)
    requires Inv(cfg, s) && AllSought(s) && !Drained(s)
    ensures Enabled(cfg, s, step) && Quiet(step)
  {
    hide Total, Count, Enabled, Consistent, DeleteOk, Sought;
    if i :| 0 <= i < |s.requests| && !Resting(s.requests[i]) {
      HandlerCanStep(cfg, s, i);
      step := OwnStep(s.requests[i].phase, i);
    } else if i :| 0 <= i < |s.requests| && s.requests[i].protocol == Playwright && s.requests[i].phase == Live
                   && s.requests[i].cleanup != Returned {
      CleanupCanStep(cfg, s, i);
      step := CleanupStep(s.requests[i].cleanup, i);
    } else if d :| 0 <= d < |s.deletes| && s.deletes[d].at != Cancelled {
      PutAtTarget(cfg, s, d);
      DeleteCanStep(cfg, s, d);
      step := DeleteStep(s.deletes[d].at, d);
    } else {
      forall i | 0 <= i < |s.requests|
        ensures Over(s.requests[i])
      {
        if s.requests[i].phase == Live && s.requests[i].protocol == Playwright {
          CleanedIsOver(cfg, s, i);
        } else if s.requests[i].phase == Live && s.requests[i].permitsBack == 0 {
          assert Unreleased(s.requests[i]);
          DeletedIsOver(cfg, s, i);
        }
      }
      assert false;
    }
  }

  lemma PutAtTarget(cfg: Config, s: State, d: nat)
    requires Inv(cfg, s) && d < |s.deletes|
    ensures IsPut(s.requests[s.deletes[d].target].phase)
  {
    hide Total, Count;
    assert DeleteOk(s.requests[s.deletes[d].target], s.deletes[d]);
  }

  predicate AllQuiet(steps: seq<Step>) {
    forall i :: 0 <= i < |steps| ==> Quiet(steps[i])
  }

  lemma {:induction false} QuietRun(cfg: Config, s: State, steps: seq<Step>)
    requires Inv(cfg, s) && AllSought(s) && IsRun(cfg, s, steps) && AllQuiet(steps)
    ensures Inv(cfg, After(cfg, s, steps)) && AllSought(After(cfg, s, steps))
    ensures |steps| + Remaining(After(cfg, s, steps)) <= Remaining(s)
    decreases |steps|
  {
    hide Inv, AllSought, Remaining, Do, Enabled;
    if steps != [] {
      assert Quiet(steps[0]);
      StepKeeps(cfg, s, steps[0]);
      QuietLowers(cfg, s, steps[0]);
      QuietKeepsSought(cfg, s, steps[0]);
      QuietRun(cfg, Do(cfg, s, steps[0]), steps[1..]);
    }
  }

  // Once a DELETE has found every WebDriver session, every way of going on
  // without new requests, sessions or DELETEs ends within a fixed number of
  // steps, and wherever it cannot go on, everything is drained.
  lemma EveryWayDrains(cfg: Config, s: State, steps: seq<Step>)
    requires Inv(cfg, s) && AllSought(s) && IsRun(cfg, s, steps) && AllQuiet(steps)
    ensures |steps| <= Remaining(s)
    ensures Drained(After(cfg, s, steps)) || exists step :: Quiet(step) && Enabled(cfg, After(cfg, s, steps), step)
  {
    hide Inv, AllSought, Remaining, Do, Enabled, Drained;
    QuietRun(cfg, s, steps);
    if !Drained(After(cfg, s, steps)) {
      var step := SomeoneCanStep(cfg, After(cfg, s, steps));
    }
  }

  // ----- What can be drained -----

  // s can be run on until everything is drained.
  ghost predicate Drainable(cfg: Config, s: State) {
    exists steps :: IsRun(cfg, s, steps) && Drained(After(cfg, s, steps))
  }

  lemma DrainableBefore(cfg: Config, s: State, step: Step)
    requires Enabled(cfg, s, step) && Drainable(cfg, Do(cfg, s, step))
    ensures Drainable(cfg, s)
  {
    hide Enabled, Do, Drained;
    var rest :| IsRun(cfg, Do(cfg, s, step), rest) && Drained(After(cfg, Do(cfg, s, step), rest));
    var steps := [step] + rest;
    assert steps[0] == step && steps[1..] == rest;
    assert IsRun(cfg, s, steps) && After(cfg, s, steps) == After(cfg, Do(cfg, s, step), rest);
  }

  lemma {:induction false} SoughtDrains(cfg: Config, s: State)
    requires Inv(cfg, s) && AllSought(s)
    ensures Drainable(cfg, s)
    decreases Remaining(s)
  {
    hide Inv, AllSought, Remaining, Do, Enabled, Drained;
    if Drained(s) {
      assert IsRun(cfg, s, []) && After(cfg, s, []) == s;
    } else {
      var step := SomeoneCanStep(cfg, s);
      StepKeeps(cfg, s, step);
      QuietLowers(cfg, s, step);
      QuietKeepsSought(cfg, s, step);
      SoughtDrains(cfg, Do(cfg, s, step));
      DrainableBefore(cfg, s, step);
    }
  }

  // A DELETE finds the session of request n.
  lemma FindOne(cfg: Config, s: State, n: nat, k: string)
    requires Enabled(cfg, s, DeleteFind(k)) && s.sessions[k] == n
    requires Inv(cfg, s) && NoneLost(s) && SoughtFrom(s, n + 1)
    ensures Inv(cfg, Do(cfg, s, DeleteFind(k)))
    ensures NoneLost(Do(cfg, s, DeleteFind(k))) && SoughtFrom(Do(cfg, s, DeleteFind(k)), n)
  {
    hide Inv;
    StepKeeps(cfg, s, DeleteFind(k));
    var t := Do(cfg, s, DeleteFind(k));
    assert t.deletes[|s.deletes|].target == n;
    forall i: nat | i < |s.requests| && Sought(s, i)
      ensures Sought(t, i)
    {
      var d :| 0 <= d < |s.deletes| && s.deletes[d].target == i;
      assert t.deletes[d].target == i;
    }
    forall i: nat | i < |t.requests|
      ensures !Lost(t, i)
    {
      assert !Lost(s, i);
    }
  }

  lemma {:induction false} FindSessions(cfg: Config, s: State, n: nat)
    requires Inv(cfg, s) && NoneLost(s) && n <= |s.requests| && SoughtFrom(s, n)
    ensures Drainable(cfg, s)
    decreases n
  {
    hide Inv, Drainable, NoneLost;
    if n == 0 {
      SoughtDrains(cfg, s);
    } else if Unreleased(s.requests[n - 1]) && !Sought(s, n - 1) {
      var k := Listing(s, n - 1);
      FindOne(cfg, s, n - 1, k);
      FindSessions(cfg, Do(cfg, s, DeleteFind(k)), n - 1);
      DrainableBefore(cfg, s, DeleteFind(k));
    } else {
      FindSessions(cfg, s, n - 1);
    }
  }

  lemma Listing(s: State, i: nat) returns (k: string)
    requires NoneLost(s) && i < |s.requests| && Unreleased(s.requests[i]) && !Sought(s, i)
    ensures k in s.sessions && s.sessions[k] == i
  {
    assert !Lost(s, i);
    k :| k in s.sessions && s.sessions[k] == i;
  }

  // Nothing but a cleanup of its own or a DELETE that found it returns the permit.
  lemma UnreleasedStays(cfg: Config, s: State, step: Step, i: nat)
    requires Inv(cfg, s) && Lost(s, i) && Enabled(cfg, s, step) && !IsMove(step)
    ensures Unreleased(Do(cfg, s, step).requests[i])
  {
    hide Total, Count, Next;
    assert Consistent(s.deletes, i, s.requests[i]);
    if step.DeletePermit? {
      assert s.deletes[step.d].target != i;
    }
  }

  lemma UnsoughtStays(cfg: Config, s: State, step: Step, i: nat)
    requires Lost(s, i) && Enabled(cfg, s, step)
    ensures !Sought(Do(cfg, s, step), i)
  {
    hide Next, Unreleased;
    var t := Do(cfg, s, step);
    forall d | 0 <= d < |t.deletes|
      ensures t.deletes[d].target != i
    {
      assert d < |s.deletes| ==> t.deletes[d].target == s.deletes[d].target != i;
    }
  }

  // No step finds a lost session again.
  lemma LostStays(cfg: Config, s: State, step: Step, i: nat)
    requires Inv(cfg, s) && Lost(s, i) && Enabled(cfg, s, step)
    ensures Lost(Do(cfg, s, step), i)
  {
    hide Inv, Next, Sought;
    UnsoughtStays(cfg, s, step, i);
    if IsMove(step) {
      NextShare(cfg, s, step);
    } else {
      UnreleasedStays(cfg, s, step, i);
    }
  }

  lemma {:induction false} LostForever(cfg: Config, s: State, steps: seq<Step>, i: nat)
    requires Inv(cfg, s) && Lost(s, i) && IsRun(cfg, s, steps)
    ensures Lost(After(cfg, s, steps), i)
    decreases |steps|
  {
    hide Inv, Lost, Do, Enabled;
    if steps != [] {
      StepKeeps(cfg, s, steps[0]);
      LostStays(cfg, s, steps[0], i);
      LostForever(cfg, Do(cfg, s, steps[0]), steps[1..], i);
    }
  }

  // Main result.  The server can be emptied from a reachable state, every
  // request over and every DELETE finished, exactly when no session is lost.
  lemma DrainableExactly(cfg: Config, steps: seq<Step>)
    requires IsRun(cfg, Init, steps)
    ensures Drainable(cfg, After(cfg, Init, steps)) <==> NoneLost(After(cfg, Init, steps))
  {
    hide Inv, Sought;
    var s := After(cfg, Init, steps);
    InitKeeps(cfg);
    RunKeeps(cfg, Init, steps);
    if NoneLost(s) {
      FindSessions(cfg, s, |s.requests|);
    } else {
      var i :| 0 <= i < |s.requests| && Lost(s, i);
      forall more | IsRun(cfg, s, more)
        ensures !Drained(After(cfg, s, more))
      {
        LostForever(cfg, s, more, i);
      }
    }
  }

  // ----- How a session gets lost -----

  // The session id k stands for a WebDriver session no DELETE has found.
  predicate OnlyWay(s: State, k: string) {
    && k in s.sessions && s.sessions[k] < |s.requests|
    && s.requests[s.sessions[k]].protocol == WebDriver && !Sought(s, s.sessions[k])
  }

  // A Put under the id of another session, or a removal of that id by the
  // release of an earlier session that had it.
  predicate Loses(cfg: Config, s: State, step: Step)
    requires Enabled(cfg, s, step)
  {
    match step
    case Put(i, id) => OnlyWay(s, id)
    case CleanupRemove(i) => OnlyWay(s, s.requests[i].sid)
    case DeleteRemove(d) => OnlyWay(s, s.requests[s.deletes[d].target].sid)
    case _ => false
  }

  // s and t differ, for what is lost, in the session under id k only.
  ghost predicate DifferAt(s: State, t: State, k: string) {
    && |t.requests| == |s.requests| && |t.deletes| == |s.deletes|
    && (forall i :: 0 <= i < |s.requests| ==>
          (k in t.sessions && t.sessions[k] == i) || SameSlot(s.requests[i], t.requests[i]))
    && (forall d :: 0 <= d < |s.deletes| ==> t.deletes[d].target == s.deletes[d].target)
    && (forall l :: l != k ==> (l in t.sessions <==> l in s.sessions))
    && (forall l :: l != k && l in s.sessions ==> t.sessions[l] == s.sessions[l])
    && (k in t.sessions && k in s.sessions ==> t.sessions[k] != s.sessions[k])
  }

  predicate SameSlot(r: Request, q: Request) {
    q.protocol == r.protocol && IsPut(q.phase) == IsPut(r.phase) && q.permitsBack == r.permitsBack
  }

  lemma ListedUnreleased(cfg: Config, s: State, k: string)
    requires Inv(cfg, s) && k in s.sessions
    ensures s.sessions[k] < |s.requests|
    ensures s.requests[s.sessions[k]].permitsBack == 0 && IsPut(s.requests[s.sessions[k]].phase)
    ensures forall l :: l in s.sessions && s.sessions[l] == s.sessions[k] ==> l == k
  {
    hide Total;
    var i := s.sessions[k];
    assert Listed(s.requests[i], k) && Consistent(s.deletes, i, s.requests[i]);
    CountNone(s.deletes, ReturnedFor(i));
    forall l | l in s.sessions && s.sessions[l] == i
      ensures l == k
    {
      assert Listed(s.requests[i], l);
    }
  }

  lemma SoughtSame(s: State, t: State, i: nat)
    requires |t.deletes| == |s.deletes|
    requires forall d :: 0 <= d < |s.deletes| ==> t.deletes[d].target == s.deletes[d].target
    ensures Sought(t, i) <==> Sought(s, i)
  {
    if Sought(s, i) {
      var d :| 0 <= d < |s.deletes| && s.deletes[d].target == i;
      assert t.deletes[d].target == i;
    }
  }

  lemma LosesAt(cfg: Config, s: State, t: State, k: string)
    requires Inv(cfg, s) && NoneLost(s) && DifferAt(s, t, k)
    ensures NoneLost(t) <==> !OnlyWay(s, k)
  {
    hide Inv, Sought;
    if OnlyWay(s, k) {
      var j := s.sessions[k];
      ListedUnreleased(cfg, s, k);
      SoughtSame(s, t, j);
      assert SameSlot(s.requests[j], t.requests[j]);
      assert Lost(t, j);
    } else {
      forall j: nat | j < |t.requests|
        ensures !Lost(t, j)
      {
        assert !Lost(s, j);
        SoughtSame(s, t, j);
      }
    }
  }

  lemma DiffersAtRemoved(s: State, t: State, k: string)
    requires Continues(s, t) && t.sessions == s.sessions - {k}
    requires forall i :: 0 <= i < |s.requests| ==> t.requests[i].permitsBack == s.requests[i].permitsBack
    ensures DifferAt(s, t, k)
  {
  }

  lemma CleanupRemoveLoses(cfg: Config, s: State, i: nat)
    requires Inv(cfg, s) && NoneLost(s) && Enabled(cfg, s, CleanupRemove(i))
    ensures NoneLost(Do(cfg, s, CleanupRemove(i))) <==> !OnlyWay(s, s.requests[i].sid)
  {
    hide Inv, Sought, NoneLost, OnlyWay, Next;
    var t := Do(cfg, s, CleanupRemove(i));
    QuietContinues(cfg, s, CleanupRemove(i));
    DiffersAtRemoved(s, t, s.requests[i].sid);
    LosesAt(cfg, s, t, s.requests[i].sid);
  }

  lemma DeleteRemoveLoses(cfg: Config, s: State, d: nat)
    requires Inv(cfg, s) && NoneLost(s) && Enabled(cfg, s, DeleteRemove(d))
    ensures NoneLost(Do(cfg, s, DeleteRemove(d))) <==> !OnlyWay(s, s.requests[s.deletes[d].target].sid)
  {
    hide Inv, Sought, NoneLost, OnlyWay, Next;
    var t, k := Do(cfg, s, DeleteRemove(d)), s.requests[s.deletes[d].target].sid;
    QuietContinues(cfg, s, DeleteRemove(d));
    DiffersAtRemoved(s, t, k);
    LosesAt(cfg, s, t, k);
  }

  // From a state without lost sessions exactly these steps lose one.
  lemma StepLoses(cfg: Config, s: State, step: Step)
    requires Inv(cfg, s) && NoneLost(s) && Enabled(cfg, s, step)
    ensures NoneLost(Do(cfg, s, step)) <==> !Loses(cfg, s, step)
  {
    hide Inv, NoneLost, OnlyWay, Do;
    match step
    case Put(i, id) => PutLoses(cfg, s, i, id);
    case CleanupRemove(i) => CleanupRemoveLoses(cfg, s, i);
    case DeleteRemove(d) => DeleteRemoveLoses(cfg, s, d);
    case _ => OthersLoseNone(cfg, s, step);
  }

  lemma PutLoses(cfg: Config, s: State, i: nat, id: string)
    requires Inv(cfg, s) && NoneLost(s) && Enabled(cfg, s, Put(i, id))
    ensures NoneLost(Do(cfg, s, Put(i, id))) <==> !OnlyWay(s, id)
  {
    hide Inv, Sought, NoneLost, OnlyWay, Next;
    if id in s.sessions {
      ListedUnreleased(cfg, s, id);
    }
    LosesAt(cfg, s, Do(cfg, s, Put(i, id)), id);
  }

  lemma OthersLoseNone(cfg: Config, s: State, step: Step)
    requires NoneLost(s) && Enabled(cfg, s, step)
    requires !step.Put? && !step.CleanupRemove? && !step.DeleteRemove?
    ensures NoneLost(Do(cfg, s, step))
  {
    hide Next;
    var t := Do(cfg, s, step);
    if Quiet(step) {
      QuietContinues(cfg, s, step);
    }
    forall i: nat | i < |t.requests|
      ensures !Lost(t, i)
    {
      if i < |s.requests| {
        assert !Lost(s, i);
        if Sought(s, i) {
          var d :| 0 <= d < |s.deletes| && s.deletes[d].target == i;
          assert t.deletes[d].target == i;
        }
      }
    }
  }

  // No step of the run loses a session.
  predicate KeepsAll(cfg: Config, s: State, steps: seq<Step>)
    requires IsRun(cfg, s, steps)
    decreases |steps|
  {
    steps == [] || (!Loses(cfg, s, steps[0]) && KeepsAll(cfg, Do(cfg, s, steps[0]), steps[1..]))
  }

  lemma {:induction false} KeepsAllLosesNone(cfg: Config, s: State, steps: seq<Step>)
    requires Inv(cfg, s) && NoneLost(s) && IsRun(cfg, s, steps)
    ensures KeepsAll(cfg, s, steps) <==> NoneLost(After(cfg, s, steps))
    decreases |steps|
  {
    hide Inv, NoneLost, Do, Enabled, Loses;
    if steps != [] {
      StepKeeps(cfg, s, steps[0]);
      StepLoses(cfg, s, steps[0]);
      if Loses(cfg, s, steps[0]) {
        LosesForever(cfg, Do(cfg, s, steps[0]), steps[1..]);
      } else {
        KeepsAllLosesNone(cfg, Do(cfg, s, steps[0]), steps[1..]);
      }
    }
  }

  lemma LosesForever(cfg: Config, s: State, steps: seq<Step>)
    requires Inv(cfg, s) && !NoneLost(s) && IsRun(cfg, s, steps)
    ensures !NoneLost(After(cfg, s, steps))
  {
    hide Inv;
    var i :| 0 <= i < |s.requests| && Lost(s, i);
    LostForever(cfg, s, steps, i);
  }

  // So a run leads to a state that can be drained exactly when no Put in it
  // hid the only way to a WebDriver session and no removal took it away.
  lemma DrainsIffKeepsAll(cfg: Config, steps: seq<Step>)
    requires IsRun(cfg, Init, steps)
    ensures Drainable(cfg, After(cfg, Init, steps)) <==> KeepsAll(cfg, Init, steps)
  {
    hide Inv, Drainable;
    InitKeeps(cfg);
    DrainableExactly(cfg, steps);
    KeepsAllLosesNone(cfg, Init, steps);
  }

  // ----- A run that loses one -----

  // A further request while a permit is free, up to being served
  function Served(s: State, p: Protocol, phase: Phase, c: Counters): State {
    s.(c := c, requests := s.requests + [Request(p, false, phase, "", Idle, 0, 0)])
  }

  lemma ServedMoves(cfg: Config, R: iset<State>, s: State, p: Protocol, from: Phase, to: Phase, step: Step,
                    c: Counters, d: Counters)
    requires Closed(cfg, R) && Served(s, p, from, c) in R && IsMove(step) && Mover(step) == |s.requests|
    requires Enabled(cfg, Served(s, p, from, c), step) && Next(cfg, from, false, c, step) == (to, d)
    ensures Served(s, p, to, d) in R
  {
    hide Enabled, Next;
    assert Do(cfg, Served(s, p, from, c), step) == Served(s, p, to, d);
  }

  lemma ServeNext(cfg: Config, R: iset<State>, s: State, p: Protocol) returns (c: Counters)
    requires Closed(cfg, R) && s in R && !cfg.disabled && s.c.held < cfg.size
    ensures c == s.c.Permits(1).Pendings(1) && Served(s, p, Serving, c) in R
  {
    var i := |s.requests|;
    assert Do(cfg, s, Arrive(p, false)) == Served(s, p, AtTry, s.c);
    ServedMoves(cfg, R, s, p, AtTry, AtCheck, Try(i), s.c, s.c);
    ServedMoves(cfg, R, s, p, AtCheck, AtProtect, Check(i), s.c, s.c);
    ServedMoves(cfg, R, s, p, AtProtect, Waiting, Enqueue(i), s.c, s.c.Queues(1));
    ServedMoves(cfg, R, s, p, Waiting, Granted, Acquire(i), s.c.Queues(1), s.c.Queues(1).Permits(1));
    ServedMoves(cfg, R, s, p, Granted, Admitted, LeaveQueue(i), s.c.Queues(1).Permits(1), s.c.Permits(1));
    c := s.c.Permits(1).Pendings(1);
    ServedMoves(cfg, R, s, p, Admitted, Serving, Admit(i), s.c.Permits(1), c);
  }

  const Two := Config(2, false)

  // One WebDriver session under the id k
  predicate OneListed(s: State, k: string) {
    && |s.requests| == 1 && Unreleased(s.requests[0]) && s.deletes == [] && s.c.held == 1
    && s.sessions == map[k := 0]
  }

  lemma ReachOneListed(R: iset<State>, k: string) returns (s: State)
    requires Closed(Two, R)
    ensures s in R && OneListed(s, k)
  {
    var c := StartClosed(Two, R);
    s := ListOne(R, State(c, [], [], map[]), k);
  }

  lemma ListOne(R: iset<State>, o: State, k: string) returns (s: State)
    requires Closed(Two, R) && o in R && o.requests == [] && o.deletes == [] && o.sessions == map[] && o.c.held == 0
    ensures s in R && OneListed(s, k)
  {
    hide Closed, Inv;
    var c := ServeNext(Two, R, o, WebDriver);
    var u := Served(o, WebDriver, Serving, c);
    s := Do(Two, u, Put(0, k));
    assert s in R by { Went(Two, R, u, Put(0, k)); }
  }

  lemma ReachLost(R: iset<State>, s: State, k: string, q: Protocol) returns (t: State)
    requires Closed(Two, R) && s in R && OneListed(s, k)
    ensures t in R && t.deletes == [] && |t.requests| == 2 && t.requests[1].protocol == q && Lost(t, 0)
  {
    hide Closed, Inv;
    var c := ServeNext(Two, R, s, q);
    var u := Served(s, q, Serving, c);
    t := Do(Two, u, Put(1, k));
    assert t in R by { Went(Two, R, u, Put(1, k)); }
    assert t.requests[0] == s.requests[0];
  }

  lemma Went(cfg: Config, R: iset<State>, s: State, step: Step)
    requires Closed(cfg, R) && s in R && Enabled(cfg, s, step)
    ensures Do(cfg, s, step) in R
  {
  }

  // Two sessions put under one id, a WebDriver session first: its slot is never
  // released again.
  lemma SessionMayBeLost(q: Protocol)
    ensures exists t :: Reachable(Two, t) && t.deletes == [] && |t.requests| == 2
                        && t.requests[1].protocol == q && Lost(t, 0) && !Drainable(Two, t)
  {
    hide Drainable, Lost, Closed;
    var R := ReachableIsClosed(Two);
    var s := ReachOneListed(R, "id");
    var t := ReachLost(R, s, "id", q);
    LostIsNotDrainable(Two, t, 0);
  }

  lemma LostIsNotDrainable(cfg: Config, t: State, i: nat)
    requires Reachable(cfg, t) && Lost(t, i)
    ensures !Drainable(cfg, t)
  {
    hide Drainable, Do, Enabled;
    var steps :| IsRun(cfg, Init, steps) && After(cfg, Init, steps) == t;
    DrainableExactly(cfg, steps);
    assert !NoneLost(t);
  }
}
