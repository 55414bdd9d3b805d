// The two session handlers as Slots sees them: whatever they do, they take a
// request from Serving through the steps Slots allows it, to its end or to a
// live session, in one piece or with any other requests' steps in between.
module Handlers {
  import opened Gauges
  import opened Seqs
  import opened Slots
  import Create
  import Playwright

  // ------------------------------------------ a request's own steps, and others

  // A step of request i's own handler; cleanups and DELETEs are not its own.
  predicate IsOwn(step: Step, i: nat) {
    (IsMove(step) && Mover(step) == i) || (step.Put? && step.i == i)
  }

  // No other step moves the request.
  lemma OthersKeepPhase(cfg: Config, s: State, step: Step, i: nat)
    requires Enabled(cfg, s, step) && i < |s.requests| && !IsOwn(step, i)
    ensures i < |Do(cfg, s, step).requests| && Do(cfg, s, step).requests[i].phase == s.requests[i].phase
  {
    hide Next;
  }

  function OwnSteps(steps: seq<Step>, i: nat): seq<Step> {
    if steps == [] then []
    else if IsOwn(steps[0], i) then [steps[0]] + OwnSteps(steps[1..], i)
    else OwnSteps(steps[1..], i)
  }

  // The two ways on from Serving
  function DropPath(i: nat): seq<Step> {
    [DropPending(i), DropPermit(i)]
  }

  function CreatePath(i: nat, id: string): seq<Step> {
    [Put(i, id), CreatePending(i), CreateUsed(i)]
  }

  // Where request i stands after its own steps, starting from p; None when
  // Slots has no such step there.
  function Walk(p: Phase, own: seq<Step>): Option<Phase>
    decreases |own|
  {
    if own == [] then Some(p)
    else
      match own[0]
      case DropPending(_) => if p == Serving then Walk(Dropping, own[1..]) else None
      case DropPermit(_) => if p == Dropping then Walk(Finished, own[1..]) else None
      case Put(_, _) => if p == Serving then Walk(Registered, own[1..]) else None
      case CreatePending(_) => if p == Registered then Walk(Creating, own[1..]) else None
      case CreateUsed(_) => if p == Creating then Walk(Live, own[1..]) else None
      case _ => None
  }

  predicate AfterServing(p: Phase) {
    p == Serving || p == Dropping || p == Finished || p == Registered || p == Creating || p == Live
  }

  // In every run from a state where request i is being served, its own steps
  // are a walk, whatever the others do in between.
  lemma {:induction false} RunWalks(cfg: Config, s: State, steps: seq<Step>, i: nat)
    requires IsRun(cfg, s, steps) && i < |s.requests| && AfterServing(s.requests[i].phase)
    ensures i < |After(cfg, s, steps).requests|
    ensures Walk(s.requests[i].phase, OwnSteps(steps, i)) == Some(After(cfg, s, steps).requests[i].phase)
    decreases |steps|
  {
    if steps != [] {
      var t := Do(cfg, s, steps[0]);
      if IsOwn(steps[0], i) {
        OwnStep(cfg, s, steps[0], i);
        assert ([steps[0]] + OwnSteps(steps[1..], i))[1..] == OwnSteps(steps[1..], i);
      } else {
        OthersKeepPhase(cfg, s, steps[0], i);
      }
      RunWalks(cfg, t, steps[1..], i);
    }
  }

  lemma OwnStep(cfg: Config, s: State, step: Step, i: nat)
    requires Enabled(cfg, s, step) && i < |s.requests| && AfterServing(s.requests[i].phase) && IsOwn(step, i)
    ensures i < |Do(cfg, s, step).requests| && AfterServing(Do(cfg, s, step).requests[i].phase)
    ensures Walk(s.requests[i].phase, [step]) == Some(Do(cfg, s, step).requests[i].phase)
  {
  }

  lemma {:induction false} OwnAreOwn(steps: seq<Step>, i: nat)
    ensures forall k :: 0 <= k < |OwnSteps(steps, i)| ==> IsOwn(OwnSteps(steps, i)[k], i)
  {
    if steps != [] {
      OwnAreOwn(steps[1..], i);
    }
  }

  // A served request has left without a session exactly when its own steps
  // were the two of Drop, and has a session exactly when they were Put and the
  // two of Create.
  lemma ServedEnds(cfg: Config, s: State, steps: seq<Step>, i: nat)
    requires IsRun(cfg, s, steps) && At(s, i, Serving)
    ensures var t := After(cfg, s, steps);
            && (At(t, i, Finished) <==> OwnSteps(steps, i) == DropPath(i))
            && (At(t, i, Live) <==> exists id :: OwnSteps(steps, i) == CreatePath(i, id))
  {
    var own := OwnSteps(steps, i);
    RunWalks(cfg, s, steps, i);
    OwnAreOwn(steps, i);
    WalksEnd(own, i);
  }

  lemma WalksEnd(own: seq<Step>, i: nat)
    requires Walk(Serving, own).Some? && forall k :: 0 <= k < |own| ==> IsOwn(own[k], i)
    ensures Walk(Serving, own) == Some(Finished) <==> own == DropPath(i)
    ensures Walk(Serving, own) == Some(Live) <==> exists id :: own == CreatePath(i, id)
  {
    if own != [] {
      assert own == [own[0]] + own[1..];
      if own[0].DropPending? {
        WalkFromDropping(own[1..], i);
      } else {
        WalkFromRegistered(own[1..], i);
        assert own[1..] == [CreatePending(i), CreateUsed(i)] ==> own == CreatePath(i, own[0].id);
      }
    }
  }

  lemma WalkFromDropping(own: seq<Step>, i: nat)
    requires Walk(Dropping, own).Some? && forall k :: 0 <= k < |own| ==> IsOwn(own[k], i)
    ensures Walk(Dropping, own) == Some(Finished) <==> own == [DropPermit(i)]
    ensures Walk(Dropping, own) != Some(Live)
  {
    if own != [] {
      assert own == [own[0]] + own[1..];
      assert Walk(Finished, own[1..]).Some? && own[1..] == [];
    }
  }

  lemma WalkFromRegistered(own: seq<Step>, i: nat)
    requires Walk(Registered, own).Some? && forall k :: 0 <= k < |own| ==> IsOwn(own[k], i)
    ensures Walk(Registered, own) == Some(Live) <==> own == [CreatePending(i), CreateUsed(i)]
    ensures Walk(Registered, own) != Some(Finished)
  {
    if own != [] {
      assert own == [own[0]] + own[1..];
      var more := own[1..];
      if more != [] {
        assert more == [more[0]] + more[1..];
        assert Walk(Live, more[1..]).Some? && more[1..] == [];
      }
    }
  }

  // -------------------------------------------- a request's whole life, exactly

  // The own steps of a request up to its place in the queue
  function ToCheck(noWait: bool, i: nat): seq<Step> {
    if noWait then [Try(i), EndTryProbe(i)] else [Try(i)]
  }

  function ToProtect(noWait: bool, disabled: bool, i: nat): seq<Step> {
    ToCheck(noWait, i) + (if disabled then [Check(i), EndCheckProbe(i)] else [Check(i)])
  }

  function ToQueue(noWait: bool, disabled: bool, i: nat): seq<Step> {
    ToProtect(noWait, disabled, i) + [Enqueue(i)]
  }

  function ToServing(noWait: bool, disabled: bool, i: nat): seq<Step> {
    ToQueue(noWait, disabled, i) + [Acquire(i), LeaveQueue(i), Admit(i)]
  }

  // What a request has done itself, by where it stands.  It leaves without a
  // session in four ways: refused by Try, which only a request that would not
  // wait can be; refused by Check, when queueing is disabled; given up in the
  // queue; or dropped while being served.
  predicate Lived(disabled: bool, r: Request, own: seq<Step>, i: nat) {
    match r.phase
    case AtTry => own == []
    case TryProbe => r.noWait && own == [Try(i)]
    case AtCheck => own == ToCheck(r.noWait, i)
    case CheckProbe => disabled && own == ToCheck(r.noWait, i) + [Check(i)]
    case AtProtect => own == ToProtect(r.noWait, disabled, i)
    case Waiting => own == ToQueue(r.noWait, disabled, i)
    case Granted => own == ToQueue(r.noWait, disabled, i) + [Acquire(i)]
    case Abandoned => own == ToQueue(r.noWait, disabled, i) + [GiveUp(i)]
    case Admitted => own == ToQueue(r.noWait, disabled, i) + [Acquire(i), LeaveQueue(i)]
    case Serving => own == ToServing(r.noWait, disabled, i)
    case Dropping => own == ToServing(r.noWait, disabled, i) + [DropPending(i)]
    case Registered => own == ToServing(r.noWait, disabled, i) + [Put(i, r.sid)]
    case Creating => own == ToServing(r.noWait, disabled, i) + [Put(i, r.sid), CreatePending(i)]
    case Live => own == ToServing(r.noWait, disabled, i) + CreatePath(i, r.sid)
    case Finished =>
      || (r.noWait && own == [Try(i)])
      || (disabled && own == ToCheck(r.noWait, i) + [Check(i)])
      || own == ToQueue(r.noWait, disabled, i) + [GiveUp(i), LeaveQueue(i)]
      || own == ToServing(r.noWait, disabled, i) + DropPath(i)
  }

  // What other steps leave of the request
  predicate SameLife(r: Request, q: Request) {
    q.protocol == r.protocol && q.noWait == r.noWait && q.phase == r.phase && q.sid == r.sid
  }

  lemma OthersKeepLife(cfg: Config, s: State, step: Step, i: nat)
    requires Enabled(cfg, s, step) && i < |s.requests| && !IsOwn(step, i)
    ensures i < |Do(cfg, s, step).requests| && SameLife(s.requests[i], Do(cfg, s, step).requests[i])
  {
    hide Next;
  }

  lemma OwnMoves(cfg: Config, s: State, step: Step, i: nat)
    requires Enabled(cfg, s, step) && i < |s.requests| && IsOwn(step, i)
    ensures i < |Do(cfg, s, step).requests|
    ensures var r, q := s.requests[i], Do(cfg, s, step).requests[i];
            && q.protocol == r.protocol && q.noWait == r.noWait
            && q.sid == (if step.Put? then step.id else r.sid)
            && q.phase == (if step.Put? then Registered else Next(cfg, r.phase, r.noWait, s.c, step).0)
  {
    hide Next;
  }

  // Two steps further on
  lemma Snoc(own: seq<Step>, a: Step, b: Step)
    ensures own + [a] + [b] == own + [a, b]
  {
  }

  lemma SnocThree(own: seq<Step>, a: Step, b: Step, c: Step)
    ensures own + [a, b] + [c] == own + [a, b, c]
  {
  }

  predicate Served(p: Phase) {
    p == Serving || p == Dropping || p == Registered || p == Creating
  }

  // Up to being served
  lemma QueueLived(cfg: Config, s: State, step: Step, i: nat, own: seq<Step>)
    requires Enabled(cfg, s, step) && i < |s.requests| && IsOwn(step, i) && Lived(cfg.disabled, s.requests[i], own, i)
    requires !Served(s.requests[i].phase)
    ensures i < |Do(cfg, s, step).requests| && Lived(cfg.disabled, Do(cfg, s, step).requests[i], own + [step], i)
  {
    hide Do, ToServing, ToQueue, ToProtect, ToCheck, CreatePath, DropPath;
    OwnMoves(cfg, s, step, i);
    var r := s.requests[i];
    match step
    case Try(_) => LivedTry(r.noWait, i);
    case EndTryProbe(_) => LivedTry(r.noWait, i);
    case Check(_) => LivedCheck(r.noWait, cfg.disabled, i);
    case EndCheckProbe(_) => LivedCheck(r.noWait, cfg.disabled, i);
    case Enqueue(_) => assert own + [step] == ToQueue(r.noWait, cfg.disabled, i) by { ToQueueIs(r.noWait, cfg.disabled, i); }
    case LeaveQueue(_) =>
      Snoc(ToQueue(r.noWait, cfg.disabled, i), Acquire(i), LeaveQueue(i));
      Snoc(ToQueue(r.noWait, cfg.disabled, i), GiveUp(i), LeaveQueue(i));
    case Admit(_) =>
      SnocThree(ToQueue(r.noWait, cfg.disabled, i), Acquire(i), LeaveQueue(i), Admit(i));
      ToServingIs(r.noWait, cfg.disabled, i);
    case _ =>
  }

  // From there on
  lemma ServedLived(cfg: Config, s: State, step: Step, i: nat, own: seq<Step>)
    requires Enabled(cfg, s, step) && i < |s.requests| && IsOwn(step, i) && Lived(cfg.disabled, s.requests[i], own, i)
    requires Served(s.requests[i].phase)
    ensures i < |Do(cfg, s, step).requests| && Lived(cfg.disabled, Do(cfg, s, step).requests[i], own + [step], i)
  {
    hide Do, ToServing, ToQueue, ToProtect, ToCheck;
    OwnMoves(cfg, s, step, i);
    var r := s.requests[i];
    match step
    case DropPermit(_) => Snoc(ToServing(r.noWait, cfg.disabled, i), DropPending(i), DropPermit(i));
    case CreatePending(_) => Snoc(ToServing(r.noWait, cfg.disabled, i), Put(i, r.sid), CreatePending(i));
    case CreateUsed(_) => SnocThree(ToServing(r.noWait, cfg.disabled, i), Put(i, r.sid), CreatePending(i), CreateUsed(i));
    case _ =>
  }

  lemma StepLived(cfg: Config, s: State, step: Step, i: nat, own: seq<Step>)
    requires Enabled(cfg, s, step) && i < |s.requests| && IsOwn(step, i) && Lived(cfg.disabled, s.requests[i], own, i)
    ensures i < |Do(cfg, s, step).requests| && Lived(cfg.disabled, Do(cfg, s, step).requests[i], own + [step], i)
  {
    hide Lived, Do, Enabled, IsOwn;
    if Served(s.requests[i].phase) {
      ServedLived(cfg, s, step, i, own);
    } else {
      QueueLived(cfg, s, step, i, own);
    }
  }

  lemma LivedTry(noWait: bool, i: nat)
    ensures [] + [Try(i)] == [Try(i)] && [Try(i)] + [EndTryProbe(i)] == ToCheck(true, i) && [Try(i)] == ToCheck(false, i)
  {
  }

  lemma LivedCheck(noWait: bool, disabled: bool, i: nat)
    ensures !disabled ==> ToCheck(noWait, i) + [Check(i)] == ToProtect(noWait, disabled, i)
    ensures disabled ==> ToCheck(noWait, i) + [Check(i)] + [EndCheckProbe(i)] == ToProtect(noWait, disabled, i)
  {
    hide ToCheck;
    Snoc(ToCheck(noWait, i), Check(i), EndCheckProbe(i));
  }

  lemma ToQueueIs(noWait: bool, disabled: bool, i: nat)
    ensures ToQueue(noWait, disabled, i) == ToProtect(noWait, disabled, i) + [Enqueue(i)]
  {
  }

  lemma ToServingIs(noWait: bool, disabled: bool, i: nat)
    ensures ToServing(noWait, disabled, i) == ToQueue(noWait, disabled, i) + [Acquire(i), LeaveQueue(i), Admit(i)]
  {
  }

  lemma {:induction false} RunLived(cfg: Config, s: State, steps: seq<Step>, i: nat, own: seq<Step>)
    requires IsRun(cfg, s, steps) && i < |s.requests| && Lived(cfg.disabled, s.requests[i], own, i)
    ensures i < |After(cfg, s, steps).requests|
    ensures Lived(cfg.disabled, After(cfg, s, steps).requests[i], own + OwnSteps(steps, i), i)
    ensures After(cfg, s, steps).requests[i].protocol == s.requests[i].protocol
    ensures After(cfg, s, steps).requests[i].noWait == s.requests[i].noWait
    decreases |steps|
  {
    hide Lived, Do, Enabled, IsOwn;
    if steps == [] {
      assert own + OwnSteps(steps, i) == own;
    } else if IsOwn(steps[0], i) {
      StepLived(cfg, s, steps[0], i, own);
      OwnMoves(cfg, s, steps[0], i);
      RunLived(cfg, Do(cfg, s, steps[0]), steps[1..], i, own + [steps[0]]);
      assert own + [steps[0]] + OwnSteps(steps[1..], i) == own + OwnSteps(steps, i);
    } else {
      OthersKeepLife(cfg, s, steps[0], i);
      SameLived(cfg.disabled, s.requests[i], Do(cfg, s, steps[0]).requests[i], own, i);
      RunLived(cfg, Do(cfg, s, steps[0]), steps[1..], i, own);
    }
  }

  lemma SameLived(disabled: bool, r: Request, q: Request, own: seq<Step>, i: nat)
    requires Lived(disabled, r, own, i) && SameLife(r, q)
    ensures Lived(disabled, q, own, i)
  {
    hide ToServing, ToQueue, ToProtect, ToCheck;
  }

  // Main result.  Whatever state a request arrives in and whatever others do,
  // its own steps are, at every moment, exactly those of its place.
  lemma LifeExactly(cfg: Config, s: State, protocol: Protocol, noWait: bool, steps: seq<Step>)
    requires IsRun(cfg, s, [Arrive(protocol, noWait)] + steps)
    ensures var t := After(cfg, s, [Arrive(protocol, noWait)] + steps);
            var i := |s.requests|;
            && i < |t.requests| && t.requests[i].protocol == protocol && t.requests[i].noWait == noWait
            && Lived(cfg.disabled, t.requests[i], OwnSteps(steps, i), i)
  {
    hide OwnSteps;
    var run, i := [Arrive(protocol, noWait)] + steps, |s.requests|;
    assert run[0] == Arrive(protocol, noWait) && run[1..] == steps;
    var s' := Do(cfg, s, Arrive(protocol, noWait));
    assert s'.requests[i].phase == AtTry;
    RunLived(cfg, s', steps, i, []);
    assert [] + OwnSteps(steps, i) == OwnSteps(steps, i);
  }

  // The step on which a request leaves without a session, and when it does:
  // only Try and Check refuse, only where no permit is free, Try only a request
  // that would not wait and Check only when queueing is disabled; and then they do.
  lemma RefusedExactly(cfg: Config, s: State, step: Step, i: nat)
    requires Enabled(cfg, s, step) && i < |s.requests| && s.requests[i].phase != Finished
    ensures i < |Do(cfg, s, step).requests|
    ensures Do(cfg, s, step).requests[i].phase == Finished <==>
            || (step == Try(i) && s.requests[i].noWait && s.c.held >= cfg.size)
            || (step == Check(i) && cfg.disabled && s.c.held >= cfg.size)
            || (step == LeaveQueue(i) && s.requests[i].phase == Abandoned)
            || step == DropPermit(i)
  {
    hide Do;
    if IsOwn(step, i) {
      OwnMoves(cfg, s, step, i);
    } else {
      OthersKeepLife(cfg, s, step, i);
    }
  }

  // So with queueing enabled a request that may wait is never refused: it
  // leaves without a session only by giving up itself or by being dropped.
  lemma NeverRefused(cfg: Config, s: State, protocol: Protocol, steps: seq<Step>)
    requires IsRun(cfg, s, [Arrive(protocol, false)] + steps) && !cfg.disabled
    requires At(After(cfg, s, [Arrive(protocol, false)] + steps), |s.requests|, Finished)
    ensures var own := OwnSteps(steps, |s.requests|); GiveUp(|s.requests|) in own || DropPermit(|s.requests|) in own
  {
    hide OwnSteps, ToServing, ToQueue;
    var i := |s.requests|;
    LifeExactly(cfg, s, protocol, false, steps);
    LastIn(ToQueue(false, false, i), GiveUp(i), LeaveQueue(i));
    LastIn(ToServing(false, false, i), DropPending(i), DropPermit(i));
  }

  lemma LastIn(own: seq<Step>, a: Step, b: Step)
    ensures a in own + [a, b] && b in own + [a, b]
  {
    assert (own + [a, b])[|own|] == a && (own + [a, b])[|own| + 1] == b;
  }

  // --------------------------------------------------- what the handlers do

  // The queue and map operations of a WebDriver handler's log, as steps
  function StepsOfLog(log: seq<Create.Action>, i: nat, id: string): seq<Step> {
    if log == [] then []
    else
      (match log[0]
       case Drop => DropPath(i)
       case Register => [Put(i, id)]
       case CreateSlot => [CreatePending(i), CreateUsed(i)]
       case _ => []) + StepsOfLog(log[1..], i, id)
  }

  lemma LogSteps(i: nat, id: string)
    ensures StepsOfLog([Create.Drop], i, id) == DropPath(i)
    ensures StepsOfLog([Create.StartService, Create.Drop, Create.CancelService], i, id) == DropPath(i)
    ensures StepsOfLog([Create.StartService, Create.Register, Create.CreateSlot], i, id) == CreatePath(i, id)
  {
    LogThree(Create.StartService, Create.Drop, Create.CancelService, i, id);
    LogThree(Create.StartService, Create.Register, Create.CreateSlot, i, id);
    assert [Create.Drop][1..] == [];
  }

  lemma LogThree(x: Create.Action, y: Create.Action, z: Create.Action, i: nat, id: string)
    ensures StepsOfLog([x, y, z], i, id) == StepsOfLog([x], i, id) + StepsOfLog([y], i, id) + StepsOfLog([z], i, id)
  {
    assert [x, y, z][1..] == [y, z] && [y, z][1..] == [z] && [z][1..] == [] && [x][1..] == [] && [y][1..] == [];
  }

  // Every exit of the WebDriver handler is one of the two ways on from
  // Serving: the second exactly when the service is started and registered.
  method ServeWebDriver(setup: Create.Setup, attempts: nat -> Create.Attempt, retryCount: int, emptyPath: bool,
                        reply: Create.Reply, i: nat, id: string) returns (own: seq<Step>)
    ensures own == if Create.Starts(setup) && Create.Registers(attempts, retryCount, emptyPath, reply)
                   then CreatePath(i, id) else DropPath(i)
    ensures Walk(Serving, own) == Some(if own == DropPath(i) then Finished else Live)
  {
    var log := Create.HandleCreate(setup, attempts, retryCount, emptyPath, reply);
    LogSteps(i, id);
    PathsWalk(i, id);
    own := StepsOfLog(log, i, id);
  }

  lemma PathsWalk(i: nat, id: string)
    ensures Walk(Serving, DropPath(i)) == Some(Finished) && Walk(Serving, CreatePath(i, id)) == Some(Live)
  {
    WalkCons(Dropping, DropPermit(i), []);
    WalkCons(Serving, DropPending(i), [DropPermit(i)]);
    WalkCons(Creating, CreateUsed(i), []);
    WalkCons(Registered, CreatePending(i), [CreateUsed(i)]);
    WalkCons(Serving, Put(i, id), [CreatePending(i), CreateUsed(i)]);
    assert [DropPermit(i)] + [] == [DropPermit(i)] && [CreateUsed(i)] + [] == [CreateUsed(i)];
    assert [DropPending(i)] + [DropPermit(i)] == DropPath(i);
    assert [CreatePending(i)] + [CreateUsed(i)] == [CreatePending(i), CreateUsed(i)];
    assert [Put(i, id)] + [CreatePending(i), CreateUsed(i)] == CreatePath(i, id);
  }

  lemma WalkCons(p: Phase, step: Step, more: seq<Step>)
    ensures Walk(p, [step] + more) ==
            match step
            case DropPending(_) => if p == Serving then Walk(Dropping, more) else None
            case DropPermit(_) => if p == Dropping then Walk(Finished, more) else None
            case Put(_, _) => if p == Serving then Walk(Registered, more) else None
            case CreatePending(_) => if p == Registered then Walk(Creating, more) else None
            case CreateUsed(_) => if p == Creating then Walk(Live, more) else None
            case _ => None
  {
    assert ([step] + more)[1..] == more;
  }

  // The steps by which resources given back reach the queue
  function StepsOfGiven(given: seq<Playwright.Resource>, i: nat): seq<Step> {
    if given == [] then []
    else (if given[0] == Playwright.Slot then DropPath(i) else []) + StepsOfGiven(given[1..], i)
  }

  // The same for the Playwright handler: what its early cleanup gives back is
  // one Drop, and after the hand-off Put and Create follow.
  method ServePlaywright(o: Playwright.Outcome, i: nat, id: string) returns (own: seq<Step>)
    ensures own == if Playwright.Reached(o) == 4 then CreatePath(i, id) else DropPath(i)
    ensures Walk(Serving, own) == Some(if own == DropPath(i) then Finished else Live)
  {
    var taken, given, handedOff := Playwright.Open(o);
    PathsWalk(i, id);
    own := StepsOfGiven(given, i);
    if handedOff {
      own := own + [Put(i, id)];
      own := own + [CreatePending(i), CreateUsed(i)];
    } else {
      GivenSteps(taken, i);
    }
  }

  // Giving back any first part of what is acquired, in reverse, is one Drop.
  lemma GivenSteps(taken: seq<Playwright.Resource>, i: nat)
    requires taken != [] && taken <= Playwright.ACQUIRED
    ensures StepsOfGiven(Playwright.Reversed(taken), i) == DropPath(i)
  {
    assert Playwright.ACQUIRED[1..] == [Playwright.Service, Playwright.Upstream, Playwright.Client];
    assert taken[0] == Playwright.Slot;
    forall k | 0 <= k < |taken[1..]|
      ensures taken[1..][k] != Playwright.Slot
    {
      assert taken[k + 1] == Playwright.ACQUIRED[k + 1];
    }
    GivenAfter(Playwright.Reversed(taken[1..]), i, Playwright.Slot);
    NoSlotReversed(taken[1..]);
    NoSlotSteps(Playwright.Reversed(taken[1..]), i);
    assert [Playwright.Slot][1..] == [];
  }

  lemma {:induction false} GivenAfter(given: seq<Playwright.Resource>, i: nat, r: Playwright.Resource)
    ensures StepsOfGiven(given + [r], i) == StepsOfGiven(given, i) + StepsOfGiven([r], i)
  {
    hide DropPath;
    var one := StepsOfGiven([r], i);
    if given == [] {
      assert given + [r] == [r] && [] + one == one;
    } else {
      GivenAfter(given[1..], i, r);
      var first := if given[0] == Playwright.Slot then DropPath(i) else [];
      assert (given + [r])[1..] == given[1..] + [r] && (given + [r])[0] == given[0];
      assert first + (StepsOfGiven(given[1..], i) + one) == first + StepsOfGiven(given[1..], i) + one;
    }
  }

  lemma {:induction false} NoSlotReversed(s: seq<Playwright.Resource>)
    requires Playwright.Slot !in s
    ensures Playwright.Slot !in Playwright.Reversed(s)
  {
    if s != [] {
      NoSlotReversed(s[1..]);
    }
  }

  lemma {:induction false} NoSlotSteps(given: seq<Playwright.Resource>, i: nat)
    requires Playwright.Slot !in given
    ensures StepsOfGiven(given, i) == []
  {
    if given != [] {
      NoSlotSteps(given[1..], i);
    }
  }
}
