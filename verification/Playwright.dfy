// The Playwright handler: what it acquires, and who gives it back.  Before the
// hand-off a deferred stack of cleanups does; after it a once-only closure,
// raced by the two tunnels, the idle watchdog, DELETE and server shutdown.
module Playwright {
  import opened Seqs

  datatype Resource = Slot | Service | Upstream | Client

  // What the handler acquires, in order.  The slot comes with the request.
  const ACQUIRED: seq<Resource> := [Slot, Service, Upstream, Client]

  function Reversed<T>(s: seq<T>): (r: seq<T>)
    ensures |r| == |s|
  {
    if s == [] then [] else Reversed(s[1..]) + [s[0]]
  }

  lemma {:induction false} ReversedAt<T>(s: seq<T>, i: nat)
    requires i < |s|
    ensures Reversed(s)[i] == s[|s| - 1 - i]
  {
    if i < |s| - 1 {
      ReversedAt(s[1..], i);
    }
  }

  // ----- Up to the hand-off -----

  // How each call the handler makes turns out.
  datatype Outcome = Outcome(
    pathOk: bool, upgradeAsked: bool, capsOk: bool, browserFound: bool,
    started: bool, hasUrl: bool, dialed: bool, idResolved: bool, upgraded: bool)

  // How many resources the handler gets hold of.
  function Reached(o: Outcome): nat {
    if !(o.pathOk && o.upgradeAsked && o.capsOk && o.browserFound && o.started) then 1
    else if !(o.hasUrl && o.dialed) then 2
    else if !(o.idResolved && o.upgraded) then 3
    else 4
  }

  // The deferred function: run the pushed cleanups, last one first.
  method RunDeferred(earlyCleanup: seq<Resource>) returns (given: seq<Resource>)
    ensures given == Reversed(earlyCleanup)
  {
    given := [];
    var i := |earlyCleanup| - 1;
    while i >= 0
      invariant -1 <= i < |earlyCleanup|
      invariant given == Reversed(earlyCleanup[i + 1..])
    {
      given := given + [earlyCleanup[i]];
      assert earlyCleanup[i..][1..] == earlyCleanup[i + 1..];
      i := i - 1;
    }
    assert earlyCleanup[0..] == earlyCleanup;
  }

  // The handler up to the hand-off or its early return.  `taken` is what it
  // acquired and `given` what it gave back, each in order.
  method Open(o: Outcome) returns (taken: seq<Resource>, given: seq<Resource>, handedOff: bool)
    ensures handedOff == (Reached(o) == |ACQUIRED|)
    ensures taken == ACQUIRED[..Reached(o)]
    ensures given == if handedOff then [] else Reversed(taken)
    ensures Slot in taken && (handedOff <==> Client in taken)
    ensures Service in taken <==> o.pathOk && o.upgradeAsked && o.capsOk && o.browserFound && o.started
    ensures Upstream in taken <==>
              o.pathOk && o.upgradeAsked && o.capsOk && o.browserFound && o.started && o.hasUrl && o.dialed
    ensures Client in taken <==>
              && o.pathOk && o.upgradeAsked && o.capsOk && o.browserFound && o.started && o.hasUrl && o.dialed
              && o.idResolved && o.upgraded
  {
    taken, given, handedOff := [Slot], [], false;
    if !o.pathOk || !o.upgradeAsked || !o.capsOk || !o.browserFound {
      given := [Slot];
      assert Reversed(taken) == [Slot];
      return;
    }
    var earlyCleanup := [Slot];
    if !o.started {
      given := RunDeferred(earlyCleanup);
      return;
    }
    taken := taken + [Service];
    earlyCleanup := earlyCleanup + [Service];
    if !o.hasUrl || !o.dialed {
      given := RunDeferred(earlyCleanup);
      return;
    }
    taken := taken + [Upstream];
    earlyCleanup := earlyCleanup + [Upstream];
    if !o.idResolved || !o.upgraded {
      given := RunDeferred(earlyCleanup);
      return;
    }
    taken := taken + [Client];
    earlyCleanup := [];
    given := RunDeferred(earlyCleanup);
    handedOff := true;
  }

  // ----- After the hand-off -----

  // sync.Once around the cleanup body; `next` is the step the body takes next.
  datatype Once = Idle | Running(next: BodyStep) | Done

  // The steps of the cleanup body.
  datatype BodyStep =
    | StopWatchdog | CloseSink | CloseClient | CloseUpstream | CancelService | FinishLog
    | Unlist | ReleaseSlot | Announce

  function Following(b: BodyStep): Once {
    match b
    case StopWatchdog => Running(CloseSink)
    case CloseSink => Running(CloseClient)
    case CloseClient => Running(CloseUpstream)
    case CloseUpstream => Running(CancelService)
    case CancelService => Running(FinishLog)
    case FinishLog => Running(Unlist)
    case Unlist => Running(ReleaseSlot)
    case ReleaseSlot => Running(Announce)
    case Announce => Done
  }

  function Gives(b: BodyStep): Option<Resource> {
    match b
    case CloseClient => Some(Client)
    case CloseUpstream => Some(Upstream)
    case CancelService => Some(Service)
    case ReleaseSlot => Some(Slot)
    case _ => None
  }

  // Where the handler itself stands.
  datatype Main = BeforePut | BeforeCreate | BeforeStart | AwaitFirst | InCleanup | AwaitSecond | Ended

  // A call of the cleanup from elsewhere: in it, or back from it.
  datatype Call = Inside | Back

  datatype Trigger = Timeout | Delete | Shutdown

  // A DELETE on the WebDriver path that found this session.
  datatype Foreign = Found | Unlisted | Released | CalledCancel

  datatype State = State(
    main: Main,
    once: Once,
    calls: seq<Call>,
    foreign: seq<Foreign>,
    listed: bool,
    ended: int,            // tunnels that have reported
    given: seq<Resource>)  // what has been given back, in order

  const HandedOff := State(BeforePut, Idle, [], [], false, 0, [])

  datatype Step =
    | Put | Create | Start
    | TunnelEnds            // a peer closed, or the other tunnel's failure reached this one
    | FirstResult | LeaveCleanup | SecondResult
    | Fire(t: Trigger)      // watchdog expiry, DELETE or shutdown calls the cleanup
    | EnterOnce             // some caller is first: the body starts
    | Body                  // the body's next step
    | ReturnFrom(i: nat)    // a caller other than the handler returns
    | ForeignFind | ForeignUnlist(i: nat) | ForeignRelease(i: nat) | ForeignCancel(i: nat)

  predicate Called(s: State) {
    s.main == InCleanup || exists i :: 0 <= i < |s.calls| && s.calls[i] == Inside
  }

  predicate Enabled(s: State, step: Step) {
    match step
    case Put => s.main == BeforePut
    case Create => s.main == BeforeCreate
    case Start => s.main == BeforeStart
    case TunnelEnds => s.ended < 2 && (s.main == AwaitFirst || s.main == InCleanup || s.main == AwaitSecond)
    case FirstResult => s.main == AwaitFirst && s.ended >= 1
    case LeaveCleanup => s.main == InCleanup && s.once == Done
    case SecondResult => s.main == AwaitSecond && s.ended >= 2
    case Fire(t) =>
      if t == Timeout then s.main == AwaitFirst || s.main == InCleanup || s.main == AwaitSecond
      else s.listed
    case EnterOnce => s.once == Idle && Called(s)
    case Body => s.once.Running?
    case ReturnFrom(i) => i < |s.calls| && s.calls[i] == Inside && s.once == Done
    case ForeignFind => s.listed
    case ForeignUnlist(i) => i < |s.foreign| && s.foreign[i] == Found
    case ForeignRelease(i) => i < |s.foreign| && s.foreign[i] == Unlisted
    case ForeignCancel(i) => i < |s.foreign| && s.foreign[i] == Released
  }

  function Do(s: State, step: Step): State
    requires Enabled(s, step)
  {
    match step
    case Put => s.(main := BeforeCreate, listed := true)
    case Create => s.(main := BeforeStart)
    case Start => s.(main := AwaitFirst)
    case TunnelEnds => s.(ended := s.ended + 1)
    case FirstResult => s.(main := InCleanup)
    case LeaveCleanup => s.(main := AwaitSecond)
    case SecondResult => s.(main := Ended)
    case Fire(t) => s.(calls := s.calls + [Inside])
    case EnterOnce => s.(once := Running(StopWatchdog))
    case Body =>
      var b := s.once.next;
      s.(once := Following(b),
         listed := s.listed && b != Unlist,
         given := match Gives(b) case None => s.given case Some(r) => s.given + [r])
    case ReturnFrom(i) => s.(calls := s.calls[i := Back])
    case ForeignFind => s.(foreign := s.foreign + [Found])
    case ForeignUnlist(i) => s.(foreign := s.foreign[i := Unlisted], listed := false)
    case ForeignRelease(i) => s.(foreign := s.foreign[i := Released], given := s.given + [Slot])
    case ForeignCancel(i) => s.(foreign := s.foreign[i := CalledCancel], calls := s.calls + [Inside])
  }

  predicate IsRun(s: State, steps: seq<Step>)
    decreases |steps|
  {
    steps == [] || (Enabled(s, steps[0]) && IsRun(Do(s, steps[0]), steps[1..]))
  }

  function After(s: State, steps: seq<Step>): State
    requires IsRun(s, steps)
    decreases |steps|
  {
    if steps == [] then s else After(Do(s, steps[0]), steps[1..])
  }

  // ----- The invariant -----

  // What the cleanup has given back, in order.
  function GivenBy(o: Once): seq<Resource> {
    match o
    case Idle => []
    case Running(StopWatchdog) => []
    case Running(CloseSink) => []
    case Running(CloseClient) => []
    case Running(CloseUpstream) => [Client]
    case Running(CancelService) => [Client, Upstream]
    case Running(FinishLog) => [Client, Upstream, Service]
    case Running(Unlist) => [Client, Upstream, Service]
    case Running(ReleaseSlot) => [Client, Upstream, Service]
    case Running(Announce) => [Client, Upstream, Service, Slot]
    case Done => [Client, Upstream, Service, Slot]
  }

  // The cleanup has not yet taken the session from the map.
  predicate StillListed(o: Once) {
    match o
    case Idle => true
    case Running(ReleaseSlot) => false
    case Running(Announce) => false
    case Running(_) => true
    case Done => false
  }

  predicate IsReleased(f: Foreign) {
    f == Released || f == CalledCancel
  }

  // WebDriver-path DELETEs that have released the slot.
  function ForeignReturns(fs: seq<Foreign>): nat {
    if fs == [] then 0 else ForeignReturns(fs[..|fs| - 1]) + (if IsReleased(fs[|fs| - 1]) then 1 else 0)
  }

  lemma {:induction false} ForeignReturnsUpdate(fs: seq<Foreign>, i: nat, f: Foreign)
    requires i < |fs|
    ensures ForeignReturns(fs[i := f]) ==
              ForeignReturns(fs) - (if IsReleased(fs[i]) then 1 else 0) + (if IsReleased(f) then 1 else 0)
  {
    var n := |fs| - 1;
    if i == n {
      assert fs[i := f][..n] == fs[..n];
    } else {
      assert fs[i := f][..n] == fs[..n][i := f];
      ForeignReturnsUpdate(fs[..n], i, f);
    }
  }

  function Is(r: Resource): Resource -> bool {
    x => x == r
  }

  function Times(s: seq<Resource>, r: Resource): nat {
    Count(s, Is(r))
  }

  // How often the cleanup has given back r.
  function CleanupTimes(o: Once, r: Resource): nat {
    if o == Idle then 0 else if o == Done then 1
    else
      match r
      case Client => (match o.next case StopWatchdog => 0 case CloseSink => 0 case CloseClient => 0 case _ => 1)
      case Upstream => (match o.next case StopWatchdog => 0 case CloseSink => 0 case CloseClient => 0
                                     case CloseUpstream => 0 case _ => 1)
      case Service => (match o.next case FinishLog => 1 case Unlist => 1 case ReleaseSlot => 1 case Announce => 1
                                    case _ => 0)
      case Slot => if o.next == Announce then 1 else 0
  }

  // r has been given back as often as the body and the WebDriver-path DELETEs did.
  predicate Accounted(s: State, r: Resource) {
    Times(s.given, r) == CleanupTimes(s.once, r) + (if r == Slot then ForeignReturns(s.foreign) else 0)
  }

  predicate Inv(s: State) {
    && (s.foreign == [] ==> s.given == GivenBy(s.once))
    && Accounted(s, Slot) && Accounted(s, Service) && Accounted(s, Upstream) && Accounted(s, Client)
    && (s.main == AwaitSecond || s.main == Ended ==> s.once == Done)
    && (forall i :: 0 <= i < |s.calls| && s.calls[i] == Back ==> s.once == Done)
    && (s.main == BeforePut ==> !s.listed && s.calls == [] && s.foreign == [] && s.once == Idle)
    && (s.listed ==> StillListed(s.once))
    && (s.once != Idle ==> s.main != BeforePut)
    && (s.main == InCleanup || s.main == AwaitSecond ==> s.ended >= 1)
    && (s.main == Ended ==> s.ended == 2)
    && (s.main == BeforePut || s.main == BeforeCreate || s.main == BeforeStart ==> s.ended == 0)
    && 0 <= s.ended <= 2
  }

  lemma BodyAt(b: BodyStep)
    ensures GivenBy(Following(b)) ==
              match Gives(b) case None => GivenBy(Running(b)) case Some(r) => GivenBy(Running(b)) + [r]
    ensures forall r :: CleanupTimes(Following(b), r) ==
              CleanupTimes(Running(b), r) + (if Gives(b) == Some(r) then 1 else 0)
    ensures StillListed(Following(b)) == (StillListed(Running(b)) && b != Unlist)
  {
  }

  lemma BodyAccounts(s: State, r: Resource)
    requires Enabled(s, Body) && Accounted(s, r)
    ensures Accounted(Do(s, Body), r)
  {
    BodyAt(s.once.next);
    if Gives(s.once.next).Some? {
      CountAppend(s.given, Gives(s.once.next).value, Is(r));
    }
  }

  lemma BodyKeeps(s: State)
    requires Inv(s) && Enabled(s, Body)
    ensures Inv(Do(s, Body))
  {
    BodyAt(s.once.next);
    BodyAccounts(s, Slot);
    BodyAccounts(s, Service);
    BodyAccounts(s, Upstream);
    BodyAccounts(s, Client);
  }

  lemma ForeignReleaseKeeps(s: State, i: nat)
    requires Inv(s) && Enabled(s, ForeignRelease(i))
    ensures Inv(Do(s, ForeignRelease(i)))
  {
    ForeignReturnsUpdate(s.foreign, i, Released);
    CountAppend(s.given, Slot, Is(Slot));
    CountAppend(s.given, Slot, Is(Service));
    CountAppend(s.given, Slot, Is(Upstream));
    CountAppend(s.given, Slot, Is(Client));
  }

  lemma ForeignKeeps(s: State, step: Step)
    requires Inv(s) && Enabled(s, step)
    requires step.ForeignFind? || step.ForeignUnlist? || step.ForeignCancel?
    ensures Inv(Do(s, step))
  {
    var t := Do(s, step);
    match step {
      case ForeignFind => assert t.foreign[..|s.foreign|] == s.foreign;
      case ForeignUnlist(i) => ForeignReturnsUpdate(s.foreign, i, Unlisted);
      case ForeignCancel(i) => ForeignReturnsUpdate(s.foreign, i, CalledCancel);
    }
    assert ForeignReturns(t.foreign) == ForeignReturns(s.foreign);
  }

  lemma StepKeeps(s: State, step: Step)
    requires Inv(s) && Enabled(s, step)
    ensures Inv(Do(s, step))
  {
    if step == Body {
      BodyKeeps(s);
    } else if step.ForeignRelease? {
      ForeignReleaseKeeps(s, step.i);
    } else if step.ForeignFind? || step.ForeignUnlist? || step.ForeignCancel? {
      ForeignKeeps(s, step);
    } else {
      assert Do(s, step).given == s.given;
    }
  }

  lemma {:induction false} RunKeeps(s: State, steps: seq<Step>)
    requires Inv(s) && IsRun(s, steps)
    ensures Inv(After(s, steps))
    decreases |steps|
  {
    if steps != [] {
      StepKeeps(s, steps[0]);
      RunKeeps(Do(s, steps[0]), steps[1..]);
    }
  }

  // ----- Main results -----

  // However the five triggers interleave, nothing is given back twice, and once
  // the handler or any caller of the cleanup has returned, everything acquired
  // has been given back in the reverse of the order it was acquired in; unless
  // a DELETE on the WebDriver path found the session.
  lemma GivenBackOnce(steps: seq<Step>)
    requires IsRun(HandedOff, steps)
    ensures var s := After(HandedOff, steps);
            && (s.foreign == [] ==> s.given <= Reversed(ACQUIRED))
            && (s.main == Ended || (exists i :: 0 <= i < |s.calls| && s.calls[i] == Back) ==>
                  s.once == Done && (s.foreign == [] ==> s.given == Reversed(ACQUIRED)))
  {
    RunKeeps(HandedOff, steps);
    ReversedAcquired();
  }

  lemma ReversedAcquired()
    ensures Reversed(ACQUIRED) == [Client, Upstream, Service, Slot]
    ensures forall o :: GivenBy(o) <= [Client, Upstream, Service, Slot]
  {
    forall i: nat | i < 4
      ensures Reversed(ACQUIRED)[i] == [Client, Upstream, Service, Slot][i]
    {
      ReversedAt(ACQUIRED, i);
    }
  }

  // The exact law with such DELETEs: after the handler has ended, the slot has
  // been given back once more for each of them that got through its Release,
  // everything else exactly once.  So "exactly once" holds for everything if
  // and only if no WebDriver-path DELETE released this session.
  lemma ExactGiveBacks(steps: seq<Step>)
    requires IsRun(HandedOff, steps) && After(HandedOff, steps).main == Ended
    ensures var s := After(HandedOff, steps);
            && (forall r :: Times(s.given, r) == 1 + (if r == Slot then ForeignReturns(s.foreign) else 0))
            && ((forall r :: Times(s.given, r) == 1) <==>
                  (forall i :: 0 <= i < |s.foreign| ==> !IsReleased(s.foreign[i])))
  {
    var s := After(HandedOff, steps);
    RunKeeps(HandedOff, steps);
    forall r
      ensures Times(s.given, r) == 1 + (if r == Slot then ForeignReturns(s.foreign) else 0)
    {
      assert Accounted(s, r);
    }
    NoForeignReturns(s.foreign);
    assert (forall r :: Times(s.given, r) == 1) <==> Times(s.given, Slot) == 1;
  }

  lemma {:induction false} NoForeignReturns(fs: seq<Foreign>)
    ensures ForeignReturns(fs) == 0 <==> forall i :: 0 <= i < |fs| ==> !IsReleased(fs[i])
  {
    if fs != [] {
      var front := fs[..|fs| - 1];
      NoForeignReturns(front);
      assert forall i :: 0 <= i < |front| ==> front[i] == fs[i];
    }
  }

  // The session leaves the map before the cleanup releases its slot.
  lemma ListedBeforeRelease(steps: seq<Step>)
    requires IsRun(HandedOff, steps) && After(HandedOff, steps).listed
    ensures var s := After(HandedOff, steps);
            StillListed(s.once) && Times(s.given, Slot) == ForeignReturns(s.foreign)
  {
    RunKeeps(HandedOff, steps);
  }

  // ----- The order of the cleanup -----

  // What the cleanup does, in order: the watchdog stops first; the log is
  // closed before and finished after the service that writes to it; the session
  // leaves the map before its slot is free; and that is announced last.
  const CLEANUP: seq<BodyStep> := [StopWatchdog, CloseSink, CloseClient, CloseUpstream, CancelService, FinishLog,
                                   Unlist, ReleaseSlot, Announce]

  // The steps the body has taken in a run
  function Taken(s: State, steps: seq<Step>): seq<BodyStep>
    requires IsRun(s, steps)
    decreases |steps|
  {
    if steps == [] then []
    else
      (if steps[0] == Body then [s.once.next] else []) + Taken(Do(s, steps[0]), steps[1..])
  }

  // How many that are.
  function Progressed(o: Once): nat {
    match o
    case Idle => 0
    case Running(StopWatchdog) => 0
    case Running(CloseSink) => 1
    case Running(CloseClient) => 2
    case Running(CloseUpstream) => 3
    case Running(CancelService) => 4
    case Running(FinishLog) => 5
    case Running(Unlist) => 6
    case Running(ReleaseSlot) => 7
    case Running(Announce) => 8
    case Done => 9
  }

  lemma BodyPlace(b: BodyStep)
    ensures var n := Progressed(Running(b)); n < 9 && CLEANUP[n] == b && Progressed(Following(b)) == n + 1
  {
  }

  lemma {:induction false} RunTakes(s: State, steps: seq<Step>)
    requires IsRun(s, steps)
    ensures var n := Progressed(s.once);
            var m := Progressed(After(s, steps).once);
            n <= m <= 9 && Taken(s, steps) == CLEANUP[n..m]
    decreases |steps|
  {
    hide Progressed;
    var n := Progressed(s.once);
    Places(s.once);
    if steps != [] {
      var t := Do(s, steps[0]);
      RunTakes(t, steps[1..]);
      var m := Progressed(After(s, steps).once);
      if steps[0] == Body {
        BodyPlace(s.once.next);
        assert [CLEANUP[n]] + CLEANUP[n + 1..m] == CLEANUP[n..m];
      } else {
        StartsAtNone();
        assert Progressed(t.once) == n;
      }
    }
  }

  lemma Places(o: Once)
    ensures Progressed(o) <= 9
  {
  }

  lemma StartsAtNone()
    ensures Progressed(Idle) == Progressed(Running(StopWatchdog)) == 0
  {
  }

  // However the triggers interleave, the cleanup's steps come in that order,
  // each once, and all of them by the time it is through.
  lemma CleanupInOrder(steps: seq<Step>)
    requires IsRun(HandedOff, steps)
    ensures Taken(HandedOff, steps) <= CLEANUP
    ensures After(HandedOff, steps).once == Done <==> Taken(HandedOff, steps) == CLEANUP
  {
    RunTakes(HandedOff, steps);
    var o := After(HandedOff, steps).once;
    var m := Progressed(o);
    assert CLEANUP[0..m] <= CLEANUP && |CLEANUP| == 9;
    if m == 9 {
      assert CLEANUP[0..9] == CLEANUP;
    }
  }

  // ----- The handler ends -----

  // The steps of the handler and of the cleanup's body, and a tunnel's end.
  predicate Progress(step: Step) {
    match step
    case Fire(_) => false case ReturnFrom(_) => false
    case ForeignFind => false case ForeignUnlist(_) => false case ForeignRelease(_) => false case ForeignCancel(_) => false
    case _ => true
  }

  function MainRank(m: Main): nat {
    match m
    case BeforePut => 6 case BeforeCreate => 5 case BeforeStart => 4 case AwaitFirst => 3
    case InCleanup => 2 case AwaitSecond => 1 case Ended => 0
  }

  function OnceRank(o: Once): nat {
    match o
    case Idle => 10
    case Running(StopWatchdog) => 9
    case Running(CloseSink) => 8
    case Running(CloseClient) => 7
    case Running(CloseUpstream) => 6
    case Running(CancelService) => 5
    case Running(FinishLog) => 4
    case Running(Unlist) => 3
    case Running(ReleaseSlot) => 2
    case Running(Announce) => 1
    case Done => 0
  }

  // What is left of such steps.
  function Rank(s: State): int {
    MainRank(s.main) + OnceRank(s.once) + (2 - s.ended)
  }

  lemma StepRank(s: State, step: Step)
    requires Inv(s) && Enabled(s, step)
    ensures Rank(Do(s, step)) == Rank(s) - (if Progress(step) then 1 else 0)
  {
    if step == Body {
      assert OnceRank(Following(s.once.next)) == OnceRank(s.once) - 1;
    }
  }

  function ProgressIn(steps: seq<Step>): nat {
    if steps == [] then 0 else (if Progress(steps[0]) then 1 else 0) + ProgressIn(steps[1..])
  }

  lemma {:induction false} RunRank(s: State, steps: seq<Step>)
    requires Inv(s) && IsRun(s, steps)
    ensures Inv(After(s, steps)) && Rank(After(s, steps)) == Rank(s) - ProgressIn(steps)
    decreases |steps|
  {
    hide Inv, Enabled, Do, Rank;
    if steps != [] {
      StepKeeps(s, steps[0]);
      StepRank(s, steps[0]);
      RunRank(Do(s, steps[0]), steps[1..]);
    }
  }

  // The handler waits for a tunnel.
  predicate AwaitsTunnel(s: State) {
    (s.main == AwaitFirst && s.ended == 0) || (s.main == AwaitSecond && s.ended == 1)
  }

  lemma CanProgress(s: State) returns (step: Step)
    requires Inv(s) && s.main != Ended
    ensures Enabled(s, step) && Progress(step)
    ensures step == TunnelEnds <==> AwaitsTunnel(s)
  {
    step := match s.main
      case BeforePut => Put
      case BeforeCreate => Create
      case BeforeStart => Start
      case AwaitFirst => if s.ended >= 1 then FirstResult else TunnelEnds
      case InCleanup => if s.once == Idle then EnterOnce else if s.once == Done then LeaveCleanup else Body
      case AwaitSecond => if s.ended >= 2 then SecondResult else TunnelEnds
      case Ended => Put;
  }

  // Whatever the triggers do, the handler has ended exactly when eighteen steps
  // of its own, of the cleanup and of the tunnels have been taken; until then
  // there is one to take.  It is the end of a tunnel only where the handler
  // waits for one, and once the cleanup is through both ends of that tunnel
  // have been closed.
  lemma HandlerEnds(steps: seq<Step>)
    requires IsRun(HandedOff, steps)
    ensures var s := After(HandedOff, steps);
            && 0 <= Rank(s) == 18 - ProgressIn(steps)
            && (s.main == Ended <==> ProgressIn(steps) == 18)
            && (s.main != Ended ==> exists step ::
                  Enabled(s, step) && Progress(step) && (step == TunnelEnds <==> AwaitsTunnel(s)))
            && (s.main == AwaitSecond ==> s.once == Done)
            && (s.once == Done ==> Client in s.given && Upstream in s.given)
  {
    var s := After(HandedOff, steps);
    RunRank(HandedOff, steps);
    if s.main != Ended {
      var step := CanProgress(s);
    }
    if s.once == Done {
      assert Accounted(s, Client) && Accounted(s, Upstream);
      GivenOnce(s.given, Client);
      GivenOnce(s.given, Upstream);
    }
  }

  lemma GivenOnce(given: seq<Resource>, r: Resource)
    ensures Times(given, r) > 0 ==> r in given
  {
    if r !in given {
      CountNone(given, Is(r));
    }
  }

  // From any state of a run the remaining steps, and nothing else, bring the
  // handler to its end.
  lemma {:induction false} CanFinish(s: State) returns (more: seq<Step>)
    requires Inv(s)
    ensures IsRun(s, more) && After(s, more).main == Ended
    ensures |more| == Rank(s) && ProgressIn(more) == |more|
    decreases Rank(s) + 1
  {
    hide Inv, Enabled, Do;
    more := [];
    if s.main == Ended {
      EndedRank(s);
    } else {
      var step := CanProgress(s);
      StepKeeps(s, step);
      StepRank(s, step);
      RankAtLeastZero(s);
      var rest := CanFinish(Do(s, step));
      more := [step] + rest;
      assert more[1..] == rest;
    }
  }

  lemma EndedRank(s: State)
    requires Inv(s) && s.main == Ended
    ensures Rank(s) == 0
  {
  }

  lemma RankAtLeastZero(s: State)
    requires Inv(s)
    ensures Rank(s) >= 0
  {
  }
}
