// Every request the server has seen, each at its own point of the protocol,
// together with the DELETE calls that end sessions.  One step is one atomic
// operation of the program; steps of different requests interleave freely.
module Slots {
  import opened Gauges
  import opened Seqs

  datatype Config = Config(size: int, disabled: bool)

  datatype Protocol = WebDriver | Playwright

  // Where a request's own handler stands.
  datatype Phase =
    | AtTry | TryProbe | AtCheck | CheckProbe | AtProtect
    | Waiting       // in Acquire
    | Granted       // permit taken, still counted as queued
    | Abandoned     // Acquire failed, still counted as queued
    | Admitted      // no longer queued, not yet pending
    | Serving       // inside `create` or `playwright`
    | Dropping      // inside Drop, between its two atomics
    | Registered    // in the session map, Create not begun
    | Creating      // inside Create, between its two atomics
    | Live          // the session exists
    | Finished      // left without a session

  // How far a release of a session has come.  A Playwright cleanup and a
  // WebDriver DELETE pass the same stages.
  datatype Stage = Idle | Found | Unlisted | Uncounted | Returned | Cancelled

  datatype Request = Request(
    protocol: Protocol,
    noWait: bool,
    phase: Phase,
    sid: string,
    cleanup: Stage,   // the one run of cleanupOnce's body
    usedDowns: nat,   // times a release decremented `used` for this session
    permitsBack: nat) // times a release returned this session's permit

  // A DELETE on the WebDriver path, from its lookup of a session on.
  datatype Delete = Delete(target: nat, at: Stage)

  datatype State = State(
    c: Counters,
    requests: seq<Request>,
    deletes: seq<Delete>,
    sessions: map<string, nat>)

  const Init := State(Counters(0, 0, 0, 0), [], [], map[])

  datatype Step =
    | Arrive(protocol: Protocol, noWait: bool)
    | Try(i: nat) | EndTryProbe(i: nat) | Check(i: nat) | EndCheckProbe(i: nat)
    | Enqueue(i: nat) | Acquire(i: nat) | GiveUp(i: nat) | LeaveQueue(i: nat) | Admit(i: nat)
    | DropPending(i: nat) | DropPermit(i: nat)
    | Put(i: nat, id: string) | CreatePending(i: nat) | CreateUsed(i: nat)
    | CleanupBegin(i: nat) | CleanupRemove(i: nat) | CleanupUsed(i: nat) | CleanupPermit(i: nat)
    | DeleteFind(id: string) | DeleteRemove(d: nat) | DeleteUsed(d: nat) | DeletePermit(d: nat)
    | DeleteCancel(d: nat)

  // The session has been put in the map.
  predicate IsPut(p: Phase) {
    p == Registered || p == Creating || p == Live
  }

  predicate At(s: State, i: nat, p: Phase) {
    i < |s.requests| && s.requests[i].phase == p
  }

  predicate CleanupAt(s: State, i: nat, g: Stage) {
    i < |s.requests| && s.requests[i].cleanup == g
  }

  predicate DeleteAt(s: State, d: nat, g: Stage) {
    d < |s.deletes| && s.deletes[d].at == g && s.deletes[d].target < |s.requests|
  }

  predicate Enabled(cfg: Config, s: State, step: Step) {
    match step
    case Arrive(_, _) => true
    case Try(i) => At(s, i, AtTry)
    case EndTryProbe(i) => At(s, i, TryProbe)
    case Check(i) => At(s, i, AtCheck)
    case EndCheckProbe(i) => At(s, i, CheckProbe)
    case Enqueue(i) => At(s, i, AtProtect)
    case Acquire(i) => At(s, i, Waiting) && s.c.held < cfg.size
    case GiveUp(i) => At(s, i, Waiting)
    case LeaveQueue(i) => At(s, i, Granted) || At(s, i, Abandoned)
    case Admit(i) => At(s, i, Admitted)
    case DropPending(i) => At(s, i, Serving)
    case DropPermit(i) => At(s, i, Dropping)
    case Put(i, id) => At(s, i, Serving)
    case CreatePending(i) => At(s, i, Registered)
    case CreateUsed(i) => At(s, i, Creating)
    case CleanupBegin(i) =>
      CleanupAt(s, i, Idle) && s.requests[i].protocol == Playwright && IsPut(s.requests[i].phase)
    case CleanupRemove(i) => CleanupAt(s, i, Found)
    case CleanupUsed(i) => CleanupAt(s, i, Unlisted)
    case CleanupPermit(i) => CleanupAt(s, i, Uncounted)
    case DeleteFind(id) => id in s.sessions
    case DeleteRemove(d) => DeleteAt(s, d, Found)
    case DeleteUsed(d) => DeleteAt(s, d, Unlisted)
    case DeletePermit(d) => DeleteAt(s, d, Uncounted)
    // The DELETE ends by calling the session's Cancel.  A Playwright Cancel
    // returns only once the cleanup body has run.
    case DeleteCancel(d) =>
      DeleteAt(s, d, Returned) &&
      (s.requests[s.deletes[d].target].protocol == Playwright ==>
         CleanupAt(s, s.deletes[d].target, Returned))
  }

  // Request i moves to phase p and the counters become c.
  function Move(s: State, i: nat, p: Phase, c: Counters): State
    requires i < |s.requests|
  {
    s.(c := c, requests := s.requests[i := s.requests[i].(phase := p)])
  }

  function Clean(s: State, i: nat, g: Stage): State
    requires i < |s.requests|
  {
    s.(requests := s.requests[i := s.requests[i].(cleanup := g)])
  }

  function MoveDelete(s: State, d: nat, g: Stage): State
    requires d < |s.deletes|
  {
    s.(deletes := s.deletes[d := s.deletes[d].(at := g)])
  }

  // used.Add(-1) in a Release for session i; g is the cleanup's stage after it
  function Uncount(s: State, i: nat, g: Stage): State
    requires i < |s.requests|
  {
    var r := s.requests[i];
    s.(c := s.c.Uses(-1), requests := s.requests[i := r.(usedDowns := r.usedDowns + 1, cleanup := g)])
  }

  // limit.Release(1) in a Release for session i; g is the cleanup's stage after it
  function ReturnPermit(s: State, i: nat, g: Stage): State
    requires i < |s.requests|
  {
    var r := s.requests[i];
    s.(c := s.c.Permits(-1), requests := s.requests[i := r.(permitsBack := r.permitsBack + 1, cleanup := g)])
  }

  function Unlist(s: State, i: nat): State
    requires i < |s.requests|
  {
    s.(sessions := s.sessions - {s.requests[i].sid})
  }

  // The steps of a request's own handler, other than arriving and Put.
  predicate IsMove(step: Step) {
    match step
    case Arrive(_, _) => false case Put(_, _) => false
    case CleanupBegin(_) => false case CleanupRemove(_) => false case CleanupUsed(_) => false
    case CleanupPermit(_) => false
    case DeleteFind(_) => false case DeleteRemove(_) => false case DeleteUsed(_) => false
    case DeletePermit(_) => false case DeleteCancel(_) => false
    case _ => true
  }

  function Mover(step: Step): nat
    requires IsMove(step)
  {
    match step
    case Try(i) => i case EndTryProbe(i) => i case Check(i) => i case EndCheckProbe(i) => i
    case Enqueue(i) => i case Acquire(i) => i case GiveUp(i) => i case LeaveQueue(i) => i
    case Admit(i) => i case DropPending(i) => i case DropPermit(i) => i
    case CreatePending(i) => i case CreateUsed(i) => i
  }

  // Where such a step takes the request, and the counters after it.
  function Next(cfg: Config, from: Phase, noWait: bool, c: Counters, step: Step): (Phase, Counters)
    requires IsMove(step)
  {
    match step
    case Try(_) =>
      if !noWait then (AtCheck, c) else if c.held < cfg.size then (TryProbe, c.Permits(1)) else (Finished, c)
    case EndTryProbe(_) => (AtCheck, c.Permits(-1))
    case Check(_) =>
      if !cfg.disabled then (AtProtect, c)
      else if c.held < cfg.size then (CheckProbe, c.Permits(1)) else (Finished, c)
    case EndCheckProbe(_) => (AtProtect, c.Permits(-1))
    case Enqueue(_) => (Waiting, c.Queues(1))
    case Acquire(_) => (Granted, c.Permits(1))
    case GiveUp(_) => (Abandoned, c)
    case LeaveQueue(_) => (if from == Granted then Admitted else Finished, c.Queues(-1))
    case Admit(_) => (Serving, c.Pendings(1))
    case DropPending(_) => (Dropping, c.Pendings(-1))
    case DropPermit(_) => (Finished, c.Permits(-1))
    case CreatePending(_) => (Creating, c.Pendings(-1))
    case CreateUsed(_) => (Live, c.Uses(1))
  }

  function Do(cfg: Config, s: State, step: Step): State
    requires Enabled(cfg, s, step)
  {
    if IsMove(step) then
      var i := Mover(step);
      var (p, c) := Next(cfg, s.requests[i].phase, s.requests[i].noWait, s.c, step);
      Move(s, i, p, c)
    else
      match step
      case Arrive(p, noWait) =>
        s.(requests := s.requests + [Request(p, noWait, AtTry, "", Idle, 0, 0)])
      case Put(i, id) =>
        var r := s.requests[i];
        s.(requests := s.requests[i := r.(phase := Registered, sid := id)], sessions := s.sessions[id := i])
      case CleanupBegin(i) => Clean(s, i, Found)
      case CleanupRemove(i) => Unlist(Clean(s, i, Unlisted), i)
      case CleanupUsed(i) => Uncount(s, i, Uncounted)
      case CleanupPermit(i) => ReturnPermit(s, i, Returned)
      case DeleteFind(id) => s.(deletes := s.deletes + [Delete(s.sessions[id], Found)])
      case DeleteRemove(d) => Unlist(MoveDelete(s, d, Unlisted), s.deletes[d].target)
      case DeleteUsed(d) =>
        var i := s.deletes[d].target;
        Uncount(MoveDelete(s, d, Uncounted), i, s.requests[i].cleanup)
      case DeletePermit(d) =>
        var i := s.deletes[d].target;
        ReturnPermit(MoveDelete(s, d, Returned), i, s.requests[i].cleanup)
      case DeleteCancel(d) => MoveDelete(s, d, Cancelled)
  }

  // A run from s: every step enabled where it is taken.
  predicate IsRun(cfg: Config, s: State, steps: seq<Step>)
    decreases |steps|
  {
    steps == [] || (Enabled(cfg, s, steps[0]) && IsRun(cfg, Do(cfg, s, steps[0]), steps[1..]))
  }

  function After(cfg: Config, s: State, steps: seq<Step>): State
    requires IsRun(cfg, s, steps)
    decreases |steps|
  {
    if steps == [] then s else After(cfg, Do(cfg, s, steps[0]), steps[1..])
  }

  // ----- What each request adds to the counters -----

  function Takes(p: Phase): (n: int)
    ensures 0 <= n <= 1
  {
    match p
    case AtTry => 0 case AtCheck => 0 case AtProtect => 0 case Waiting => 0 case Abandoned => 0
    case Finished => 0
    case _ => 1
  }

  function Uses(p: Phase): int {
    if p == Live then 1 else 0
  }

  function Pends(p: Phase): int {
    if p == Serving || p == Registered then 1 else 0
  }

  function Queues(p: Phase): int {
    if p == Waiting || p == Granted || p == Abandoned then 1 else 0
  }

  function Share(r: Request): Counters {
    Counters(Takes(r.phase) - r.permitsBack, Uses(r.phase) - r.usedDowns, Pends(r.phase), Queues(r.phase))
  }

  // The sum of a contribution over all requests.
  function Total(rs: seq<Request>, share: Request -> Counters): Counters {
    if rs == [] then Counters(0, 0, 0, 0)
    else
      var t, x := Total(rs[..|rs| - 1], share), share(rs[|rs| - 1]);
      Counters(t.held + x.held, t.used + x.used, t.pending + x.pending, t.queued + x.queued)
  }

  // a - b == c - d, in every component
  predicate SameChange(a: Counters, b: Counters, c: Counters, d: Counters) {
    && a.held - b.held == c.held - d.held
    && a.used - b.used == c.used - d.used
    && a.pending - b.pending == c.pending - d.pending
    && a.queued - b.queued == c.queued - d.queued
  }

  lemma {:induction false} TotalUpdate(rs: seq<Request>, i: nat, r: Request, share: Request -> Counters)
    requires i < |rs|
    ensures SameChange(Total(rs[i := r], share), Total(rs, share), share(r), share(rs[i]))
  {
    var n := |rs| - 1;
    if i == n {
      assert rs[i := r][..n] == rs[..n];
    } else {
      assert rs[i := r][..n] == rs[..n][i := r];
      TotalUpdate(rs[..n], i, r, share);
    }
  }

  lemma TotalAppend(rs: seq<Request>, r: Request, share: Request -> Counters)
    requires share(r) == Counters(0, 0, 0, 0)
    ensures Total(rs + [r], share) == Total(rs, share)
  {
    assert (rs + [r])[..|rs|] == rs;
  }

  // ----- DELETE calls that have passed a stage -----

  // The release has decremented `used`.
  predicate Uncounts(g: Stage) {
    g == Uncounted || g == Returned || g == Cancelled
  }

  // The release has also returned the permit.
  predicate Returns(g: Stage) {
    g == Returned || g == Cancelled
  }

  function UncountedFor(i: nat): Delete -> bool {
    (d: Delete) => d.target == i && Uncounts(d.at)
  }

  function ReturnedFor(i: nat): Delete -> bool {
    (d: Delete) => d.target == i && Returns(d.at)
  }

  // ----- The invariant of every run -----

  // Session id k may stand in the map for request r.
  predicate Listed(r: Request, k: string) {
    IsPut(r.phase) && r.sid == k && (r.cleanup == Idle || r.cleanup == Found)
  }

  // The release counts of request i are exactly what its releasers did.
  predicate Consistent(ds: seq<Delete>, i: nat, r: Request) {
    && (r.cleanup != Idle ==> r.protocol == Playwright && IsPut(r.phase))
    && r.cleanup != Cancelled
    && r.usedDowns == Count(ds, UncountedFor(i)) + (if Uncounts(r.cleanup) then 1 else 0)
    && r.permitsBack == Count(ds, ReturnedFor(i)) + (if Returns(r.cleanup) then 1 else 0)
  }

  predicate DeleteOk(r: Request, d: Delete) {
    && d.at != Idle
    && IsPut(r.phase)
    && (d.at == Cancelled && r.protocol == Playwright ==> r.cleanup == Returned)
  }

  predicate Inv(cfg: Config, s: State) {
    && s.c == Total(s.requests, Share)
    && (s.c.held <= cfg.size || s.c.held <= 0)
    && (forall i :: 0 <= i < |s.requests| ==> Consistent(s.deletes, i, s.requests[i]))
    && (forall d :: 0 <= d < |s.deletes| ==>
          s.deletes[d].target < |s.requests| && DeleteOk(s.requests[s.deletes[d].target], s.deletes[d]))
    && (forall k :: k in s.sessions ==>
          s.sessions[k] < |s.requests| && Listed(s.requests[s.sessions[k]], k))
    && (forall k, d :: k in s.sessions && 0 <= d < |s.deletes| && s.deletes[d].target == s.sessions[k] ==>
          s.deletes[d].at == Found)
  }

  lemma ArriveKeeps(cfg: Config, s: State, p: Protocol, noWait: bool)
    requires Inv(cfg, s)
    ensures Inv(cfg, Do(cfg, s, Arrive(p, noWait)))
  {
    hide Total, Count;
    var t := Do(cfg, s, Arrive(p, noWait));
    var n := |s.requests|;
    TotalAppend(s.requests, t.requests[n], Share);
    CountNone(s.deletes, UncountedFor(n));
    CountNone(s.deletes, ReturnedFor(n));
  }

  // A step of request i's own handler, other than Put.
  lemma MoveKeeps(cfg: Config, s: State, i: nat, p: Phase, c: Counters)
    requires Inv(cfg, s) && i < |s.requests|
    requires IsPut(s.requests[i].phase) == IsPut(p)
    requires SameChange(c, s.c, Share(s.requests[i].(phase := p)), Share(s.requests[i]))
    requires c.held <= s.c.held || c.held <= cfg.size
    ensures Inv(cfg, Move(s, i, p, c))
  {
    hide Total, Count;
    TotalUpdate(s.requests, i, s.requests[i].(phase := p), Share);
  }

  lemma PutKeeps(cfg: Config, s: State, i: nat, id: string)
    requires Inv(cfg, s) && Enabled(cfg, s, Put(i, id))
    ensures Inv(cfg, Do(cfg, s, Put(i, id)))
  {
    hide Total, Count;
    var t := Do(cfg, s, Put(i, id));
    TotalUpdate(s.requests, i, t.requests[i], Share);
    assert Consistent(s.deletes, i, s.requests[i]);
  }

  // A release replaces request i by r, which differs in its cleanup and its
  // release counts only; DELETE calls keep their targets.
  lemma ReleaseKeeps(cfg: Config, s: State, t: State, i: nat, r: Request)
    requires Inv(cfg, s) && i < |s.requests|
    requires r == s.requests[i].(cleanup := r.cleanup, usedDowns := r.usedDowns, permitsBack := r.permitsBack)
    requires s.requests[i].cleanup == Returned ==> r.cleanup == Returned
    requires t.requests == s.requests[i := r]
    requires SameChange(t.c, s.c, Share(r), Share(s.requests[i])) && t.c.held <= s.c.held
    requires t.sessions == s.sessions || t.sessions == s.sessions - {r.sid}
    requires r.cleanup == Idle || r.cleanup == Found || r.sid !in t.sessions || t.sessions[r.sid] != i
    requires forall j :: 0 <= j < |s.requests| ==> Consistent(t.deletes, j, t.requests[j])
    requires |t.deletes| == |s.deletes|
    requires forall d :: 0 <= d < |s.deletes| ==> t.deletes[d].target == s.deletes[d].target
    requires forall d :: 0 <= d < |s.deletes| && t.deletes[d] != s.deletes[d] ==>
               && t.deletes[d].target == i && t.deletes[d].at != Idle
               && (s.deletes[d].at == Found ==> r.sid !in t.sessions)
               && (t.deletes[d].at == Cancelled && r.protocol == Playwright ==> r.cleanup == Returned)
    ensures Inv(cfg, t)
  {
    hide Total, Count;
    TotalUpdate(s.requests, i, r, Share);
    forall d | 0 <= d < |t.deletes|
      ensures DeleteOk(t.requests[t.deletes[d].target], t.deletes[d])
    {
      assert DeleteOk(s.requests[s.deletes[d].target], s.deletes[d]);
    }
    forall k | k in t.sessions
      ensures t.sessions[k] < |t.requests| && Listed(t.requests[t.sessions[k]], k)
    {
      assert Listed(s.requests[s.sessions[k]], k);
    }
  }

  // A cleanup moves on to the stage r.cleanup.
  lemma CleanupMoves(cfg: Config, s: State, t: State, i: nat, r: Request)
    requires Inv(cfg, s) && i < |s.requests|
    requires r == s.requests[i].(cleanup := r.cleanup, usedDowns := r.usedDowns, permitsBack := r.permitsBack)
    requires r.protocol == Playwright && IsPut(r.phase)
    requires match s.requests[i].cleanup
             case Idle => r.cleanup == Found
             case Found => r.cleanup == Unlisted
             case Unlisted => r.cleanup == Uncounted
             case Uncounted => r.cleanup == Returned
             case _ => false
    requires t.requests == s.requests[i := r] && t.deletes == s.deletes
    requires t.sessions == if r.cleanup == Unlisted then s.sessions - {r.sid} else s.sessions
    requires r.usedDowns == s.requests[i].usedDowns + (if r.cleanup == Uncounted then 1 else 0)
    requires r.permitsBack == s.requests[i].permitsBack + (if r.cleanup == Returned then 1 else 0)
    requires SameChange(t.c, s.c, Share(r), Share(s.requests[i])) && t.c.held <= s.c.held
    ensures Inv(cfg, t)
  {
    hide Total, Count;
    assert Consistent(s.deletes, i, s.requests[i]);
    if r.sid in s.sessions && s.sessions[r.sid] == i {
      assert Listed(s.requests[i], r.sid);
    }
    ReleaseKeeps(cfg, s, t, i, r);
  }

  lemma CleanupBeginKeeps(cfg: Config, s: State, i: nat)
    requires Inv(cfg, s) && Enabled(cfg, s, CleanupBegin(i))
    ensures Inv(cfg, Do(cfg, s, CleanupBegin(i)))
  {
    hide Total, Count;
    CleanupMoves(cfg, s, Do(cfg, s, CleanupBegin(i)), i, s.requests[i].(cleanup := Found));
  }

  lemma CleanupRemoveKeeps(cfg: Config, s: State, i: nat)
    requires Inv(cfg, s) && Enabled(cfg, s, CleanupRemove(i))
    ensures Inv(cfg, Do(cfg, s, CleanupRemove(i)))
  {
    hide Total, Count;
    assert Consistent(s.deletes, i, s.requests[i]);
    CleanupMoves(cfg, s, Do(cfg, s, CleanupRemove(i)), i, s.requests[i].(cleanup := Unlisted));
  }

  lemma CleanupUsedKeeps(cfg: Config, s: State, i: nat)
    requires Inv(cfg, s) && Enabled(cfg, s, CleanupUsed(i))
    ensures Inv(cfg, Do(cfg, s, CleanupUsed(i)))
  {
    hide Total, Count;
    assert Consistent(s.deletes, i, s.requests[i]);
    CleanupMoves(cfg, s, Do(cfg, s, CleanupUsed(i)), i,
                 s.requests[i].(cleanup := Uncounted, usedDowns := s.requests[i].usedDowns + 1));
  }

  lemma CleanupPermitKeeps(cfg: Config, s: State, i: nat)
    requires Inv(cfg, s) && Enabled(cfg, s, CleanupPermit(i))
    ensures Inv(cfg, Do(cfg, s, CleanupPermit(i)))
  {
    hide Total, Count;
    assert Consistent(s.deletes, i, s.requests[i]);
    CleanupMoves(cfg, s, Do(cfg, s, CleanupPermit(i)), i,
                 s.requests[i].(cleanup := Returned, permitsBack := s.requests[i].permitsBack + 1));
  }

  lemma DeleteFindKeeps(cfg: Config, s: State, id: string)
    requires Inv(cfg, s) && id in s.sessions
    ensures Inv(cfg, Do(cfg, s, DeleteFind(id)))
  {
    hide Total, Count;
    var t := Do(cfg, s, DeleteFind(id));
    var d := Delete(s.sessions[id], Found);
    assert Listed(s.requests[s.sessions[id]], id);
    assert DeleteOk(s.requests[d.target], d);
    forall j | 0 <= j < |t.requests|
      ensures Consistent(t.deletes, j, t.requests[j])
    {
      assert Consistent(s.deletes, j, s.requests[j]);
      CountAppend(s.deletes, d, UncountedFor(j));
      CountAppend(s.deletes, d, ReturnedFor(j));
    }
    forall e | 0 <= e < |t.deletes|
      ensures t.deletes[e].target < |t.requests| && DeleteOk(t.requests[t.deletes[e].target], t.deletes[e])
    {
      assert e < |s.deletes| ==> t.deletes[e] == s.deletes[e];
    }
    forall k, e | k in t.sessions && 0 <= e < |t.deletes| && t.deletes[e].target == t.sessions[k]
      ensures t.deletes[e].at == Found
    {
      assert e < |s.deletes| ==> t.deletes[e] == s.deletes[e];
    }
  }

  // DELETE d moves on to stage g; r is its session's request afterwards.
  lemma DeleteMoves(cfg: Config, s: State, t: State, d: nat, g: Stage, r: Request)
    requires Inv(cfg, s) && d < |s.deletes| && t.deletes == s.deletes[d := s.deletes[d].(at := g)]
    requires match s.deletes[d].at
             case Found => g == Unlisted
             case Unlisted => g == Uncounted
             case Uncounted => g == Returned
             case Returned => g == Cancelled
             case _ => false
    requires r == s.requests[s.deletes[d].target].(usedDowns := r.usedDowns, permitsBack := r.permitsBack)
    requires t.requests == s.requests[s.deletes[d].target := r]
    requires SameChange(t.c, s.c, Share(r), Share(s.requests[s.deletes[d].target])) && t.c.held <= s.c.held
    requires t.sessions == if g == Unlisted then s.sessions - {r.sid} else s.sessions
    requires r.usedDowns == s.requests[s.deletes[d].target].usedDowns + (if g == Uncounted then 1 else 0)
    requires r.permitsBack == s.requests[s.deletes[d].target].permitsBack + (if g == Returned then 1 else 0)
    requires g == Cancelled && r.protocol == Playwright ==> r.cleanup == Returned
    ensures Inv(cfg, t)
  {
    hide Total, Count;
    var i := s.deletes[d].target;
    assert DeleteOk(s.requests[i], s.deletes[d]);
    forall j | 0 <= j < |t.requests|
      ensures Consistent(t.deletes, j, t.requests[j])
    {
      assert Consistent(s.deletes, j, s.requests[j]);
      CountUpdate(s.deletes, d, t.deletes[d], UncountedFor(j));
      CountUpdate(s.deletes, d, t.deletes[d], ReturnedFor(j));
    }
    if r.sid in s.sessions && s.sessions[r.sid] == i {
      assert Listed(s.requests[i], r.sid);
    }
    ReleaseKeeps(cfg, s, t, i, r);
  }

  lemma DeleteRemoveKeeps(cfg: Config, s: State, d: nat)
    requires Inv(cfg, s) && Enabled(cfg, s, DeleteRemove(d))
    ensures Inv(cfg, Do(cfg, s, DeleteRemove(d)))
  {
    var r := s.requests[s.deletes[d].target];
    DeleteMoves(cfg, s, Do(cfg, s, DeleteRemove(d)), d, Unlisted, r);
  }

  lemma DeleteUsedKeeps(cfg: Config, s: State, d: nat)
    requires Inv(cfg, s) && Enabled(cfg, s, DeleteUsed(d))
    ensures Inv(cfg, Do(cfg, s, DeleteUsed(d)))
  {
    hide Total, Count;
    var r := s.requests[s.deletes[d].target];
    DeleteMoves(cfg, s, Do(cfg, s, DeleteUsed(d)), d, Uncounted, r.(usedDowns := r.usedDowns + 1));
  }

  lemma DeletePermitKeeps(cfg: Config, s: State, d: nat)
    requires Inv(cfg, s) && Enabled(cfg, s, DeletePermit(d))
    ensures Inv(cfg, Do(cfg, s, DeletePermit(d)))
  {
    hide Total, Count;
    var r := s.requests[s.deletes[d].target];
    DeleteMoves(cfg, s, Do(cfg, s, DeletePermit(d)), d, Returned, r.(permitsBack := r.permitsBack + 1));
  }

  lemma DeleteCancelKeeps(cfg: Config, s: State, d: nat)
    requires Inv(cfg, s) && Enabled(cfg, s, DeleteCancel(d))
    ensures Inv(cfg, Do(cfg, s, DeleteCancel(d)))
  {
    hide Total, Count;
    var r := s.requests[s.deletes[d].target];
    DeleteMoves(cfg, s, Do(cfg, s, DeleteCancel(d)), d, Cancelled, r);
  }

  lemma ShareMoves(r: Request, p: Phase)
    ensures SameChange(Share(r.(phase := p)), Share(r),
                       Counters(Takes(p), Uses(p), Pends(p), Queues(p)),
                       Counters(Takes(r.phase), Uses(r.phase), Pends(r.phase), Queues(r.phase)))
  {
  }

  // A handler's own step changes the counters by its request's share, nothing else.
  lemma NextShare(cfg: Config, s: State, step: Step)
    requires Enabled(cfg, s, step) && IsMove(step)
    ensures Mover(step) < |s.requests|
    ensures var r := s.requests[Mover(step)];
            var (p, c) := Next(cfg, r.phase, r.noWait, s.c, step);
            && IsPut(r.phase) == IsPut(p)
            && SameChange(c, s.c, Share(r.(phase := p)), Share(r))
            && (c.held <= s.c.held || c.held <= cfg.size)
  {
    hide Share;
    var r := s.requests[Mover(step)];
    ShareMoves(r, Next(cfg, r.phase, r.noWait, s.c, step).0);
  }

  lemma StepKeeps(cfg: Config, s: State, step: Step)
    requires Inv(cfg, s) && Enabled(cfg, s, step)
    ensures Inv(cfg, Do(cfg, s, step))
  {
    if IsMove(step) {
      NextShare(cfg, s, step);
      var r := s.requests[Mover(step)];
      var (p, c) := Next(cfg, r.phase, r.noWait, s.c, step);
      MoveKeeps(cfg, s, Mover(step), p, c);
    } else {
      match step
      case Arrive(p, noWait) => ArriveKeeps(cfg, s, p, noWait);
      case Put(i, id) => PutKeeps(cfg, s, i, id);
      case CleanupBegin(i) => CleanupBeginKeeps(cfg, s, i);
      case CleanupRemove(i) => CleanupRemoveKeeps(cfg, s, i);
      case CleanupUsed(i) => CleanupUsedKeeps(cfg, s, i);
      case CleanupPermit(i) => CleanupPermitKeeps(cfg, s, i);
      case DeleteFind(id) => DeleteFindKeeps(cfg, s, id);
      case DeleteRemove(d) => DeleteRemoveKeeps(cfg, s, d);
      case DeleteUsed(d) => DeleteUsedKeeps(cfg, s, d);
      case DeletePermit(d) => DeletePermitKeeps(cfg, s, d);
      case DeleteCancel(d) => DeleteCancelKeeps(cfg, s, d);
    }
  }

  lemma InitKeeps(cfg: Config)
    ensures Inv(cfg, Init)
  {
  }

  lemma {:induction false} RunKeeps(cfg: Config, s: State, steps: seq<Step>)
    requires Inv(cfg, s) && IsRun(cfg, s, steps)
    ensures Inv(cfg, After(cfg, s, steps))
    decreases |steps|
  {
    if steps != [] {
      StepKeeps(cfg, s, steps[0]);
      RunKeeps(cfg, Do(cfg, s, steps[0]), steps[1..]);
    }
  }

  // ----- What the invariant means -----

  // The request still owns a permit: it took one and no release returned it.
  predicate Holding(r: Request) {
    Takes(r.phase) > r.permitsBack
  }

  function Holders(rs: seq<Request>): set<nat> {
    set i: nat | i < |rs| && Holding(rs[i])
  }

  // The request is between two atomics that belong together: permit and gauge
  // of Protect or of a probe, the two halves of Drop, of Create, of a Release.
  predicate MidStep(r: Request) {
    MidPhase(r.phase) || r.usedDowns != r.permitsBack
  }

  predicate MidPhase(p: Phase) {
    p == TryProbe || p == CheckProbe || p == Granted || p == Admitted || p == Dropping || p == Creating
  }

  // Every DELETE on the WebDriver path found a WebDriver session that no
  // earlier DELETE had found.
  predicate Guarded(s: State)
    requires forall d :: 0 <= d < |s.deletes| ==> s.deletes[d].target < |s.requests|
  {
    && (forall d :: 0 <= d < |s.deletes| ==> s.requests[s.deletes[d].target].protocol == WebDriver)
    && (forall d, e :: 0 <= d < e < |s.deletes| ==> s.deletes[d].target != s.deletes[e].target)
  }

  // Every DELETE has run to its end.
  predicate Settled(s: State) {
    forall d :: 0 <= d < |s.deletes| ==> s.deletes[d].at == Cancelled
  }

  // No session's release counts run ahead of what it holds.
  predicate SingleReturns(s: State) {
    forall i :: 0 <= i < |s.requests| ==> s.requests[i].permitsBack <= Takes(s.requests[i].phase)
  }

  lemma HoldersSplit(rs: seq<Request>)
    requires rs != []
    ensures |Holders(rs)| == |Holders(rs[..|rs| - 1])| + (if Holding(rs[|rs| - 1]) then 1 else 0)
  {
    var n: nat := |rs| - 1;
    var front := Holders(rs[..n]);
    assert forall i: nat :: i in front <==> i < n && Holding(rs[i]);
    assert Holders(rs) == if Holding(rs[n]) then front + {n} else front;
  }

  lemma {:induction false} HeldCountsHolders(rs: seq<Request>)
    ensures Total(rs, Share).held <= |Holders(rs)|
    ensures Total(rs, Share).held == |Holders(rs)| <==>
            forall i :: 0 <= i < |rs| ==> rs[i].permitsBack <= Takes(rs[i].phase)
  {
    if rs != [] {
      var n := |rs| - 1;
      HeldCountsHolders(rs[..n]);
      HoldersSplit(rs);
      if Total(rs, Share).held == |Holders(rs)| {
        forall i | 0 <= i < |rs|
          ensures rs[i].permitsBack <= Takes(rs[i].phase)
        {
          assert i < n ==> rs[..n][i] == rs[i];
        }
      }
    }
  }

  lemma PhaseGap(p: Phase)
    ensures Takes(p) - Uses(p) - Pends(p) == if MidPhase(p) then 1 else 0
  {
  }

  // held - used - pending, request by request
  lemma {:induction false} GapIsMidSteps(rs: seq<Request>)
    requires forall i :: 0 <= i < |rs| ==> rs[i].permitsBack <= rs[i].usedDowns
    requires forall i :: 0 <= i < |rs| && rs[i].usedDowns > 0 ==> IsPut(rs[i].phase)
    ensures Total(rs, Share).used + Total(rs, Share).pending <= Total(rs, Share).held
    ensures Total(rs, Share).used + Total(rs, Share).pending == Total(rs, Share).held <==>
            forall i :: 0 <= i < |rs| ==> !MidStep(rs[i])
  {
    hide Takes, Uses, Pends, MidPhase;
    if rs != [] {
      var n := |rs| - 1;
      GapIsMidSteps(rs[..n]);
      PhaseGap(rs[n].phase);
      assert (forall i :: 0 <= i < |rs| ==> !MidStep(rs[i])) <==>
             (forall i :: 0 <= i < n ==> !MidStep(rs[..n][i])) && !MidStep(rs[n]);
    }
  }

  lemma PutBeforeRelease(cfg: Config, s: State, i: nat)
    requires Inv(cfg, s) && i < |s.requests| && s.requests[i].usedDowns > 0
    ensures IsPut(s.requests[i].phase)
  {
    if !IsPut(s.requests[i].phase) {
      assert Consistent(s.deletes, i, s.requests[i]);
      forall d | 0 <= d < |s.deletes|
        ensures s.deletes[d].target != i
      {
        assert DeleteOk(s.requests[s.deletes[d].target], s.deletes[d]);
      }
      CountNone(s.deletes, UncountedFor(i));
    }
  }

  lemma ReturnsFollowUncounts(cfg: Config, s: State, i: nat)
    requires Inv(cfg, s) && i < |s.requests|
    ensures s.requests[i].permitsBack <= s.requests[i].usedDowns
    ensures s.requests[i].permitsBack > 0 ==> Takes(s.requests[i].phase) == 1
  {
    assert Consistent(s.deletes, i, s.requests[i]);
    CountImplies(s.deletes, ReturnedFor(i), UncountedFor(i));
    if s.requests[i].permitsBack > 0 {
      PutBeforeRelease(cfg, s, i);
    }
  }

  lemma GuardedReturnsOnce(cfg: Config, s: State)
    requires Inv(cfg, s) && Guarded(s)
    ensures SingleReturns(s)
  {
    forall i | 0 <= i < |s.requests|
      ensures s.requests[i].permitsBack <= Takes(s.requests[i].phase)
    {
      assert Consistent(s.deletes, i, s.requests[i]);
      ReturnsFollowUncounts(cfg, s, i);
      CountAtMostOne(s.deletes, ReturnedFor(i));
      if s.requests[i].protocol == Playwright {
        CountNone(s.deletes, ReturnedFor(i));
      }
    }
  }

  // Sessions in the map belong to distinct requests that still hold a permit.
  lemma SessionsHold(cfg: Config, s: State)
    requires Inv(cfg, s)
    ensures |s.sessions| <= |Holders(s.requests)|
  {
    forall k | k in s.sessions
      ensures s.sessions[k] in Holders(s.requests)
    {
      var i := s.sessions[k];
      assert Listed(s.requests[i], k) && Consistent(s.deletes, i, s.requests[i]);
      CountNone(s.deletes, ReturnedFor(i));
    }
    forall k, l | k in s.sessions && l in s.sessions && s.sessions[k] == s.sessions[l]
      ensures k == l
    {
      assert Listed(s.requests[s.sessions[k]], k) && Listed(s.requests[s.sessions[l]], l);
    }
    InjectionSize(s.sessions, Holders(s.requests));
  }

  // Main result.  After any run, however requests and releases interleave,
  // never more than `size` permits are out; and as long as every DELETE found
  // a WebDriver session that no other DELETE had found, the semaphore is never
  // over-released, a permit is out for exactly the requests that own one,
  // used + pending stays within the permits held, with equality exactly when
  // no request is mid-step, and the session map stays within the limit.
  lemma SlotAccounting(cfg: Config, steps: seq<Step>)
    requires IsRun(cfg, Init, steps)
    ensures var s := After(cfg, Init, steps);
            && (s.c.held <= cfg.size || s.c.held <= 0)
            && s.c.held <= |Holders(s.requests)|
            && s.c.used + s.c.pending <= s.c.held
            && (s.c.used + s.c.pending == s.c.held <==>
                  forall i :: 0 <= i < |s.requests| ==> !MidStep(s.requests[i]))
            && (s.c.held == |Holders(s.requests)| <==> SingleReturns(s))
            && |s.sessions| <= |Holders(s.requests)|
    ensures var s := After(cfg, Init, steps);
            && Inv(cfg, s)
            && (Guarded(s) ==>
                  && s.c.held == |Holders(s.requests)|
                  && 0 <= |s.sessions| <= s.c.held
                  && (|s.sessions| <= cfg.size || |s.sessions| == 0))
  {
    hide Total, Count;
    var s := After(cfg, Init, steps);
    InitKeeps(cfg);
    RunKeeps(cfg, Init, steps);
    HeldCountsHolders(s.requests);
    forall i | 0 <= i < |s.requests|
      ensures s.requests[i].permitsBack <= s.requests[i].usedDowns
      ensures s.requests[i].usedDowns > 0 ==> IsPut(s.requests[i].phase)
    {
      ReturnsFollowUncounts(cfg, s, i);
      if s.requests[i].usedDowns > 0 {
        PutBeforeRelease(cfg, s, i);
      }
    }
    GapIsMidSteps(s.requests);
    SessionsHold(cfg, s);
    if Guarded(s) {
      GuardedReturnsOnce(cfg, s);
    }
  }

  // The condition is exact: once every DELETE has finished, each permit was
  // returned at most once if and only if every DELETE was guarded.
  lemma ReturnedOnceIffGuarded(cfg: Config, steps: seq<Step>)
    requires IsRun(cfg, Init, steps) && Settled(After(cfg, Init, steps))
    ensures var s := After(cfg, Init, steps);
            && Inv(cfg, s)
            && (SingleReturns(s) <==> Guarded(s))
            && (s.c.held == |Holders(s.requests)| <==> Guarded(s))
  {
    var s := After(cfg, Init, steps);
    SlotAccounting(cfg, steps);
    if Guarded(s) {
      GuardedReturnsOnce(cfg, s);
    } else {
      UnguardedReturnsTwice(cfg, s);
    }
  }

  lemma UnguardedReturnsTwice(cfg: Config, s: State)
    requires Inv(cfg, s) && Settled(s) && !Guarded(s)
    ensures !SingleReturns(s)
  {
    hide Total, Count, Consistent, DeleteOk, Listed;
    if d :| 0 <= d < |s.deletes| && s.requests[s.deletes[d].target].protocol == Playwright {
      PlaywrightDeleted(cfg, s, d);
      assert s.requests[s.deletes[d].target].permitsBack > 1;
    } else {
      var d, e :| 0 <= d < e < |s.deletes| && s.deletes[d].target == s.deletes[e].target;
      DeletedTwice(cfg, s, d, e);
      assert s.requests[s.deletes[d].target].permitsBack > 1;
    }
  }

  lemma PlaywrightDeleted(cfg: Config, s: State, d: nat)
    requires Inv(cfg, s) && Settled(s) && d < |s.deletes|
    requires s.requests[s.deletes[d].target].protocol == Playwright
    ensures s.requests[s.deletes[d].target].permitsBack >= 2
  {
    var i := s.deletes[d].target;
    assert DeleteOk(s.requests[i], s.deletes[d]);
    assert Consistent(s.deletes, i, s.requests[i]);
    CountSome(s.deletes, ReturnedFor(i), d);
  }

  lemma DeletedTwice(cfg: Config, s: State, d: nat, e: nat)
    requires Inv(cfg, s) && Settled(s) && d < e < |s.deletes| && s.deletes[d].target == s.deletes[e].target
    ensures s.requests[s.deletes[d].target].permitsBack >= 2
  {
    var i := s.deletes[d].target;
    assert Consistent(s.deletes, i, s.requests[i]);
    CountTwo(s.deletes, ReturnedFor(i), d, e);
  }

  // The request is over: it left without a session, or its session's release
  // has returned the permit.
  predicate Over(r: Request) {
    r.phase == Finished || (r.phase == Live && r.permitsBack > 0)
  }

  // When every request is over the session map is empty and no permit has an
  // owner.  The counters are back at zero if every DELETE was guarded; and
  // once all DELETEs have finished, only then.
  lemma NothingLeaks(cfg: Config, steps: seq<Step>)
    requires IsRun(cfg, Init, steps)
    requires forall i :: 0 <= i < |After(cfg, Init, steps).requests| ==> Over(After(cfg, Init, steps).requests[i])
    ensures var s := After(cfg, Init, steps);
            && Inv(cfg, s) && s.sessions == map[] && s.c.held <= 0
            && (Guarded(s) ==> s.c == Counters(0, 0, 0, 0))
            && (Settled(s) ==> (s.c == Counters(0, 0, 0, 0) <==> Guarded(s)))
  {
    hide Total, Count, Share;
    var s := After(cfg, Init, steps);
    SlotAccounting(cfg, steps);
    NoOwners(s.requests);
    assert |s.sessions| == 0;
    if Guarded(s) {
      NothingHeld(cfg, s);
    }
    if Settled(s) {
      ReturnedOnceIffGuarded(cfg, steps);
    }
  }

  lemma NoOwners(rs: seq<Request>)
    requires forall i :: 0 <= i < |rs| ==> Over(rs[i])
    ensures Holders(rs) == {}
  {
  }

  lemma NothingHeld(cfg: Config, s: State)
    requires Inv(cfg, s) && Guarded(s) && (forall i :: 0 <= i < |s.requests| ==> Over(s.requests[i]))
    ensures s.c == Counters(0, 0, 0, 0) && s.sessions == map[]
  {
    hide Total, Count;
    forall i | 0 <= i < |s.requests|
      ensures Share(s.requests[i]) == Counters(0, 0, 0, 0) && !Holding(s.requests[i])
    {
      GuardedUncountsOnce(cfg, s, i);
    }
    TotalZero(s.requests);
    assert Holders(s.requests) == {};
    SessionsHold(cfg, s);
    assert |s.sessions| == 0;
  }

  lemma GuardedUncountsOnce(cfg: Config, s: State, i: nat)
    requires Inv(cfg, s) && Guarded(s) && i < |s.requests|
    ensures s.requests[i].permitsBack <= s.requests[i].usedDowns <= 1
    ensures s.requests[i].usedDowns > 0 ==> IsPut(s.requests[i].phase)
  {
    assert Consistent(s.deletes, i, s.requests[i]);
    ReturnsFollowUncounts(cfg, s, i);
    CountAtMostOne(s.deletes, UncountedFor(i));
    if s.requests[i].protocol == Playwright {
      CountNone(s.deletes, UncountedFor(i));
    }
    if s.requests[i].usedDowns > 0 {
      PutBeforeRelease(cfg, s, i);
    }
  }

  lemma {:induction false} TotalZero(rs: seq<Request>)
    requires forall i :: 0 <= i < |rs| ==> Share(rs[i]) == Counters(0, 0, 0, 0)
    ensures Total(rs, Share) == Counters(0, 0, 0, 0)
  {
    if rs != [] {
      TotalZero(rs[..|rs| - 1]);
    }
  }

  // ----- Runs that show why the condition is needed -----

  lemma {:induction false} Extend(cfg: Config, s: State, steps: seq<Step>, step: Step)
    requires IsRun(cfg, s, steps) && Enabled(cfg, After(cfg, s, steps), step)
    ensures IsRun(cfg, s, steps + [step])
    ensures After(cfg, s, steps + [step]) == Do(cfg, After(cfg, s, steps), step)
    decreases |steps|
  {
    if steps == [] {
      assert steps + [step] == [step];
    } else {
      assert (steps + [step])[0] == steps[0] && (steps + [step])[1..] == steps[1..] + [step];
      Extend(cfg, Do(cfg, s, steps[0]), steps[1..], step);
    }
  }

  const One := Config(1, false)

  // t is the state after some run.
  ghost predicate Reachable(cfg: Config, t: State) {
    exists steps :: IsRun(cfg, Init, steps) && After(cfg, Init, steps) == t
  }

  // R contains the initial state and is closed under steps.
  ghost predicate Closed(cfg: Config, R: iset<State>) {
    Init in R && forall s, step :: s in R && Enabled(cfg, s, step) ==> Do(cfg, s, step) in R
  }

  lemma Go(R: iset<State>, s: State, step: Step, t: State)
    requires Closed(One, R) && s in R && Enabled(One, s, step) && Do(One, s, step) == t
    ensures t in R
  {
  }

  lemma ReachableIsClosed(cfg: Config) returns (R: iset<State>)
    ensures Closed(cfg, R) && forall t :: t in R ==> Reachable(cfg, t)
  {
    R := iset t | Reachable(cfg, t);
    assert IsRun(cfg, Init, []) && After(cfg, Init, []) == Init;
    forall s, step | s in R && Enabled(cfg, s, step)
      ensures Do(cfg, s, step) in R
    {
      var steps :| IsRun(cfg, Init, steps) && After(cfg, Init, steps) == s;
      Extend(cfg, Init, steps, step);
      assert IsRun(cfg, Init, steps + [step]);
    }
  }

  // One request at phase p, with the given release counts.
  function Lone(c: Counters, p: Protocol, phase: Phase, clean: Stage, downs: nat, back: nat,
                ds: seq<Delete>, listed: bool): State {
    State(c, [Request(p, false, phase, if IsPut(phase) then "id" else "", clean, downs, back)],
          ds, if listed then map["id" := 0] else map[])
  }

  lemma ReachCheck(p: Protocol, R: iset<State>, c: Counters)
    requires Closed(One, R) && State(c, [], [], map[]) in R
    ensures Lone(c, p, AtCheck, Idle, 0, 0, [], false) in R
  {
    var s1 := Lone(c, p, AtTry, Idle, 0, 0, [], false);
    Go(R, State(c, [], [], map[]), Arrive(p, false), s1);
    Go(R, s1, Try(0), Lone(c, p, AtCheck, Idle, 0, 0, [], false));
  }

  lemma ReachWaiting(p: Protocol, R: iset<State>, c: Counters)
    requires Closed(One, R) && Lone(c, p, AtCheck, Idle, 0, 0, [], false) in R
    ensures Lone(c.Queues(1), p, Waiting, Idle, 0, 0, [], false) in R
  {
    var s1 := Lone(c, p, AtProtect, Idle, 0, 0, [], false);
    Go(R, Lone(c, p, AtCheck, Idle, 0, 0, [], false), Check(0), s1);
    Go(R, s1, Enqueue(0), Lone(c.Queues(1), p, Waiting, Idle, 0, 0, [], false));
  }

  // A waiting request takes the permit and leaves the queue.
  lemma ReachAdmitted(p: Protocol, R: iset<State>, c: Counters)
    requires Closed(One, R) && Lone(c, p, Waiting, Idle, 0, 0, [], false) in R && c.held == 0
    ensures Lone(c.Permits(1).Queues(-1), p, Admitted, Idle, 0, 0, [], false) in R
  {
    var s1 := Lone(c.Permits(1), p, Granted, Idle, 0, 0, [], false);
    Go(R, Lone(c, p, Waiting, Idle, 0, 0, [], false), Acquire(0), s1);
    Go(R, s1, LeaveQueue(0), Lone(c.Permits(1).Queues(-1), p, Admitted, Idle, 0, 0, [], false));
  }

  lemma ReachPut(p: Protocol, R: iset<State>, c: Counters)
    requires Closed(One, R) && Lone(c, p, Admitted, Idle, 0, 0, [], false) in R
    ensures Lone(c.Pendings(1), p, Registered, Idle, 0, 0, [], true) in R
  {
    var s1 := Lone(c.Pendings(1), p, Serving, Idle, 0, 0, [], false);
    Go(R, Lone(c, p, Admitted, Idle, 0, 0, [], false), Admit(0), s1);
    Go(R, s1, Put(0, "id"), Lone(c.Pendings(1), p, Registered, Idle, 0, 0, [], true));
  }

  lemma StartClosed(cfg: Config, R: iset<State>) returns (c: Counters)
    requires Closed(cfg, R)
    ensures c.held == 0 && c.used == 0 && State(c, [], [], map[]) in R
  {
    c := Init.c;
  }

  // A request with one session slot, registered but not yet through Create.
  lemma ReachRegistered(p: Protocol, R: iset<State>) returns (c: Counters)
    requires Closed(One, R)
    ensures c.held == 1 && c.used == 0 && Lone(c, p, Registered, Idle, 0, 0, [], true) in R
  {
    var c0 := StartClosed(One, R);
    ReachCheck(p, R, c0);
    ReachWaiting(p, R, c0);
    var c1 := c0.Queues(1);
    ReachAdmitted(p, R, c1);
    var c2 := c1.Permits(1).Queues(-1);
    ReachPut(p, R, c2);
    c := c2.Pendings(1);
  }

  // A DELETE that finds the only session takes it from the map.
  lemma ReachUnlisted(p: Protocol, R: iset<State>, c: Counters)
    requires Closed(One, R) && Lone(c, p, Registered, Idle, 0, 0, [], true) in R
    ensures Lone(c, p, Registered, Idle, 0, 0, [Delete(0, Unlisted)], false) in R
  {
    var s1 := Lone(c, p, Registered, Idle, 0, 0, [Delete(0, Found)], true);
    Go(R, Lone(c, p, Registered, Idle, 0, 0, [], true), DeleteFind("id"), s1);
    Go(R, s1, DeleteRemove(0), Lone(c, p, Registered, Idle, 0, 0, [Delete(0, Unlisted)], false));
  }

  lemma ReachDeleted(p: Protocol, R: iset<State>, c: Counters)
    requires Closed(One, R) && Lone(c, p, Registered, Idle, 0, 0, [Delete(0, Unlisted)], false) in R
    ensures Lone(c.Uses(-1).Permits(-1), p, Registered, Idle, 1, 1, [Delete(0, Returned)], false) in R
  {
    var s1 := Lone(c.Uses(-1), p, Registered, Idle, 1, 0, [Delete(0, Uncounted)], false);
    Go(R, Lone(c, p, Registered, Idle, 0, 0, [Delete(0, Unlisted)], false), DeleteUsed(0), s1);
    Go(R, s1, DeletePermit(0), Lone(c.Uses(-1).Permits(-1), p, Registered, Idle, 1, 1, [Delete(0, Returned)], false));
  }

  lemma ReachCleaning(R: iset<State>, c: Counters, downs: nat, back: nat, ds: seq<Delete>, listed: bool)
    requires Closed(One, R) && Lone(c, Playwright, Registered, Idle, downs, back, ds, listed) in R
    ensures Lone(c, Playwright, Registered, Unlisted, downs, back, ds, false) in R
  {
    var s1 := Lone(c, Playwright, Registered, Found, downs, back, ds, listed);
    Go(R, Lone(c, Playwright, Registered, Idle, downs, back, ds, listed), CleanupBegin(0), s1);
    Go(R, s1, CleanupRemove(0), Lone(c, Playwright, Registered, Unlisted, downs, back, ds, false));
  }

  lemma ReachCleaned(R: iset<State>, c: Counters, downs: nat, back: nat, ds: seq<Delete>, listed: bool)
    requires Closed(One, R) && Lone(c, Playwright, Registered, Idle, downs, back, ds, listed) in R
    ensures Lone(c.Uses(-1).Permits(-1), Playwright, Registered, Returned, downs + 1, back + 1, ds, false) in R
  {
    ReachCleaning(R, c, downs, back, ds, listed);
    var s2 := Lone(c, Playwright, Registered, Unlisted, downs, back, ds, false);
    var s3 := Lone(c.Uses(-1), Playwright, Registered, Uncounted, downs + 1, back, ds, false);
    Go(R, s2, CleanupUsed(0), s3);
    Go(R, s3, CleanupPermit(0),
       Lone(c.Uses(-1).Permits(-1), Playwright, Registered, Returned, downs + 1, back + 1, ds, false));
  }

  lemma ReachTwoDeletes(R: iset<State>, c: Counters)
    requires Closed(One, R) && Lone(c, WebDriver, Registered, Idle, 0, 0, [], true) in R
    ensures Lone(c, WebDriver, Registered, Idle, 0, 0, [Delete(0, Unlisted), Delete(0, Unlisted)], false) in R
  {
    var p := WebDriver;
    var s1 := Lone(c, p, Registered, Idle, 0, 0, [Delete(0, Found)], true);
    Go(R, Lone(c, p, Registered, Idle, 0, 0, [], true), DeleteFind("id"), s1);
    var s2 := Lone(c, p, Registered, Idle, 0, 0, [Delete(0, Found), Delete(0, Found)], true);
    Go(R, s1, DeleteFind("id"), s2);
    var s3 := Lone(c, p, Registered, Idle, 0, 0, [Delete(0, Unlisted), Delete(0, Found)], false);
    Go(R, s2, DeleteRemove(0), s3);
    Go(R, s3, DeleteRemove(1), Lone(c, p, Registered, Idle, 0, 0, [Delete(0, Unlisted), Delete(0, Unlisted)], false));
  }

  lemma ReachTwoReturns(R: iset<State>, c: Counters)
    requires Closed(One, R)
    requires Lone(c, WebDriver, Registered, Idle, 0, 0, [Delete(0, Unlisted), Delete(0, Unlisted)], false) in R
    ensures Lone(c.Uses(-1).Permits(-1).Uses(-1).Permits(-1), WebDriver, Registered, Idle, 2, 2,
                 [Delete(0, Returned), Delete(0, Returned)], false) in R
  {
    var p := WebDriver;
    var s1 := Lone(c.Uses(-1), p, Registered, Idle, 1, 0, [Delete(0, Uncounted), Delete(0, Unlisted)], false);
    Go(R, Lone(c, p, Registered, Idle, 0, 0, [Delete(0, Unlisted), Delete(0, Unlisted)], false), DeleteUsed(0), s1);
    var s2 := Lone(c.Uses(-1).Permits(-1), p, Registered, Idle, 1, 1, [Delete(0, Returned), Delete(0, Unlisted)], false);
    Go(R, s1, DeletePermit(0), s2);
    var c' := c.Uses(-1).Permits(-1).Uses(-1);
    var s3 := Lone(c', p, Registered, Idle, 2, 1, [Delete(0, Returned), Delete(0, Uncounted)], false);
    Go(R, s2, DeleteUsed(1), s3);
    Go(R, s3, DeletePermit(1), Lone(c'.Permits(-1), p, Registered, Idle, 2, 2, [Delete(0, Returned), Delete(0, Returned)], false));
  }

  // One DELETE on the WebDriver path that finds a Playwright session returns
  // its permit, and so does the cleanup that the DELETE then calls.
  lemma PlaywrightSessionReturnsTwice()
    ensures exists t :: Reachable(One, t) && |t.deletes| == 1 && t.c.held == -1
  {
    var R := ReachableIsClosed(One);
    var c := ReachRegistered(Playwright, R);
    ReachUnlisted(Playwright, R, c);
    ReachDeleted(Playwright, R, c);
    c := c.Uses(-1).Permits(-1);
    ReachCleaned(R, c, 1, 1, [Delete(0, Returned)], false);
    c := c.Uses(-1).Permits(-1);
    var t := Lone(c, Playwright, Registered, Returned, 2, 2, [Delete(0, Returned)], false);
    assert t in R;
  }

  // Two DELETEs that both find a WebDriver session before either removes it.
  lemma OverlappingDeletesReturnTwice()
    ensures exists t :: Reachable(One, t) && |t.requests| == 1 && t.requests[0].protocol == WebDriver && t.c.held == -1
  {
    var R := ReachableIsClosed(One);
    var c := ReachRegistered(WebDriver, R);
    ReachTwoDeletes(R, c);
    ReachTwoReturns(R, c);
    c := c.Uses(-1).Permits(-1).Uses(-1).Permits(-1);
    var t := Lone(c, WebDriver, Registered, Idle, 2, 2, [Delete(0, Returned), Delete(0, Returned)], false);
    assert t in R;
  }

  // ----- The `used` gauge -----

  predicate IsLive(r: Request) {
    r.phase == Live
  }

  // The session stands in the gauge: Create put it there, no release took it out.
  predicate Counted(r: Request) {
    r.phase == Live && r.usedDowns == 0
  }

  // A release took the session out of the gauge before Create put it there.
  predicate Overtaken(r: Request) {
    r.phase != Live && r.usedDowns > 0
  }

  function AllDowns(rs: seq<Request>): nat {
    if rs == [] then 0 else AllDowns(rs[..|rs| - 1]) + rs[|rs| - 1].usedDowns
  }

  lemma {:induction false} UsedIsSum(rs: seq<Request>)
    ensures Total(rs, Share).used == Count(rs, IsLive) - AllDowns(rs)
  {
    if rs != [] {
      UsedIsSum(rs[..|rs| - 1]);
    }
  }

  lemma {:induction false} UsedIsDifference(rs: seq<Request>)
    requires forall i :: 0 <= i < |rs| ==> rs[i].usedDowns <= 1
    ensures Total(rs, Share).used == Count(rs, Counted) - Count(rs, Overtaken)
  {
    if rs != [] {
      UsedIsDifference(rs[..|rs| - 1]);
    }
  }

  // After any run the gauge is the sessions through Create less the releases
  // that decremented it.  As long as every DELETE was guarded these are the
  // sessions that stand in it less those whose release overtook their Create,
  // so it is below zero exactly when more have been overtaken than stand.
  lemma UsedExactly(cfg: Config, steps: seq<Step>)
    requires IsRun(cfg, Init, steps)
    ensures var s := After(cfg, Init, steps);
            && Inv(cfg, s)
            && s.c.used == Count(s.requests, IsLive) - AllDowns(s.requests)
            && (Guarded(s) ==>
                  && s.c.used == Count(s.requests, Counted) - Count(s.requests, Overtaken)
                  && (s.c.used >= 0 <==> Count(s.requests, Overtaken) <= Count(s.requests, Counted)))
  {
    hide Total, Count, Consistent, DeleteOk, Listed;
    var s := After(cfg, Init, steps);
    InitKeeps(cfg);
    RunKeeps(cfg, Init, steps);
    UsedIsSum(s.requests);
    if Guarded(s) {
      forall i | 0 <= i < |s.requests|
        ensures s.requests[i].usedDowns <= 1
      {
        GuardedUncountsOnce(cfg, s, i);
      }
      UsedIsDifference(s.requests);
    }
  }

  // A release that takes its session out of the gauge finds it through Create.
  predicate AfterCreate(s: State, step: Step) {
    match step
    case CleanupUsed(i) => At(s, i, Live)
    case DeleteUsed(d) => d < |s.deletes| && At(s, s.deletes[d].target, Live)
    case _ => true
  }

  predicate AllAfterCreate(cfg: Config, s: State, steps: seq<Step>)
    requires IsRun(cfg, s, steps)
    decreases |steps|
  {
    steps == [] || (AfterCreate(s, steps[0]) && AllAfterCreate(cfg, Do(cfg, s, steps[0]), steps[1..]))
  }

  predicate NoneOvertaken(s: State) {
    forall i :: 0 <= i < |s.requests| ==> !Overtaken(s.requests[i])
  }

  // Create is a handler's last step.
  lemma MoveOvertakesNone(cfg: Config, s: State, step: Step)
    requires NoneOvertaken(s) && Enabled(cfg, s, step) && IsMove(step)
    ensures NoneOvertaken(Do(cfg, s, step))
  {
    var i := Mover(step);
    assert !Overtaken(s.requests[i]) && s.requests[i].phase != Live;
    assert forall j :: 0 <= j < |s.requests| && j != i ==> Do(cfg, s, step).requests[j] == s.requests[j];
  }

  // Such a release is the only step that overtakes a Create.
  lemma StepOvertakes(cfg: Config, s: State, step: Step)
    requires NoneOvertaken(s) && Enabled(cfg, s, step)
    ensures NoneOvertaken(Do(cfg, s, step)) <==> AfterCreate(s, step)
  {
    hide Next;
    var t := Do(cfg, s, step);
    if IsMove(step) {
      MoveOvertakesNone(cfg, s, step);
    } else if step.CleanupUsed? {
      assert t.requests == s.requests[step.i := t.requests[step.i]];
      assert t.requests[step.i].phase == s.requests[step.i].phase && t.requests[step.i].usedDowns > 0;
    } else if step.DeleteUsed? {
      var i := s.deletes[step.d].target;
      assert t.requests == s.requests[i := t.requests[i]];
      assert t.requests[i].phase == s.requests[i].phase && t.requests[i].usedDowns > 0;
    } else {
      forall i | 0 <= i < |t.requests|
        ensures !Overtaken(t.requests[i])
      {
        assert i < |s.requests| ==> !Overtaken(s.requests[i]);
      }
    }
  }

  lemma {:induction false} RunOvertakesNone(cfg: Config, s: State, steps: seq<Step>)
    requires NoneOvertaken(s) && IsRun(cfg, s, steps) && AllAfterCreate(cfg, s, steps)
    ensures NoneOvertaken(After(cfg, s, steps))
    decreases |steps|
  {
    hide NoneOvertaken, AfterCreate, Do, Enabled;
    if steps != [] {
      StepOvertakes(cfg, s, steps[0]);
      RunOvertakesNone(cfg, Do(cfg, s, steps[0]), steps[1..]);
    }
  }

  // So in a guarded run in which no release overtakes a Create the gauge is the
  // number of sessions that stand in it, and never below zero.
  lemma UsedStaysUp(cfg: Config, steps: seq<Step>)
    requires IsRun(cfg, Init, steps) && AllAfterCreate(cfg, Init, steps)
    ensures var s := After(cfg, Init, steps);
            Inv(cfg, s) && (Guarded(s) ==> s.c.used == Count(s.requests, Counted) >= 0)
  {
    hide Total, Counted, Overtaken;
    var s := After(cfg, Init, steps);
    UsedExactly(cfg, steps);
    RunOvertakesNone(cfg, Init, steps);
    CountNone(s.requests, Overtaken);
  }

  lemma OvertakenAlone(rs: seq<Request>)
    requires |rs| == 1 && Overtaken(rs[0])
    ensures Count(rs, Overtaken) == 1 && Count(rs, Counted) == 0
  {
    assert rs == [] + [rs[0]];
    CountAppend([], rs[0], Overtaken);
    CountNone(rs, Counted);
  }

  // Without that condition it may be: a Playwright cleanup overtakes Create in
  // a guarded run, and one session is overtaken where none stands.
  lemma UsedMayDipBelowZero()
    ensures exists t :: Reachable(One, t) && t.deletes == [] && t.c.used == -1
                        && Count(t.requests, Overtaken) == 1 && Count(t.requests, Counted) == 0
  {
    hide Count, Reachable;
    var R := ReachableIsClosed(One);
    var c := ReachRegistered(Playwright, R);
    ReachCleaned(R, c, 0, 0, [], true);
    var t := Lone(c.Uses(-1).Permits(-1), Playwright, Registered, Returned, 1, 1, [], false);
    OvertakenAlone(t.requests);
    assert t in R;
  }
}
