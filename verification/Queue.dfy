// The admission queue as an object.  Every gauge is a separate atomic, so an
// operation that touches two of them is two steps of the server as a whole;
// each method is the run of those steps by one request, without interruption.
module Queue {
  import opened Gauges
  import opened Slots

  // The handler of one request takes steps one after the other: where it ends
  // up, and the counters then.
  function Handler(cfg: Config, at: Phase, noWait: bool, c: Counters, steps: seq<Step>): (Phase, Counters)
    requires forall i :: 0 <= i < |steps| ==> IsMove(steps[i])
    decreases |steps|
  {
    if steps == [] then (at, c)
    else
      var (p, d) := Next(cfg, at, noWait, c, steps[0]);
      Handler(cfg, p, noWait, d, steps[1..])
  }

  lemma FirstStep(cfg: Config, at: Phase, noWait: bool, c: Counters, a: Step, more: seq<Step>)
    requires IsMove(a) && forall i :: 0 <= i < |more| ==> IsMove(more[i])
    ensures var (p, d) := Next(cfg, at, noWait, c, a);
            Handler(cfg, at, noWait, c, [a] + more) == Handler(cfg, p, noWait, d, more)
  {
    assert ([a] + more)[1..] == more;
  }

  // What the steps of each operation amount to
  lemma Tries(cfg: Config, noWait: bool, c: Counters)
    ensures !noWait ==> Handler(cfg, AtTry, noWait, c, [Try(0)]) == (AtCheck, c)
    ensures noWait && c.held < cfg.size ==> Handler(cfg, AtTry, noWait, c, [Try(0), EndTryProbe(0)]) == (AtCheck, c)
    ensures noWait && c.held >= cfg.size ==> Handler(cfg, AtTry, noWait, c, [Try(0)]) == (Finished, c)
  {
    if noWait {
      Probes(cfg, c);
    } else {
      LastStep(cfg, AtTry, noWait, c, Try(0));
    }
  }

  lemma Checks(cfg: Config, noWait: bool, c: Counters)
    ensures !cfg.disabled ==> Handler(cfg, AtCheck, noWait, c, [Check(0)]) == (AtProtect, c)
    ensures cfg.disabled && c.held < cfg.size ==>
              Handler(cfg, AtCheck, noWait, c, [Check(0), EndCheckProbe(0)]) == (AtProtect, c)
    ensures cfg.disabled && c.held >= cfg.size ==> Handler(cfg, AtCheck, noWait, c, [Check(0)]) == (Finished, c)
  {
    hide Handler;
    LastStep(cfg, AtCheck, noWait, c, Check(0));
    FirstStep(cfg, AtCheck, noWait, c, Check(0), [EndCheckProbe(0)]);
    LastStep(cfg, CheckProbe, noWait, c.Permits(1), EndCheckProbe(0));
    assert [Check(0)] + [EndCheckProbe(0)] == [Check(0), EndCheckProbe(0)];
  }

  lemma Probes(cfg: Config, c: Counters)
    ensures c.held < cfg.size ==> Handler(cfg, AtTry, true, c, [Try(0), EndTryProbe(0)]) == (AtCheck, c)
    ensures c.held >= cfg.size ==> Handler(cfg, AtTry, true, c, [Try(0)]) == (Finished, c)
  {
    hide Handler;
    FirstStep(cfg, AtTry, true, c, Try(0), [EndTryProbe(0)]);
    FirstStep(cfg, AtTry, true, c, Try(0), []);
    assert [Try(0)] + [EndTryProbe(0)] == [Try(0), EndTryProbe(0)] && [Try(0)] + [] == [Try(0)];
    LastStep(cfg, TryProbe, true, c.Permits(1), EndTryProbe(0));
    NoStep(cfg, Finished, true, c);
  }

  lemma NoStep(cfg: Config, at: Phase, noWait: bool, c: Counters)
    ensures Handler(cfg, at, noWait, c, []) == (at, c)
  {
  }

  lemma LastStep(cfg: Config, at: Phase, noWait: bool, c: Counters, a: Step)
    requires IsMove(a)
    ensures Handler(cfg, at, noWait, c, [a]) == Next(cfg, at, noWait, c, a)
  {
    assert [a][1..] == [];
  }

  lemma Admits(cfg: Config, c: Counters)
    ensures Handler(cfg, AtProtect, false, c, [Enqueue(0), Acquire(0), LeaveQueue(0), Admit(0)])
         == (Serving, c.Permits(1).Pendings(1))
  {
    hide Handler;
    FirstStep(cfg, AtProtect, false, c, Enqueue(0), [Acquire(0), LeaveQueue(0), Admit(0)]);
    FirstStep(cfg, Waiting, false, c.Queues(1), Acquire(0), [LeaveQueue(0), Admit(0)]);
    FirstStep(cfg, Granted, false, c.Queues(1).Permits(1), LeaveQueue(0), [Admit(0)]);
    LastStep(cfg, Admitted, false, c.Queues(1).Permits(1).Queues(-1), Admit(0));
    assert [Enqueue(0)] + [Acquire(0), LeaveQueue(0), Admit(0)] == [Enqueue(0), Acquire(0), LeaveQueue(0), Admit(0)];
    assert [Acquire(0)] + [LeaveQueue(0), Admit(0)] == [Acquire(0), LeaveQueue(0), Admit(0)];
    assert [LeaveQueue(0)] + [Admit(0)] == [LeaveQueue(0), Admit(0)];
  }

  lemma Refuses(cfg: Config, c: Counters)
    ensures Handler(cfg, AtProtect, false, c, [Enqueue(0), GiveUp(0), LeaveQueue(0)]) == (Finished, c)
  {
    hide Handler;
    FirstStep(cfg, AtProtect, false, c, Enqueue(0), [GiveUp(0), LeaveQueue(0)]);
    FirstStep(cfg, Waiting, false, c.Queues(1), GiveUp(0), [LeaveQueue(0)]);
    LastStep(cfg, Abandoned, false, c.Queues(1), LeaveQueue(0));
    assert [Enqueue(0)] + [GiveUp(0), LeaveQueue(0)] == [Enqueue(0), GiveUp(0), LeaveQueue(0)];
    assert [GiveUp(0)] + [LeaveQueue(0)] == [GiveUp(0), LeaveQueue(0)];
  }

  lemma Drops(cfg: Config, c: Counters)
    ensures Handler(cfg, Serving, false, c, [DropPending(0), DropPermit(0)]) == (Finished, c.Pendings(-1).Permits(-1))
  {
    hide Handler;
    FirstStep(cfg, Serving, false, c, DropPending(0), [DropPermit(0)]);
    LastStep(cfg, Dropping, false, c.Pendings(-1), DropPermit(0));
    assert [DropPending(0)] + [DropPermit(0)] == [DropPending(0), DropPermit(0)];
  }

  lemma Creates(cfg: Config, c: Counters)
    ensures Handler(cfg, Registered, false, c, [CreatePending(0), CreateUsed(0)]) == (Live, c.Pendings(-1).Uses(1))
  {
    hide Handler;
    FirstStep(cfg, Registered, false, c, CreatePending(0), [CreateUsed(0)]);
    LastStep(cfg, Creating, false, c.Pendings(-1), CreateUsed(0));
    assert [CreatePending(0)] + [CreateUsed(0)] == [CreatePending(0), CreateUsed(0)];
  }

  // A Release for a session is two steps of the cleanup, or of a DELETE.
  ghost predicate Releases(before: Counters, after: Counters) {
    forall s: State, i: nat, g: Stage, h: Stage :: i < |s.requests| && s.c == before ==>
      ReturnPermit(Uncount(s, i, g), i, h).c == after
  }

  class Queue {
    const disabled: bool
    const size: int
    var held: int
    var used: int
    var pending: int
    var queued: int

    ghost function Now(): Counters
      reads this
    {
      Counters(held, used, pending, queued)
    }

    ghost function Setting(): Config {
      Config(size, disabled)
    }

    constructor (size: int, disabled: bool)
      ensures Now() == Counters(0, 0, 0, 0) && this.size == size && this.disabled == disabled
    {
      this.size := size;
      this.disabled := disabled;
      held, used, pending, queued := 0, 0, 0, 0;
    }

    // The probe of Try and Check: it really takes a permit, then returns it.
    method HasFreeSlot() returns (free: bool)
      modifies this`held
      ensures free == (old(held) < size)
      ensures Now() == old(Now())
      ensures free ==> (AtCheck, Now()) == Handler(Setting(), AtTry, true, old(Now()), [Step.Try(0), EndTryProbe(0)])
      ensures !free ==> (Finished, Now()) == Handler(Setting(), AtTry, true, old(Now()), [Step.Try(0)])
    {
      Probes(Setting(), Now());
      if held + 1 > size {
        return false;
      }
      held := held + 1;
      held := held - 1;
      return true;
    }

    // Try, up to the call of the next handler: only a request that would not
    // wait is refused, exactly when no permit is free.
    method Try(noWait: bool) returns (passes: bool)
      modifies this`held
      ensures passes <==> !noWait || old(held) < size
      ensures Now() == old(Now())
      ensures passes ==>
                (AtCheck, Now()) == Handler(Setting(), AtTry, noWait, old(Now()),
                                            if noWait then [Step.Try(0), EndTryProbe(0)] else [Step.Try(0)])
      ensures !passes ==> (Finished, Now()) == Handler(Setting(), AtTry, noWait, old(Now()), [Step.Try(0)])
    {
      hide Handler;
      Tries(Setting(), noWait, Now());
      if noWait {
        passes := HasFreeSlot();
        return;
      }
      return true;
    }

    // Check likewise: only with queueing disabled, whoever asks.
    method Check(noWait: bool) returns (passes: bool)
      modifies this`held
      ensures passes <==> !disabled || old(held) < size
      ensures Now() == old(Now())
      ensures passes ==>
                (AtProtect, Now()) == Handler(Setting(), AtCheck, noWait, old(Now()),
                                              if disabled then [Step.Check(0), EndCheckProbe(0)] else [Step.Check(0)])
      ensures !passes ==> (Finished, Now()) == Handler(Setting(), AtCheck, noWait, old(Now()), [Step.Check(0)])
    {
      hide Handler;
      Checks(Setting(), noWait, Now());
      if disabled {
        passes := HasFreeSlot();
        return;
      }
      return true;
    }

    // Protect up to the call of the next handler.  `granted` says which way
    // the wait in Acquire ended.
    method Protect(granted: bool) returns (admitted: bool)
      requires granted ==> held < size
      modifies this
      ensures admitted == granted
      ensures admitted ==>
                (Serving, Now()) == Handler(Setting(), AtProtect, false, old(Now()), [Enqueue(0), Acquire(0), LeaveQueue(0), Admit(0)])
      ensures !admitted ==>
                (Finished, Now()) == Handler(Setting(), AtProtect, false, old(Now()), [Enqueue(0), GiveUp(0), LeaveQueue(0)])
      ensures admitted ==> held == old(held) + 1 && pending == old(pending) + 1 && used == old(used) && queued == old(queued)
      ensures !admitted ==> Now() == old(Now())
    {
      hide Handler;
      Admits(Setting(), Now());
      Refuses(Setting(), Now());
      queued := queued + 1;
      if granted {
        held := held + 1;
      }
      queued := queued - 1;
      if !granted {
        return false;
      }
      pending := pending + 1;
      return true;
    }

    method Drop()
      modifies this
      ensures (Finished, Now()) == Handler(Setting(), Serving, false, old(Now()), [DropPending(0), DropPermit(0)])
    {
      Drops(Setting(), Now());
      pending := pending - 1;
      held := held - 1;
    }

    method Create()
      modifies this
      ensures (Live, Now()) == Handler(Setting(), Registered, false, old(Now()), [CreatePending(0), CreateUsed(0)])
    {
      Creates(Setting(), Now());
      pending := pending - 1;
      used := used + 1;
    }

    method Release()
      modifies this
      ensures Releases(old(Now()), Now())
    {
      used := used - 1;
      held := held - 1;
    }
  }

  // What Protect took, Drop gives back: after a request that leaves without a
  // session every counter is as it was, whichever way its wait ended.
  method LeavesWithoutSession(q: Queue, granted: bool)
    requires granted ==> q.held < q.size
    modifies q
    ensures q.Now() == old(q.Now())
  {
    var admitted := q.Protect(granted);
    if admitted {
      Drops(q.Setting(), q.Now());
      q.Drop();
    }
  }

  // And what Protect and Create took, Release gives back.
  method ServesSession(q: Queue)
    requires q.held < q.size
    modifies q
    ensures q.Now() == old(q.Now())
  {
    var admitted := q.Protect(true);
    Creates(q.Setting(), q.Now());
    q.Create();
    ghost var c := q.Now();
    q.Release();
    ReleaseMeans(c, q.Now());
  }

  lemma ReleaseMeans(before: Counters, after: Counters)
    requires Releases(before, after)
    ensures after == before.Uses(-1).Permits(-1)
  {
    var s := State(before, [Request(WebDriver, false, Live, "", Idle, 0, 0)], [], map[]);
    assert ReturnPermit(Uncount(s, 0, Idle), 0, Idle).c == after;
  }
}
