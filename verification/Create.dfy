// The WebDriver `create` handler: every exit, the loop that asks the started
// service for a session, and what it owes the queue and the service.
module Create {
  import opened Seqs

  // How one attempt to open a session at the service ends.
  datatype Attempt =
    | TimedOut          // the attempt's own deadline passed
    | ClientGone        // the request's context was cancelled
    | Failed            // any other transport error
    | NotFound          // a response with status 404
    | Answered          // any other response

  // What the handler does to the queue and the service.
  datatype Action = Drop | CreateSlot | StartService | CancelService | Register

  // How the calls before and after the loop turn out.
  datatype Setup = Setup(bodyRead: bool, jsonOk: bool, caps: seq<CapsOutcome>, started: bool)

  // One entry of firstMatch: rejected, accepted without a matching browser, or matched.
  datatype CapsOutcome = Rejected | NoBrowser | Matched

  // What the response yields: an unreadable or unparsable body, no session id, or one.
  datatype Reply = BadBody | NoId | HasId

  // The choice over firstMatch: the first entry that is rejected or matched decides.
  function Choose(caps: seq<CapsOutcome>): CapsOutcome {
    if caps == [] then NoBrowser else if caps[0] != NoBrowser then caps[0] else Choose(caps[1..])
  }

  // The first entry that is not NoBrowser, if there is one.
  lemma {:induction false} ChooseExact(caps: seq<CapsOutcome>)
    ensures Choose(caps) == NoBrowser <==> forall i :: 0 <= i < |caps| ==> caps[i] == NoBrowser
    ensures forall i :: 0 <= i < |caps| && caps[i] != NoBrowser && (forall j :: 0 <= j < i ==> caps[j] == NoBrowser) ==>
              Choose(caps) == caps[i]
  {
    if caps != [] {
      ChooseExact(caps[1..]);
      assert forall i :: 0 < i < |caps| ==> caps[i] == caps[1..][i - 1];
    }
  }

  lemma {:induction false} ChosenFirst(caps: seq<CapsOutcome>)
    ensures Choose(caps) == Matched <==>
            exists k :: 0 <= k < |caps| && caps[k] == Matched && forall j :: 0 <= j < k ==> caps[j] == NoBrowser
  {
    ChooseExact(caps);
    if Choose(caps) == Matched {
      var k := FirstDeciding(caps);
    }
  }

  lemma {:induction false} FirstDeciding(caps: seq<CapsOutcome>) returns (k: nat)
    requires Choose(caps) != NoBrowser
    ensures k < |caps| && caps[k] == Choose(caps) && forall j :: 0 <= j < k ==> caps[j] == NoBrowser
  {
    k := 0;
    if caps[0] == NoBrowser {
      var i := FirstDeciding(caps[1..]);
      k := i + 1;
      assert forall j :: 0 < j < k ==> caps[j] == caps[1..][j - 1];
    }
  }

  function Max(a: int, b: int): int {
    if a < b then b else a
  }

  // Whether asking for a session, from attempt i on, ends with a response.
  predicate Answers(attempts: nat -> Attempt, i: nat, retryCount: int, emptyPath: bool)
    decreases emptyPath, retryCount - i
  {
    match attempts(i)
    case TimedOut => i < retryCount && Answers(attempts, i + 1, retryCount, emptyPath)
    case ClientGone => false
    case Failed => false
    case NotFound => emptyPath ==> Answers(attempts, i + 1, retryCount, false)
    case Answered => true
  }

  predicate NoneNotFound(attempts: nat -> Attempt, n: nat) {
    forall i: nat :: 1 <= i < n ==> attempts(i) != NotFound
  }

  // Every attempt before n was one of the two kinds that are tried again: at
  // most one 404, answered by setting the path, and else a timeout.
  predicate TriedAgain(attempts: nat -> Attempt, n: nat, retryCount: int, emptyPath: bool) {
    forall i: nat :: 1 <= i < n ==>
      || (attempts(i) == TimedOut && i < retryCount)
      || (attempts(i) == NotFound && emptyPath && NoneNotFound(attempts, i))
  }

  // The attempt loop.  `attempts(i)` is how attempt i ends, counting from 1;
  // `emptyPath` says whether the service's URL has an empty path.
  method AskForSession(attempts: nat -> Attempt, retryCount: int, emptyPath: bool)
    returns (ok: bool, made: nat, path: bool)
    ensures 1 <= made <= Max(1, retryCount) + 1
    ensures ok == Answers(attempts, 1, retryCount, emptyPath)
    ensures ok <==> attempts(made) == Answered || (attempts(made) == NotFound && !path)
    ensures TriedAgain(attempts, made, retryCount, emptyPath)
    ensures path == (emptyPath && NoneNotFound(attempts, made))
    // It gives up only when the client is gone, on another error, or on a
    // timeout with the retries used up; so a 404 on an empty path is tried
    // again.
    ensures !ok ==> || attempts(made) == ClientGone || attempts(made) == Failed
                    || (attempts(made) == TimedOut && made >= retryCount)
  {
    path := emptyPath;
    var i := 1;
    while true
      invariant i >= 1
      invariant Answers(attempts, 1, retryCount, emptyPath) == Answers(attempts, i, retryCount, path)
      invariant TriedAgain(attempts, i, retryCount, emptyPath)
      invariant path == (emptyPath && NoneNotFound(attempts, i))
      invariant i <= Max(1, retryCount) + (if path then 0 else 1)
      decreases path, retryCount - i
    {
      match attempts(i) {
        case TimedOut =>
          if i >= retryCount {
            return false, i, path;
          }
        case ClientGone => return false, i, path;
        case Failed => return false, i, path;
        case NotFound =>
          if !path {
            return true, i, path;
          }
          path := false;
        case Answered => return true, i, path;
      }
      i := i + 1;
    }
  }

  // The service is started.
  predicate Starts(s: Setup) {
    s.bodyRead && s.jsonOk && Choose(s.caps) == Matched && s.started
  }

  // The started service becomes a session.
  predicate Registers(attempts: nat -> Attempt, retryCount: int, emptyPath: bool, reply: Reply) {
    Answers(attempts, 1, retryCount, emptyPath) && reply == HasId
  }

  function Is(a: Action): Action -> bool {
    x => x == a
  }

  // What the handler owes: exactly one of Drop and Create; a session registered
  // exactly when its slot is created; a started service cancelled exactly when
  // it is not registered.
  predicate Settles(log: seq<Action>) {
    && Count(log, Is(Drop)) + Count(log, Is(CreateSlot)) == 1
    && Count(log, Is(Register)) == Count(log, Is(CreateSlot))
    && Count(log, Is(StartService)) == Count(log, Is(CancelService)) + Count(log, Is(Register))
  }

  lemma LogsSettle()
    ensures Settles([Drop])
    ensures Settles([StartService, Register, CreateSlot])
    ensures Settles([StartService, Drop, CancelService])
  {
    forall a: Action
      ensures Count([Drop], Is(a)) == if a == Drop then 1 else 0
      ensures Count([StartService, Register, CreateSlot], Is(a)) == if a == Drop || a == CancelService then 0 else 1
      ensures Count([StartService, Drop, CancelService], Is(a)) == if a == Register || a == CreateSlot then 0 else 1
    {
      CountAppend([], Drop, Is(a));
      CountThree(StartService, Register, CreateSlot, a);
      CountThree(StartService, Drop, CancelService, a);
    }
  }

  lemma CountThree(x: Action, y: Action, z: Action, a: Action)
    ensures Count([x, y, z], Is(a)) ==
              (if x == a then 1 else 0) + (if y == a then 1 else 0) + (if z == a then 1 else 0)
  {
    CountAppend([], x, Is(a));
    CountAppend([x], y, Is(a));
    CountAppend([x, y], z, Is(a));
    assert [] + [x] == [x] && [x] + [y] == [x, y] && [x, y] + [z] == [x, y, z];
  }

  // The handler, from the permit it was admitted with to its return.
  method HandleCreate(s: Setup, attempts: nat -> Attempt, retryCount: int, emptyPath: bool, reply: Reply)
    returns (log: seq<Action>)
    ensures !Starts(s) ==> log == [Drop]
    ensures Starts(s) && Registers(attempts, retryCount, emptyPath, reply) ==> log == [StartService, Register, CreateSlot]
    ensures Starts(s) && !Registers(attempts, retryCount, emptyPath, reply) ==> log == [StartService, Drop, CancelService]
    ensures Settles(log)
    // A service is started exactly when body, JSON and start are good and the
    // first entry that decides is a match; it is registered only with an id.
    ensures StartService in log <==>
              && s.bodyRead && s.jsonOk && s.started
              && exists k :: 0 <= k < |s.caps| && s.caps[k] == Matched && forall j :: 0 <= j < k ==> s.caps[j] == NoBrowser
    ensures Register in log ==> StartService in log && reply == HasId
  {
    LogsSettle();
    ChosenFirst(s.caps);
    if !s.bodyRead {
      return [Drop];
    }
    if !s.jsonOk {
      return [Drop];
    }
    // An empty firstMatch counts as one entry without further demands.
    var found := false;
    var k := 0;
    while k < |s.caps|
      invariant 0 <= k <= |s.caps|
      invariant !found && Choose(s.caps) == Choose(s.caps[k..])
    {
      if s.caps[k] == Rejected {
        return [Drop];
      }
      if s.caps[k] == Matched {
        found := true;
        break;
      }
      assert s.caps[k..][1..] == s.caps[k + 1..];
      k := k + 1;
    }
    if !found {
      return [Drop];
    }
    if !s.started {
      return [Drop];
    }
    log := [StartService];
    var ok, made, path := AskForSession(attempts, retryCount, emptyPath);
    if !ok {
      log := log + [Drop];
      log := log + [CancelService];
      return;
    }
    if reply == BadBody || reply == NoId {
      log := log + [Drop];
      log := log + [CancelService];
      return;
    }
    log := log + [Register];
    log := log + [CreateSlot];
  }
}
