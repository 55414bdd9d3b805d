// The append-only log of a Playwright session: writers, Close, and readers that
// keep an index and sleep on a notification channel.
module LogSink {

  // ----- The sink as a value -----

  // Channels are numbered in the order they are made; `notify` is the current one.
  datatype Sink = Sink(lines: seq<string>, closed: bool, notify: nat) {

    // Channel c has been closed, so a receive on it returns.
    predicate IsShut(c: nat) {
      c < notify || (closed && c == notify)
    }

    function Write(line: string): Sink {
      if closed then this
      else Sink(lines + [if EndsLine(line) then line else line + "\n"], false, notify + 1)
    }

    function Close(): Sink {
      this.(closed := true)
    }
  }

  predicate EndsLine(line: string) {
    line != [] && line[|line| - 1] == '\n'
  }

  function Concat(lines: seq<string>): string {
    if lines == [] then [] else lines[0] + Concat(lines[1..])
  }

  lemma {:induction false} ConcatAppend(lines: seq<string>, line: string)
    ensures Concat(lines + [line]) == Concat(lines) + line
  {
    if lines == [] {
      assert ([] + [line])[1..] == [];
      assert [] + line == line + [];
    } else {
      assert (lines + [line])[1..] == lines[1..] + [line];
      ConcatAppend(lines[1..], line);
    }
  }

  // ----- The sink as an object -----

  class LogSink {
    var lines: seq<string>
    var closed: bool
    var notify: nat
    var shut: set<nat>   // the channels closed so far

    ghost function Value(): Sink
      reads this
    {
      Sink(lines, closed, notify)
    }

    ghost predicate Valid()
      reads this
    {
      && (forall c :: c in shut <==> 0 <= c && Value().IsShut(c))
      && (forall i :: 0 <= i < |lines| ==> EndsLine(lines[i]))
    }

    constructor ()
      ensures Valid() && Value() == Sink([], false, 0)
    {
      lines, closed, notify, shut := [], false, 0, {};
    }

    // Closing a channel twice would panic, so the channel must still be open.
    method CloseChannel(c: nat)
      requires c !in shut
      modifies this`shut
      ensures shut == old(shut) + {c}
    {
      shut := shut + {c};
    }

    method WriteLine(line: string)
      requires Valid()
      modifies this
      ensures Valid() && Value() == old(Value()).Write(line)
      // An open sink takes the line, ended by one newline if it was not ended.
      ensures !old(closed) ==>
                && Concat(lines) == old(Concat(lines)) + line + (if EndsLine(line) then "" else "\n")
                && lines[..|lines| - 1] == old(lines) && old(notify) in shut && notify !in shut
      ensures old(closed) ==> lines == old(lines) && notify == old(notify) && shut == old(shut)
    {
      hide Concat;
      ConcatAppend(lines, if EndsLine(line) then line else line + "\n");
      assert Concat(lines) + line + "" == Concat(lines) + line;
      assert Concat(lines) + line + "\n" == Concat(lines) + (line + "\n");
      var text := line;
      if !EndsLine(text) {
        text := text + "\n";
      }
      if closed {
        return;
      }
      lines := lines + [text];
      CloseChannel(notify);
      notify := notify + 1;
    }

    // Index below or beyond the log is moved into it.
    method ReadFrom(index: int) returns (entries: seq<string>, next: nat, isClosed: bool, channel: nat)
      requires Valid()
      ensures next == |lines| && isClosed == closed && channel == notify
      ensures index <= 0 ==> entries == lines
      ensures 0 <= index <= |lines| ==> lines == lines[..index] + entries
      ensures index >= |lines| ==> entries == []
      ensures channel in shut <==> isClosed
    {
      var i := index;
      if i < 0 {
        i := 0;
      }
      if i > |lines| {
        i := |lines|;
      }
      return lines[i..], |lines|, closed, notify;
    }

    method Close()
      requires Valid()
      modifies this
      ensures Valid() && Value() == old(Value()).Close()
      ensures closed && lines == old(lines) && notify == old(notify) && notify in shut
    {
      if closed {
        return;
      }
      closed := true;
      CloseChannel(notify);
    }

    method Content() returns (text: string)
      requires Valid()
      ensures text == Concat(lines)
    {
      text := "";
      var i := 0;
      while i < |lines|
        invariant 0 <= i <= |lines|
        invariant text == Concat(lines[..i])
      {
        ConcatAppend(lines[..i], lines[i]);
        assert lines[..i + 1] == lines[..i] + [lines[i]];
        text := text + lines[i];
        i := i + 1;
      }
      assert lines[..i] == lines;
    }
  }

  // ----- Writers, Close and readers, interleaved -----

  datatype End = OnClosed | OnWriteError | OnRequestGone

  // Where a stream stands.
  datatype Place =
    | Reading
    | Delivering(batch: seq<string>, next: nat, sawClosed: bool, channel: nat)
    | Waiting(channel: nat)
    | Ended(how: End)

  datatype Reader = Reader(at: Place, index: nat, delivered: seq<string>)

  datatype State = State(sink: Sink, readers: seq<Reader>)

  datatype Step =
    | WriteLine(line: string)
    | CloseSink
    | Open
    | Read(r: nat)         // one ReadFrom, under the lock
    | Deliver(r: nat)      // one message written
    | Fail(r: nat)         // one message not written
    | Settle(r: nat)       // the batch is through
    | Wake(r: nat)         // the channel is closed
    | Leave(r: nat)        // the request is gone

  predicate Enabled(s: State, step: Step) {
    match step
    case WriteLine(_) => true
    case CloseSink => true
    case Open => true
    case Read(r) => r < |s.readers| && s.readers[r].at == Reading && s.readers[r].index <= |s.sink.lines|
    case Deliver(r) => r < |s.readers| && s.readers[r].at.Delivering? && s.readers[r].at.batch != []
    case Fail(r) => r < |s.readers| && s.readers[r].at.Delivering? && s.readers[r].at.batch != []
    case Settle(r) => r < |s.readers| && s.readers[r].at.Delivering? && s.readers[r].at.batch == []
    case Wake(r) => r < |s.readers| && s.readers[r].at.Waiting? && s.sink.IsShut(s.readers[r].at.channel)
    case Leave(r) => r < |s.readers| && s.readers[r].at.Waiting?
  }

  // The reader's own step.
  function Next(sink: Sink, x: Reader, step: Step): Reader
    requires match step
             case Read(_) => x.index <= |sink.lines|
             case Deliver(_) => x.at.Delivering? && x.at.batch != []
             case Settle(_) => x.at.Delivering?
             case _ => true
  {
    match step
    case Read(_) => x.(at := Delivering(sink.lines[x.index..], |sink.lines|, sink.closed, sink.notify))
    case Deliver(_) => x.(at := x.at.(batch := x.at.batch[1..]), delivered := x.delivered + [x.at.batch[0]])
    case Fail(_) => x.(at := Ended(OnWriteError))
    case Settle(_) =>
      x.(index := x.at.next, at := if x.at.sawClosed then Ended(OnClosed) else Waiting(x.at.channel))
    case Wake(_) => x.(at := Reading)
    case Leave(_) => x.(at := Ended(OnRequestGone))
    case _ => x
  }

  function Do(s: State, step: Step): State
    requires Enabled(s, step)
  {
    match step
    case WriteLine(line) => s.(sink := s.sink.Write(line))
    case CloseSink => s.(sink := s.sink.Close())
    case Open => s.(readers := s.readers + [Reader(Reading, 0, [])])
    case _ => s.(readers := s.readers[step.r := Next(s.sink, s.readers[step.r], step)])
  }

  function Init(): State {
    State(Sink([], false, 0), [])
  }

  predicate IsRun(s: State, steps: seq<Step>)
    decreases |steps|
  {
    steps == [] || (Enabled(s, steps[0]) && IsRun(Do(s, steps[0]), steps[1..]))
  }

  function After(s: State, steps: seq<Step>): State
    requires IsRun(s, steps)
    decreases |steps|
  {
    if steps == [] then s else After(Do(s, steps[0]), steps[1..])
  }

  // The log after the first n lines holds something its reader must still hear
  // of: a further line, or the end.
  predicate MoreAfter(sink: Sink, n: nat) {
    n < |sink.lines| || sink.closed
  }

  predicate ReaderOk(sink: Sink, x: Reader) {
    match x.at
    case Reading => x.index <= |sink.lines| && x.delivered == sink.lines[..x.index]
    case Delivering(batch, next, sawClosed, channel) =>
      && next <= |sink.lines| && x.delivered + batch == sink.lines[..next]
      && (sawClosed ==> sink.closed && next == |sink.lines|)
      && (!sawClosed && MoreAfter(sink, next) ==> sink.IsShut(channel))
      && channel <= sink.notify
    case Waiting(channel) =>
      && x.index <= |sink.lines| && x.delivered == sink.lines[..x.index]
      && (MoreAfter(sink, x.index) ==> sink.IsShut(channel))
      && channel <= sink.notify
    case Ended(how) => x.delivered <= sink.lines && (how == OnClosed ==> sink.closed && x.delivered == sink.lines)
  }

  // What writers and Close may do to the sink.
  predicate Grows(s: Sink, t: Sink) {
    && s.lines <= t.lines
    && (s.closed ==> t == s)
    && s.notify <= t.notify
    && (|s.lines| < |t.lines| ==> s.notify < t.notify)
  }

  lemma ReaderStable(s: Sink, t: Sink, x: Reader)
    requires ReaderOk(s, x) && Grows(s, t)
    ensures ReaderOk(t, x)
  {
    assert forall n :: 0 <= n <= |s.lines| ==> t.lines[..n] == s.lines[..n];
  }

  lemma NextOk(sink: Sink, x: Reader, step: Step)
    requires ReaderOk(sink, x)
    requires match step
             case Read(_) => x.at == Reading
             case Deliver(_) => x.at.Delivering? && x.at.batch != []
             case Fail(_) => x.at.Delivering?
             case Settle(_) => x.at.Delivering? && x.at.batch == []
             case Wake(_) => x.at.Waiting?
             case Leave(_) => x.at.Waiting?
             case _ => true
    ensures ReaderOk(sink, Next(sink, x, step))
  {
    match step {
      case Read(_) => assert sink.lines[..x.index] + sink.lines[x.index..] == sink.lines[..|sink.lines|];
      case Deliver(_) => assert x.delivered + [x.at.batch[0]] + x.at.batch[1..] == x.delivered + x.at.batch;
      case Fail(_) => assert x.delivered <= x.delivered + x.at.batch;
      case Settle(_) => assert x.delivered + [] == x.delivered; assert sink.lines[..|sink.lines|] == sink.lines;
      case _ =>
    }
  }

  // One reader's loop.  history holds the sink at each of its ReadFrom calls;
  // after the last of them the request is gone.  writes(n) says whether the
  // n-th message can be sent.
  method StreamPlaywrightLogs(history: seq<Sink>, writes: nat -> bool) returns (delivered: seq<string>, how: End)
    requires history != [] && forall k :: 0 <= k < |history| - 1 ==> Grows(history[k], history[k + 1])
    ensures var last := history[|history| - 1];
            && delivered <= last.lines
            && (how == OnClosed ==> last.closed && delivered == last.lines)
            && (how == OnRequestGone ==> !last.closed && delivered == last.lines)
    ensures forall n :: 0 <= n < |delivered| ==> writes(n)
    ensures how == OnWriteError ==> !writes(|delivered|)
  {
    delivered := [];
    var index := 0;
    var k := 0;
    while true
      invariant 0 <= k < |history| && index == |delivered| && delivered <= history[k].lines
      invariant forall n :: 0 <= n < |delivered| ==> writes(n)
      decreases |history| - k
    {
      var sink := history[k];
      GrowsToLast(history, k);
      var lines := sink.lines[index..];
      for i := 0 to |lines|
        invariant delivered == sink.lines[..index + i]
        invariant forall n :: 0 <= n < |delivered| ==> writes(n)
      {
        if !writes(|delivered|) { return delivered, OnWriteError; }
        delivered := delivered + [lines[i]];
      }
      index := |sink.lines|;
      if sink.closed { return delivered, OnClosed; }
      if k + 1 == |history| { return delivered, OnRequestGone; }
      k := k + 1;
    }
  }

  lemma GrowsToLast(history: seq<Sink>, k: nat)
    requires k < |history| && forall j :: 0 <= j < |history| - 1 ==> Grows(history[j], history[j + 1])
    ensures Grows(history[k], history[|history| - 1])
    decreases |history| - k
  {
    if k < |history| - 1 {
      GrowsToLast(history, k + 1);
    }
  }

  predicate Inv(s: State) {
    forall r :: 0 <= r < |s.readers| ==> ReaderOk(s.sink, s.readers[r])
  }

  lemma StepKeeps(s: State, step: Step)
    requires Inv(s) && Enabled(s, step)
    ensures Inv(Do(s, step)) && Grows(s.sink, Do(s, step).sink)
  {
    var t := Do(s, step);
    if step.WriteLine? || step.CloseSink? || step.Open? {
      forall r | 0 <= r < |s.readers|
        ensures ReaderOk(t.sink, s.readers[r])
      {
        ReaderStable(s.sink, t.sink, s.readers[r]);
      }
    } else {
      NextOk(s.sink, s.readers[step.r], step);
    }
  }

  lemma {:induction false} RunKeeps(s: State, steps: seq<Step>)
    requires Inv(s) && IsRun(s, steps)
    ensures Inv(After(s, steps)) && Grows(s.sink, After(s, steps).sink)
    decreases |steps|
  {
    if steps != [] {
      StepKeeps(s, steps[0]);
      RunKeeps(Do(s, steps[0]), steps[1..]);
    }
  }

  // ----- Main results -----

  // Whatever writers, Close and other readers do, a reader has delivered a
  // prefix of the accepted lines: nothing lost, repeated or reordered.
  lemma DeliversPrefix(steps: seq<Step>, r: nat)
    requires IsRun(Init(), steps) && r < |After(Init(), steps).readers|
    ensures var s := After(Init(), steps); s.readers[r].delivered <= s.sink.lines
  {
    var s := After(Init(), steps);
    RunKeeps(Init(), steps);
    var x := s.readers[r];
    assert ReaderOk(s.sink, x);
    if x.at.Delivering? {
      assert x.delivered <= x.delivered + x.at.batch;
    }
  }

  // No wake-up is lost: a reader that sleeps while a line is undelivered, or
  // while the sink is closed, has a closed channel to wake it.
  lemma NoLostWakeup(steps: seq<Step>, r: nat)
    requires IsRun(Init(), steps) && r < |After(Init(), steps).readers|
    requires After(Init(), steps).readers[r].at.Waiting?
    ensures var s := After(Init(), steps);
            s.readers[r].delivered != s.sink.lines || s.sink.closed ==> Enabled(s, Wake(r))
  {
    var s := After(Init(), steps);
    RunKeeps(Init(), steps);
    assert ReaderOk(s.sink, s.readers[r]);
    assert s.sink.lines[..|s.sink.lines|] == s.sink.lines;
  }

  // A stream that ends because it saw the sink closed has delivered the whole
  // content, and no later write adds to it.
  lemma EndsComplete(steps: seq<Step>, more: seq<Step>, r: nat)
    requires IsRun(Init(), steps) && IsRun(After(Init(), steps), more)
    requires var s := After(Init(), steps); r < |s.readers| && s.readers[r].at == Ended(OnClosed)
    ensures var s := After(Init(), steps);
            && s.readers[r].delivered == s.sink.lines
            && After(s, more).sink == s.sink
            && Concat(s.readers[r].delivered) == Concat(After(s, more).sink.lines)
  {
    var s := After(Init(), steps);
    RunKeeps(Init(), steps);
    RunKeeps(s, more);
    assert ReaderOk(s.sink, s.readers[r]);
  }

  // After Close, a reader that meets no error needs no more than its own steps
  // to deliver everything: each of them brings it nearer to that end.
  function Remaining(sink: Sink, x: Reader): nat {
    match x.at
    case Ended(_) => 0
    case Delivering(batch, _, sawClosed, _) => if sawClosed then |batch| + 1 else |batch| + |sink.lines| + 4
    case Reading => |sink.lines| + 2
    case Waiting(_) => |sink.lines| + 3
  }

  lemma ClosedStreamsEnd(s: State, r: nat)
    requires Inv(s) && s.sink.closed && r < |s.readers| && !s.readers[r].at.Ended?
    ensures exists step :: (step == Read(r) || step == Deliver(r) || step == Settle(r) || step == Wake(r)) &&
              Enabled(s, step) && Remaining(s.sink, Do(s, step).readers[r]) < Remaining(s.sink, s.readers[r])
  {
    var x := s.readers[r];
    assert ReaderOk(s.sink, x);
    var step := match x.at
      case Reading => Read(r)
      case Delivering(batch, _, _, _) => if batch != [] then Deliver(r) else Settle(r)
      case _ => Wake(r);
    assert Enabled(s, step);
    assert Do(s, step).readers[r] == Next(s.sink, x, step);
  }
}
