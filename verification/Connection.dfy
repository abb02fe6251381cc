/** The message queue of one agent connection and the worker that drains it (consumer.py). */
module Connection {

  type Message = string

  // How the processing of a message ends.
  datatype Outcome = Processed | TimedOut | Cancelled | Failed

  datatype Worker = Waiting | Busy(msg: Message) | Stopped

  datatype Settled = Settled(msg: Message, outcome: Outcome)

  // accepted and settled are logs; the source keeps the other fields.
  datatype State = State(
    active: bool, queue: seq<Message>, worker: Worker,
    received: nat, processed: nat, dropped: nat,
    accepted: seq<Message>, settled: seq<Settled>)

  datatype Action =
    | Receive(msg: Message)
    | Take                      // the worker's get returns the head of the queue
    | GetTimeout                // the worker's get times out
    | CancelWaiting             // the worker is cancelled while it waits
    | Settle(outcome: Outcome)  // the message in work ends
    | MarkDisconnected          // disconnect, or a response that cannot be sent

  function Init(): State {
    State(true, [], Waiting, 0, 0, 0, [], [])
  }

  // asyncio.Queue takes a maximal size of zero or less as no limit.
  predicate Full(maxSize: int, queue: seq<Message>) {
    0 < maxSize <= |queue|
  }

  function Next(active: bool): Worker {
    if active then Waiting else Stopped
  }

  predicate Enabled(s: State, a: Action) {
    match a
    case Take => s.worker == Waiting && s.queue != []
    case GetTimeout => s.worker == Waiting
    case CancelWaiting => s.worker == Waiting
    case Settle(_) => s.worker.Busy?
    case _ => true
  }

  function Step(maxSize: int, s: State, a: Action): State {
    if !Enabled(s, a) then s
    else
      match a
      case Receive(msg) =>
        if !s.active then s
        else if Full(maxSize, s.queue) then s.(received := s.received + 1, dropped := s.dropped + 1)
        else s.(received := s.received + 1, queue := s.queue + [msg], accepted := s.accepted + [msg])
      case Take => s.(worker := Busy(s.queue[0]), queue := s.queue[1..])
      case GetTimeout => s.(worker := Next(s.active))
      case CancelWaiting => s.(worker := Stopped)
      case Settle(outcome) =>
        s.(worker := if outcome == Cancelled then Stopped else Next(s.active),
           processed := if outcome == Processed then s.processed + 1 else s.processed,
           settled := s.settled + [Settled(s.worker.msg, outcome)])
      case MarkDisconnected => s.(active := false)
  }

  class Consumer {
    const maxSize: int
    var active: bool
    var queue: seq<Message>
    var worker: Worker
    var received: nat
    var processed: nat
    var dropped: nat
    ghost var accepted: seq<Message>
    ghost var settled: seq<Settled>

    constructor (maxSize: int)
      ensures this.maxSize == maxSize && View() == Init()
    {
      this.maxSize := maxSize;
      active, queue, worker := true, [], Waiting;
      received, processed, dropped := 0, 0, 0;
      accepted, settled := [], [];
    }

    ghost function View(): State
      reads this
    {
      State(active, queue, worker, received, processed, dropped, accepted, settled)
    }

    method Receive(msg: Message)
      modifies this
      ensures View() == Step(maxSize, old(View()), Action.Receive(msg))
    {
      if !active {
        return;
      }
      received := received + 1;
      if 0 < maxSize <= |queue| {
        dropped := dropped + 1;
      } else {
        queue, accepted := queue + [msg], accepted + [msg];
      }
    }

    method TakeNext()
      requires worker == Waiting && queue != []
      modifies this
      ensures View() == Step(maxSize, old(View()), Take)
    {
      worker, queue := Busy(queue[0]), queue[1..];
    }

    method FinishMessage(outcome: Outcome)
      requires worker.Busy?
      modifies this
      ensures View() == Step(maxSize, old(View()), Settle(outcome))
    {
      settled := settled + [Settled(worker.msg, outcome)];
      if outcome == Processed {
        processed := processed + 1;
      }
      worker := if outcome != Cancelled && active then Waiting else Stopped;
    }

    method Disconnect()
      modifies this
      ensures View() == Step(maxSize, old(View()), MarkDisconnected)
    {
      active := false;
    }
  }

  // ---------------------------------------------------------------------------------------------
  // Whole runs
  // ---------------------------------------------------------------------------------------------

  function After(maxSize: int, run: seq<Action>): State {
    if run == [] then Init() else Step(maxSize, After(maxSize, run[..|run| - 1]), run[|run| - 1])
  }

  function Messages(settled: seq<Settled>): seq<Message> {
    seq(|settled|, i requires 0 <= i < |settled| => settled[i].msg)
  }

  // How many messages were processed, or abandoned for any of the other outcomes.
  function Count(settled: seq<Settled>, processed: bool): nat {
    if settled == [] then 0
    else
      Count(settled[..|settled| - 1], processed)
      + (if (settled[|settled| - 1].outcome == Processed) == processed then 1 else 0)
  }

  function InWork(worker: Worker): seq<Message> {
    if worker.Busy? then [worker.msg] else []
  }

  // Nothing is lost, repeated or reordered: what was accepted is what was settled, then what is in
  // work, then what waits.
  ghost predicate InOrder(s: State) {
    s.accepted == Messages(s.settled) + InWork(s.worker) + s.queue
  }

  ghost predicate Counted(maxSize: int, s: State) {
    && s.received == |s.accepted| + s.dropped
    && s.processed == Count(s.settled, true)
    && (maxSize > 0 ==> |s.queue| <= maxSize)
    && (maxSize <= 0 ==> s.dropped == 0)
  }

  lemma StepKeepsOrder(maxSize: int, s: State, a: Action)
    requires InOrder(s) && Enabled(s, a)
    ensures InOrder(Step(maxSize, s, a))
  {
    match a
    case Receive(msg) => AppendAssociates(Messages(s.settled) + InWork(s.worker), s.queue, [msg]);
    case Take => SettleHead(Messages(s.settled), s.queue);
    case Settle(outcome) => SettledAppend(s.settled, Settled(s.worker.msg, outcome));
    case _ =>
  }

  lemma AppendAssociates(a: seq<Message>, b: seq<Message>, c: seq<Message>)
    ensures a + (b + c) == a + b + c
  {
  }

  lemma SettleHead(settled: seq<Message>, queue: seq<Message>)
    requires queue != []
    ensures settled + [] + queue == settled + [queue[0]] + queue[1..]
  {
  }

  lemma SettledAppend(settled: seq<Settled>, last: Settled)
    ensures Messages(settled + [last]) + [] == Messages(settled) + [last.msg]
  {
  }

  lemma StepKeepsCounts(maxSize: int, s: State, a: Action)
    requires Counted(maxSize, s)
    ensures Counted(maxSize, Step(maxSize, s, a))
  {
    if a.Settle? && s.worker.Busy? {
      var settled := Step(maxSize, s, a).settled;
      assert settled[..|settled| - 1] == s.settled;
    }
  }

  lemma {:induction false} CountSplits(settled: seq<Settled>)
    ensures |settled| == Count(settled, true) + Count(settled, false)
  {
    if settled != [] {
      CountSplits(settled[..|settled| - 1]);
    }
  }

  // Main result: over every interleaving the counters account for every received message, the queue
  // respects its bound, and the worker takes the accepted messages in order.
  lemma {:induction false} QueueConserves(maxSize: int, run: seq<Action>)
    ensures var s := After(maxSize, run);
            && InOrder(s) && Counted(maxSize, s)
            && Messages(s.settled) + InWork(s.worker) <= s.accepted
            && s.received == s.processed + s.dropped + Count(s.settled, false)
                             + |InWork(s.worker)| + |s.queue|
  {
    if run != [] {
      QueueConserves(maxSize, run[..|run| - 1]);
      StepKeepsCounts(maxSize, After(maxSize, run[..|run| - 1]), run[|run| - 1]);
      if Enabled(After(maxSize, run[..|run| - 1]), run[|run| - 1]) {
        StepKeepsOrder(maxSize, After(maxSize, run[..|run| - 1]), run[|run| - 1]);
      }
    }
    CountSplits(After(maxSize, run).settled);
  }

  function Taken(s: State): nat {
    |s.settled| + |InWork(s.worker)|
  }

  function MayTake(worker: Worker): nat {
    if worker == Waiting then 1 else 0
  }

  // After a disconnect nothing is received any more, and a waiting worker takes at most one more message.
  lemma {:induction false} DisconnectIsFinal(maxSize: int, run: seq<Action>, later: seq<Action>)
    requires !After(maxSize, run).active
    ensures var s, s' := After(maxSize, run), After(maxSize, run + later);
            && !s'.active && s'.received == s.received && s'.accepted == s.accepted
            && Taken(s') + MayTake(s'.worker) <= Taken(s) + MayTake(s.worker)
  {
    if later == [] {
      assert run + later == run;
    } else {
      var rest := later[..|later| - 1];
      assert (run + later)[..|run + later| - 1] == run + rest;
      DisconnectIsFinal(maxSize, run, rest);
    }
  }

  // ---------------------------------------------------------------------------------------------
  // What is received, and what gets done
  // ---------------------------------------------------------------------------------------------

  predicate Connected(run: seq<Action>) {
    run == [] || (Connected(run[..|run| - 1]) && run[|run| - 1] != MarkDisconnected)
  }

  // The messages that arrive while connected.
  function Arrivals(run: seq<Action>): nat {
    if run == [] then 0
    else
      var before, last := run[..|run| - 1], run[|run| - 1];
      Arrivals(before) + (if last.Receive? && Connected(before) then 1 else 0)
  }

  // Whether the worker was cancelled.
  predicate WorkerCancelled(maxSize: int, run: seq<Action>) {
    run != [] &&
    (WorkerCancelled(maxSize, run[..|run| - 1])
     || (run[|run| - 1] == CancelWaiting && After(maxSize, run[..|run| - 1]).worker == Waiting)
     || (run[|run| - 1] == Settle(Cancelled) && After(maxSize, run[..|run| - 1]).worker.Busy?))
  }

  // How often the worker completed a message.
  function Completions(maxSize: int, run: seq<Action>): nat {
    if run == [] then 0
    else
      var before, last := run[..|run| - 1], run[|run| - 1];
      Completions(maxSize, before)
      + (if last == Settle(Processed) && After(maxSize, before).worker.Busy? then 1 else 0)
  }

  // Main result: the counters count the arrivals and the completions, and the worker only stops when it is
  // cancelled or the connection has ended; no timeout and no failing message stops it.
  lemma {:induction false} CountersExactly(maxSize: int, run: seq<Action>)
    ensures var s := After(maxSize, run);
            && s.active == Connected(run)
            && s.received == Arrivals(run)
            && s.processed == Completions(maxSize, run)
            && (s.worker == Stopped ==> !Connected(run) || WorkerCancelled(maxSize, run))
  {
    ActiveWhileConnected(maxSize, run);
    if run != [] {
      CountersExactly(maxSize, run[..|run| - 1]);
    }
  }

  lemma {:induction false} ActiveWhileConnected(maxSize: int, run: seq<Action>)
    ensures After(maxSize, run).active == Connected(run)
  {
    if run != [] {
      ActiveWhileConnected(maxSize, run[..|run| - 1]);
    }
  }

  lemma AfterAppend(maxSize: int, run: seq<Action>, a: Action)
    ensures After(maxSize, run + [a]) == Step(maxSize, After(maxSize, run), a)
  {
    assert (run + [a])[..|run + [a]| - 1] == run;
  }

  // Main result: a message is dropped exactly when it arrives at a bounded queue that is full.
  lemma DroppedExactly(maxSize: int, run: seq<Action>, msg: Message)
    ensures var s, s' := After(maxSize, run), After(maxSize, run + [Receive(msg)]);
            if !Connected(run) then s' == s
            else if maxSize <= 0 || |s.queue| < maxSize
            then s'.accepted == s.accepted + [msg] && s'.dropped == s.dropped
            else s'.accepted == s.accepted && s'.dropped == s.dropped + 1
  {
    CountersExactly(maxSize, run);
    QueueConserves(maxSize, run);
    AfterAppend(maxSize, run, Receive(msg));
  }

  // Main result: as long as the connection lives and the worker has not been cancelled, everything that
  // was accepted can still be processed, in order.
  lemma Drains(maxSize: int, run: seq<Action>) returns (later: seq<Action>)
    requires Connected(run) && !WorkerCancelled(maxSize, run)
    ensures var s, s' := After(maxSize, run), After(maxSize, run + later);
            && s'.accepted == s.accepted && s'.queue == [] && s'.worker == Waiting
            && Messages(s'.settled) == s'.accepted
            && s'.processed == s.processed + |InWork(s.worker)| + |s.queue|
  {
    CountersExactly(maxSize, run);
    var s := After(maxSize, run);
    if s.worker.Busy? {
      AfterAppend(maxSize, run, Settle(Processed));
      var rest := DrainsQueue(maxSize, run + [Settle(Processed)]);
      later := [Settle(Processed)] + rest;
      assert run + later == run + [Settle(Processed)] + rest;
    } else {
      later := DrainsQueue(maxSize, run);
    }
    QueueConserves(maxSize, run + later);
    var s' := After(maxSize, run + later);
    assert InWork(s'.worker) == [] && Messages(s'.settled) + [] + [] == Messages(s'.settled);
  }

  lemma {:induction false} DrainsQueue(maxSize: int, run: seq<Action>) returns (later: seq<Action>)
    requires After(maxSize, run).active && After(maxSize, run).worker == Waiting
    ensures var s, s' := After(maxSize, run), After(maxSize, run + later);
            && s'.accepted == s.accepted && s'.queue == [] && s'.worker == Waiting
            && s'.processed == s.processed + |s.queue|
    decreases |After(maxSize, run).queue|
  {
    if After(maxSize, run).queue == [] {
      later := [];
      assert run + later == run;
    } else {
      AfterAppend(maxSize, run, Take);
      AfterAppend(maxSize, run + [Take], Settle(Processed));
      var rest := DrainsQueue(maxSize, run + [Take] + [Settle(Processed)]);
      later := [Take, Settle(Processed)] + rest;
      assert run + later == run + [Take] + [Settle(Processed)] + rest;
    }
  }
}
