/**
 * The asynchronous audit flusher as the steps its threads take: producers put entries on a queue, one worker
 * drains it, `flush` waits for the unfinished count to reach zero, `close` sets the stop event first.
 * Entries are opaque; putting, getting and counting down are atomic because the queue's own lock covers them.
 */
module AuditFlusher {
  type Entry = nat

  /**
   * Where the worker is. The loop test reads the stop event and, only if it is set, the queue; the two reads
   * are separate steps. `Writing` is before the write is attempted, `Written` after it, successful or not.
   */
  datatype Worker = NotStarted | LoopTest | EmptyTest | Getting | Writing(entry: Entry) | Written | Exited

  /** The shared state, with the history of entries put and entries whose write was attempted. */
  datatype Flusher = Flusher(
    started: bool, queue: seq<Entry>, unfinished: nat, stop: bool, worker: Worker,
    put: seq<Entry>, attempted: seq<Entry>)

  const Fresh := Flusher(false, [], 0, false, NotStarted, [], [])

  datatype Step =
    | EnsureWorker           // create queue, event and worker once
    | Put(entry: Entry)      // queue.put
    | SetStop                // close: stop_event.set
    | ReadStop | ReadEmpty | Get | Timeout | Attempt | TaskDone   // the worker

  predicate WorkerStep(step: Step) {
    step in {ReadStop, ReadEmpty, Get, Timeout, Attempt, TaskDone}
  }

  predicate Enabled(f: Flusher, step: Step) {
    match step
    case EnsureWorker => true
    case Put(_) => f.started
    case SetStop => f.started
    case ReadStop => f.worker == LoopTest
    case ReadEmpty => f.worker == EmptyTest
    case Get => f.worker == Getting && f.queue != []
    case Timeout => f.worker == Getting && f.queue == []
    case Attempt => f.worker.Writing?
    case TaskDone => f.worker == Written && f.unfinished > 0
  }

  function Take(f: Flusher, step: Step): Flusher
    requires Enabled(f, step)
  {
    match step
    case EnsureWorker => if f.started then f else f.(started := true, worker := LoopTest)
    case Put(entry) => f.(queue := f.queue + [entry], unfinished := f.unfinished + 1, put := f.put + [entry])
    case SetStop => f.(stop := true)
    case ReadStop => f.(worker := if f.stop then EmptyTest else Getting)
    case ReadEmpty => f.(worker := if f.queue == [] then Exited else Getting)
    case Get => f.(worker := Writing(f.queue[0]), queue := f.queue[1..])
    case Timeout => f.(worker := LoopTest)
    case Attempt => f.(worker := Written, attempted := f.attempted + [f.worker.entry])
    case TaskDone => f.(worker := LoopTest, unfinished := f.unfinished - 1)
  }

  ghost predicate IsRun(f: Flusher, steps: seq<Step>, end: Flusher)
    decreases |steps|
  {
    if steps == [] then f == end
    else Enabled(f, steps[0]) && IsRun(Take(f, steps[0]), steps[1..], end)
  }

  ghost predicate Reachable(f: Flusher) {
    exists steps :: IsRun(Fresh, steps, f)
  }

  /** The entry taken from the queue whose write has not been attempted yet. */
  function InFlight(f: Flusher): seq<Entry> {
    if f.worker.Writing? then [f.worker.entry] else []
  }

  function Busy(f: Flusher): nat {
    if f.worker.Writing? || f.worker == Written then 1 else 0
  }

  ghost predicate Inv(f: Flusher) {
    && f.put == f.attempted + InFlight(f) + f.queue
    && f.unfinished == |f.queue| + Busy(f)
    && (f.worker == NotStarted <==> !f.started)
    && (!f.started ==> f == Fresh)
    && (f.worker == EmptyTest || f.worker == Exited ==> f.stop)
  }

  lemma StepKeepsInv(f: Flusher, step: Step)
    requires Inv(f) && Enabled(f, step)
    ensures Inv(Take(f, step))
  {
    var g := Take(f, step);
    match step {
      case Put(entry) => assert f.put + [entry] == f.attempted + InFlight(f) + (f.queue + [entry]);
      case Get => assert f.queue == [f.queue[0]] + f.queue[1..];
      case Attempt => assert f.attempted + [f.worker.entry] + f.queue == f.attempted + InFlight(f) + f.queue;
      case _ =>
    }
  }

  lemma {:induction false} RunKeepsInv(f: Flusher, steps: seq<Step>, end: Flusher)
    requires Inv(f) && IsRun(f, steps, end)
    ensures Inv(end)
    decreases |steps|
  {
    if steps != [] {
      StepKeepsInv(f, steps[0]);
      RunKeepsInv(Take(f, steps[0]), steps[1..], end);
    }
  }

  // ---------------------------------------------------------------- no entry is lost or written twice

  /** Attempted, in flight and queued entries are, in this order, the entries in the order they were put. */
  lemma NothingLost(f: Flusher)
    requires Reachable(f)
    ensures f.put == f.attempted + InFlight(f) + f.queue
    ensures f.unfinished == |f.queue| + Busy(f)
  {
    var steps :| IsRun(Fresh, steps, f);
    RunKeepsInv(Fresh, steps, f);
  }

  /** The i-th attempt is at the i-th entry put: each once, in order, whatever became of the earlier writes. */
  lemma AttemptsFollowPuts(f: Flusher, i: nat)
    requires Reachable(f) && i < |f.attempted|
    ensures i < |f.put| && f.attempted[i] == f.put[i]
  {
    NothingLost(f);
  }

  /** The history only grows, so an attempt once made is never repeated or forgotten. */
  lemma {:induction false} HistoryGrows(f: Flusher, steps: seq<Step>, end: Flusher)
    requires IsRun(f, steps, end)
    ensures f.put <= end.put && f.attempted <= end.attempted
    decreases |steps|
  {
    if steps != [] {
      HistoryGrows(Take(f, steps[0]), steps[1..], end);
    }
  }

  /**
   * `flush` returns where it sees no unfinished work; by then everything put before it was called has been
   * attempted.
   */
  lemma FlushWaitsForAll(called: Flusher, steps: seq<Step>, returned: Flusher)
    requires Reachable(called) && IsRun(called, steps, returned) && returned.unfinished == 0
    ensures returned.attempted == returned.put
    ensures called.put <= returned.attempted
  {
    var before :| IsRun(Fresh, before, called);
    RunKeepsInv(Fresh, before, called);
    RunKeepsInv(called, steps, returned);
    HistoryGrows(called, steps, returned);
  }

  // ---------------------------------------------------------------- waiting ends

  /** How many steps the worker needs at most until nothing is unfinished. */
  function Work(f: Flusher): nat {
    5 * |f.queue| +
    match f.worker
    case LoopTest => 2
    case EmptyTest => 1
    case Getting => 0
    case Writing(_) => 4
    case Written => 3
    case _ => 0
  }

  /**
   * While work is unfinished and the worker lives, it has a next step, it cannot time out or exit, and the step is
   * progress.
   */
  lemma WorkerProgresses(f: Flusher)
    requires Inv(f) && f.unfinished > 0 && f.worker != Exited
    ensures exists step :: WorkerStep(step) && Enabled(f, step)
    ensures forall step | WorkerStep(step) && Enabled(f, step) ::
              && Work(Take(f, step)) < Work(f)
              && Take(f, step).worker != Exited
              && Take(f, step).put == f.put
  {
    match f.worker {
      case LoopTest => assert Enabled(f, ReadStop);
      case EmptyTest => assert Enabled(f, ReadEmpty);
      case Getting => assert Enabled(f, Get);
      case Writing(_) => assert Enabled(f, Attempt);
      case Written => assert Enabled(f, TaskDone);
      case _ =>
    }
  }

  /** How many of the steps the worker takes. */
  function WorkerSteps(steps: seq<Step>): nat {
    if steps == [] then 0 else (if WorkerStep(steps[0]) then 1 else 0) + WorkerSteps(steps[1..])
  }

  /** The other threads raise the measure only by what they put, and do not end the worker. */
  lemma OthersAddWork(f: Flusher, step: Step)
    requires Inv(f) && f.unfinished > 0 && f.worker != Exited && Enabled(f, step) && !WorkerStep(step)
    ensures Work(Take(f, step)) == Work(f) + if step.Put? then 5 else 0
    ensures Take(f, step).worker != Exited
  {
  }

  lemma DrainedLater(f: Flusher, step: Step, steps: seq<Step>, k: nat)
    requires Enabled(f, step) && k <= |steps| && Drained(Take(f, step), steps[..k])
    ensures Drained(f, ([step] + steps)[..k + 1])
  {
    var mid :| IsRun(Take(f, step), steps[..k], mid) && mid.unfinished == 0;
    var taken := ([step] + steps)[..k + 1];
    assert taken[0] == step && taken[1..] == steps[..k];
    assert IsRun(f, taken, mid);
  }

  /**
   * While the worker lives, every run in which it takes more steps than the measure and the entries put
   * meanwhile allow passes a moment with nothing unfinished, whatever producers and `close` do in between. So
   * `join` returns once the producers pause, in at most `Work` steps of the worker.
   */
  lemma {:induction false} JoinEnds(f: Flusher, steps: seq<Step>, end: Flusher)
    requires Inv(f) && f.worker != Exited && IsRun(f, steps, end)
    requires WorkerSteps(steps) > Work(f) + 5 * |Puts(steps)|
    ensures exists k | 0 <= k < |steps| :: Drained(f, steps[..k])
    decreases |steps|
  {
    if f.unfinished == 0 {
      assert IsRun(f, steps[..0], f);
      assert Drained(f, steps[..0]);
    } else {
      var step, rest := steps[0], steps[1..];
      StepKeepsInv(f, step);
      if WorkerStep(step) {
        WorkerProgresses(f);
      } else {
        OthersAddWork(f, step);
      }
      JoinEnds(Take(f, step), rest, end);
      var k :| 0 <= k < |rest| && Drained(Take(f, step), rest[..k]);
      DrainedLater(f, step, rest, k);
      assert steps == [step] + rest;
    }
  }

  /** The steps lead to a state with nothing unfinished. */
  ghost predicate Drained(f: Flusher, steps: seq<Step>) {
    exists end :: IsRun(f, steps, end) && end.unfinished == 0
  }

  // ---------------------------------------------------------------- after the worker has gone

  lemma {:induction false} ExitIsFinal(f: Flusher, steps: seq<Step>, end: Flusher)
    requires Inv(f) && f.worker == Exited && IsRun(f, steps, end)
    ensures end.worker == Exited && end.attempted == f.attempted && end.queue == f.queue + Puts(steps)
    ensures end.unfinished == f.unfinished + |Puts(steps)|
    decreases |steps|
  {
    if steps != [] {
      StepKeepsInv(f, steps[0]);
      ExitIsFinal(Take(f, steps[0]), steps[1..], end);
    }
  }

  function Puts(steps: seq<Step>): seq<Entry> {
    if steps == [] then []
    else (if steps[0].Put? then [steps[0].entry] else []) + Puts(steps[1..])
  }

  /**
   * The worker leaves nothing behind when it exits, so entries are stranded exactly when some are put after
   * that: then they are never attempted and every later `flush` or `close` waits forever.
   */
  lemma StrandedIffPutAfterExit(before: Flusher, steps: seq<Step>, end: Flusher)
    requires Reachable(before) && Enabled(before, ReadEmpty) && before.queue == []
    requires IsRun(Take(before, ReadEmpty), steps, end)
    ensures Take(before, ReadEmpty).worker == Exited && Take(before, ReadEmpty).attempted == before.put
    ensures end.attempted != end.put <==> Puts(steps) != []
    ensures end.unfinished > 0 <==> Puts(steps) != []
  {
    var run :| IsRun(Fresh, run, before);
    RunKeepsInv(Fresh, run, before);
    var gone := Take(before, ReadEmpty);
    StepKeepsInv(before, ReadEmpty);
    ExitIsFinal(gone, steps, end);
    RunKeepsInv(gone, steps, end);
  }

  ghost predicate NoPut(steps: seq<Step>) {
    forall i | 0 <= i < |steps| :: !steps[i].Put?
  }

  /** With no put after the stop event, an exited worker has attempted everything. */
  lemma StopThenExitLeavesNothing(stopped: Flusher, steps: seq<Step>, end: Flusher)
    requires Reachable(stopped) && stopped.worker != Exited
    requires IsRun(stopped, steps, end) && NoPut(steps) && end.worker == Exited
    ensures end.attempted == end.put == stopped.put && end.unfinished == 0
  {
    var run :| IsRun(Fresh, run, stopped);
    RunKeepsInv(Fresh, run, stopped);
    ExitsEmpty(stopped, steps, end);
    RunKeepsInv(stopped, steps, end);
  }

  lemma {:induction false} ExitsEmpty(f: Flusher, steps: seq<Step>, end: Flusher)
    requires Inv(f) && (f.worker == Exited ==> f.queue == [])
    requires IsRun(f, steps, end) && NoPut(steps)
    ensures end.put == f.put && (end.worker == Exited ==> end.queue == [])
    decreases |steps|
  {
    if steps != [] {
      StepKeepsInv(f, steps[0]);
      assert NoPut(steps[1..]) by {
        forall i | 0 <= i < |steps[1..]| ensures !steps[1..][i].Put? {
          assert steps[1..][i] == steps[i + 1];
        }
      }
      ExitsEmpty(Take(f, steps[0]), steps[1..], end);
    }
  }

  // ---------------------------------------------------------------- close ends the worker

  /** How many steps a worker that has been told to stop needs at most until it exits. */
  function ExitWork(f: Flusher): nat {
    if f.worker == Exited then 0
    else
      5 * |f.queue| +
      match f.worker
      case EmptyTest => 1
      case LoopTest => 2
      case Written => 3
      case Writing(_) => 4
      case _ => if f.queue == [] then 3 else 0
  }

  /** The living worker is never stuck. */
  lemma WorkerMoves(f: Flusher)
    requires Inv(f) && f.started && f.worker != Exited
    ensures exists step :: WorkerStep(step) && Enabled(f, step)
  {
    match f.worker {
      case LoopTest => assert Enabled(f, ReadStop);
      case EmptyTest => assert Enabled(f, ReadEmpty);
      case Getting => assert if f.queue == [] then Enabled(f, Timeout) else Enabled(f, Get);
      case Writing(_) => assert Enabled(f, Attempt);
      case Written => assert Enabled(f, TaskDone);
    }
  }

  lemma StepTowardsExit(f: Flusher, step: Step)
    requires Inv(f) && f.started && f.stop && Enabled(f, step) && !step.Put?
    ensures Take(f, step).started && Take(f, step).stop
    ensures ExitWork(Take(f, step)) + (if WorkerStep(step) then 1 else 0) <= ExitWork(f)
  {
  }

  /** Each step of a stopped worker is progress towards its exit, whatever else happens but puts. */
  lemma {:induction false} StepsTowardsExit(f: Flusher, steps: seq<Step>, end: Flusher)
    requires Inv(f) && f.started && f.stop && IsRun(f, steps, end) && NoPut(steps)
    ensures WorkerSteps(steps) + ExitWork(end) <= ExitWork(f)
    decreases |steps|
  {
    if steps != [] {
      var step, rest := steps[0], steps[1..];
      StepKeepsInv(f, step);
      StepTowardsExit(f, step);
      assert forall i | 0 <= i < |rest| :: rest[i] == steps[i + 1];
      StepsTowardsExit(Take(f, step), rest, end);
    }
  }

  /**
   * Once `close` has set the stop event and the producers are quiet, the worker exits: after at most `ExitWork` steps
   * of its own, with every entry attempted.
   */
  lemma CloseEnds(stopped: Flusher, steps: seq<Step>, end: Flusher)
    requires Reachable(stopped) && stopped.started && stopped.stop && stopped.worker != Exited
    requires IsRun(stopped, steps, end) && NoPut(steps) && WorkerSteps(steps) >= ExitWork(stopped)
    ensures end.worker == Exited && end.attempted == end.put == stopped.put && end.unfinished == 0
  {
    var run :| IsRun(Fresh, run, stopped);
    RunKeepsInv(Fresh, run, stopped);
    RunKeepsInv(stopped, steps, end);
    StepsTowardsExit(stopped, steps, end);
    assert end.worker == Exited by {
      StartedStays(stopped, steps, end);
    }
    StopThenExitLeavesNothing(stopped, steps, end);
  }

  lemma {:induction false} StartedStays(f: Flusher, steps: seq<Step>, end: Flusher)
    requires f.started && IsRun(f, steps, end)
    ensures end.started
    decreases |steps|
  {
    if steps != [] {
      StartedStays(Take(f, steps[0]), steps[1..], end);
    }
  }

  /** Without the stop event the worker never exits. */
  lemma ExitNeedsStop(f: Flusher)
    requires Reachable(f) && f.worker == Exited
    ensures f.stop
  {
    var steps :| IsRun(Fresh, steps, f);
    RunKeepsInv(Fresh, steps, f);
  }

  /** An entry put after `close` has ended the worker: reachable, never attempted, and `flush` would wait for ever. */
  lemma PutAfterExitHappens(entry: Entry) returns (before: Flusher, end: Flusher)
    ensures Reachable(before) && Enabled(before, ReadEmpty) && before.queue == []
    ensures IsRun(Take(before, ReadEmpty), [Put(entry)], end)
    ensures end.attempted == [] && end.put == [entry] && end.unfinished == 1
  {
    var started := Take(Fresh, EnsureWorker);
    var stopped := Take(started, SetStop);
    before := Take(stopped, ReadStop);
    end := Take(Take(before, ReadEmpty), Put(entry));
    var steps := [EnsureWorker, SetStop, ReadStop];
    assert steps[1..] == [SetStop, ReadStop] && [SetStop, ReadStop][1..] == [ReadStop] && [ReadStop][1..] == [];
    assert IsRun(before, [], before) && IsRun(stopped, [ReadStop], before) &&
      IsRun(started, [SetStop, ReadStop], before);
    assert IsRun(Fresh, steps, before);
    assert [Put(entry)][1..] == [];
  }
}
