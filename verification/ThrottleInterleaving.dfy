/**
 * The same throttle with many requests in flight. A request arrives and reads the clock, runs its check under the
 * lock, authenticates outside it, and runs its outcome under the lock again. Other requests run and time passes
 * between any two of these steps, and a request may leave early with an exception.
 */
module ThrottleInterleaving {
  import opened Text
  import opened LoginThrottle

  /** A request in flight with the time it read; once it has passed its check, with the step at which it did. */
  datatype Request = Arrived(id: string, now: int) | Checked(id: string, now: int, at: nat)

  /**
   * The tables, the time, the requests in flight, the number of steps taken and, for each lockout, the step that
   * set it.
   */
  datatype World = World(state: State, time: int, flight: map<nat, Request>, clock: nat, lockedAt: map<string, nat>)

  function Start(time: int): World {
    World(Empty, time, map[], 0, map[])
  }

  datatype Step =
    | Pass(span: nat)
    | Arrive(r: nat, id: string)
    | Check(r: nat)
    | Finish(r: nat, authentic: bool)
    | Leave(r: nat)

  predicate Enabled(w: World, step: Step) {
    match step
    case Pass(_) => true
    case Arrive(r, _) => r !in w.flight
    case Check(r) => r in w.flight && w.flight[r].Arrived?
    case Finish(r, _) => r in w.flight && w.flight[r].Checked?
    case Leave(r) => r in w.flight
  }

  /** The step is one of a request of this identifier. */
  predicate Concerns(w: World, step: Step, id: string)
    requires Enabled(w, step)
  {
    match step
    case Pass(_) => false
    case Arrive(_, own) => own == id
    case Check(r) => w.flight[r].id == id
    case Finish(r, _) => w.flight[r].id == id
    case Leave(r) => w.flight[r].id == id
  }

  function Take(w: World, step: Step): World
    requires Enabled(w, step)
  {
    TakeIt(w, step).(clock := w.clock + 1)
  }

  function TakeIt(w: World, step: Step): World
    requires Enabled(w, step)
  {
    match step
    case Pass(span) => w.(time := w.time + span)
    case Arrive(r, id) => w.(flight := w.flight[r := Arrived(id, w.time)])
    case Check(r) => CheckIt(w, r, w.flight[r])
    case Finish(r, authentic) => FinishIt(w, r, w.flight[r], authentic)
    case Leave(r) => w.(flight := w.flight - {r})
  }

  function CheckIt(w: World, r: nat, q: Request): World {
    if Locked(w.state, q.id, q.now) then w.(flight := w.flight - {r})
    else w.(state := Prune(w.state, q.id, q.now), flight := w.flight[r := Checked(q.id, q.now, w.clock)])
  }

  function FinishIt(w: World, r: nat, q: Request, authentic: bool): World {
    if authentic then
      w.(state := ClearFailures(w.state, q.id), flight := w.flight - {r}, lockedAt := w.lockedAt - {q.id})
    else
      w.(state := RegisterFailure(w.state, q.id, q.now), flight := w.flight - {r},
         lockedAt := if |Attempts(w.state, q.id)| + 1 >= MAX_ATTEMPTS then w.lockedAt[q.id := w.clock] else w.lockedAt)
  }

  /** A run: each step is enabled where it is taken. */
  ghost predicate IsRun(w: World, steps: seq<Step>, end: World)
    decreases |steps|
  {
    if steps == [] then w == end
    else Enabled(w, steps[0]) && IsRun(Take(w, steps[0]), steps[1..], end)
  }

  ghost predicate Reachable(w: World) {
    exists time, steps :: IsRun(Start(time), steps, w)
  }

  ghost predicate DequesShort(w: World) {
    forall id | id in w.state.failed :: |w.state.failed[id]| < MAX_ATTEMPTS
  }

  ghost predicate StampsMatch(w: World) {
    && w.lockedAt.Keys == w.state.lockouts.Keys
    && (forall r | r in w.flight && w.flight[r].Checked? :: w.flight[r].at < w.clock)
    && (forall id | id in w.lockedAt :: w.lockedAt[id] < w.clock)
  }

  /** A checked request that would find its identifier locked out was checked before the lockout was set. */
  ghost predicate LocksGuard(w: World) {
    forall r | r in w.flight && w.flight[r].Checked? :: Guarded(w, w.flight[r])
  }

  predicate Guarded(w: World, q: Request)
    requires q.Checked?
  {
    q.id in w.state.lockouts && q.id in w.lockedAt ==>
      w.state.lockouts[q.id] <= q.now || q.at < w.lockedAt[q.id]
  }

  ghost predicate Inv(w: World) {
    DequesShort(w) && StampsMatch(w) && LocksGuard(w)
  }

  lemma {:induction false} DropOldShortens(attempts: seq<int>, now: int)
    ensures |DropOld(attempts, now)| <= |attempts|
  {
    if attempts != [] && now - attempts[0] > WINDOW {
      DropOldShortens(attempts[1..], now);
    }
  }

  lemma CheckKeepsInv(w: World, r: nat)
    requires Inv(w) && Enabled(w, Check(r))
    ensures Inv(Take(w, Check(r)))
  {
    var q, next := w.flight[r], Take(w, Check(r));
    DropOldShortens(Attempts(w.state, q.id), q.now);
    forall p | p in next.flight && next.flight[p].Checked? ensures Guarded(next, next.flight[p]) {
      if p != r {
        assert Guarded(w, w.flight[p]);
      }
    }
  }

  lemma FinishKeepsInv(w: World, r: nat, authentic: bool)
    requires Inv(w) && Enabled(w, Finish(r, authentic))
    ensures Inv(Take(w, Finish(r, authentic)))
  {
    var next := Take(w, Finish(r, authentic));
    assert next.lockedAt.Keys == next.state.lockouts.Keys;
    forall p | p in next.flight && next.flight[p].Checked? ensures Guarded(next, next.flight[p]) {
      assert Guarded(w, w.flight[p]);
    }
  }

  lemma StepKeepsInv(w: World, step: Step)
    requires Inv(w) && Enabled(w, step)
    ensures Inv(Take(w, step))
  {
    match step {
      case Check(r) => CheckKeepsInv(w, r);
      case Finish(r, authentic) => FinishKeepsInv(w, r, authentic);
      case _ =>
        var next := Take(w, step);
        forall p | p in next.flight && next.flight[p].Checked? ensures Guarded(next, next.flight[p]) {
          assert Guarded(w, w.flight[p]);
        }
    }
  }

  lemma {:induction false} RunKeepsInv(w: World, steps: seq<Step>, end: World)
    requires Inv(w) && IsRun(w, steps, end)
    ensures Inv(end)
    decreases |steps|
  {
    if steps != [] {
      StepKeepsInv(w, steps[0]);
      RunKeepsInv(Take(w, steps[0]), steps[1..], end);
    }
  }

  // ---------------------------------------------------------------- every interleaving

  lemma ReachableInv(w: World)
    requires Reachable(w)
    ensures Inv(w)
  {
    var time, steps :| IsRun(Start(time), steps, w);
    RunKeepsInv(Start(time), steps, w);
  }

  /** However requests interleave, no deque reaches MAX_ATTEMPTS. */
  lemma DequesStayShort(w: World, id: string)
    requires Reachable(w)
    ensures |Attempts(w.state, id)| < MAX_ATTEMPTS
  {
    ReachableInv(w);
  }

  /**
   * A lockout changes before it expires only through a request that was already past its check when the
   * lockout was set.
   */
  lemma LockoutChangesOnlyFromBefore(w: World, step: Step, id: string)
    requires Reachable(w) && Enabled(w, step)
    requires id in w.state.lockouts && Lockout(Take(w, step).state, id) != Lockout(w.state, id)
    ensures step.Finish? && w.flight[step.r].id == id && id in w.lockedAt
    ensures w.flight[step.r].now < w.state.lockouts[id] ==> w.flight[step.r].at < w.lockedAt[id]
  {
    ReachableInv(w);
    assert step.Finish? ==> Guarded(w, w.flight[step.r]);
  }

  /**
   * A refused check only ends its request; arriving, leaving and time change no table; no check changes a
   * lockout; no step touches another identifier.
   */
  lemma StepsAreLocal(w: World, step: Step, other: string)
    requires Enabled(w, step)
    ensures !Concerns(w, step, other) ==> CellOf(Take(w, step).state, other) == CellOf(w.state, other)
    ensures step.Check? && Locked(w.state, w.flight[step.r].id, w.flight[step.r].now) ==>
              Take(w, step).state == w.state && Take(w, step).flight == w.flight - {step.r}
    ensures step.Pass? || step.Arrive? || step.Leave? ==> Take(w, step).state == w.state
    ensures !step.Finish? ==> Take(w, step).state.lockouts == w.state.lockouts
  {
  }

  /** A request whose three steps follow each other at once is a sequential login. */
  lemma UninterruptedIsSequential(w: World, r: nat, id: string, authentic: bool)
    requires r !in w.flight
    ensures var arrived := Take(w, Arrive(r, id));
            var checked := Take(arrived, Check(r));
            if Locked(w.state, id, w.time) then
              checked.state == Login(w.state, id, w.time, authentic).0 && r !in checked.flight
            else
              && Enabled(checked, Finish(r, authentic))
              && Take(checked, Finish(r, authentic)).state == Login(w.state, id, w.time, authentic).0
  {
  }

  // ---------------------------------------------------------------- one identifier in a run

  /** The requests of an identifier that are in flight, from their arrival on. */
  function Flying(w: World, id: string): set<nat> {
    set r | r in w.flight && w.flight[r].id == id
  }

  /** Those of them that are between their two locked sections. */
  function BetweenSections(w: World, id: string): set<nat> {
    set r | r in w.flight && w.flight[r].id == id && w.flight[r].Checked?
  }

  /** The failures registered for an identifier since its last successful login: `h` before the steps. */
  function Registered(w: World, steps: seq<Step>, id: string, h: seq<int>): seq<int>
    decreases |steps|
  {
    if steps == [] || !Enabled(w, steps[0]) then h
    else Registered(Take(w, steps[0]), steps[1..], id, Record(w, steps[0], id, h))
  }

  /** What one step adds to the history. */
  function Record(w: World, step: Step, id: string, h: seq<int>): seq<int>
    requires Enabled(w, step)
  {
    if !step.Finish? || w.flight[step.r].id != id then h
    else if step.authentic then []
    else h + [w.flight[step.r].now]
  }

  /** The failures an identifier has registered since its last success, at the end of a run. */
  function FailuresOf(time: int, steps: seq<Step>, id: string): seq<int> {
    Registered(Start(time), steps, id, [])
  }

  /** At no moment of the run are more than `limit` requests of the identifier in flight. */
  ghost predicate AtMost(w: World, steps: seq<Step>, id: string, limit: nat)
    decreases |steps|
  {
    && |Flying(w, id)| <= limit
    && (steps != [] && Enabled(w, steps[0]) ==> AtMost(Take(w, steps[0]), steps[1..], id, limit))
  }

  /** At no moment of the run are more than `limit` of them between their two locked sections. */
  ghost predicate AtMostBetween(w: World, steps: seq<Step>, id: string, limit: nat)
    decreases |steps|
  {
    && |BetweenSections(w, id)| <= limit
    && (steps != [] && Enabled(w, steps[0]) ==> AtMostBetween(Take(w, steps[0]), steps[1..], id, limit))
  }

  // ---------------------------------------------------------------- projection on sequential logins

  /** No later check can tell the two apart. */
  ghost predicate Agree(c: Cell, s: Cell, from_: int) {
    c.lock == s.lock && forall now | now >= from_ :: DropOld(c.attempts, now) == DropOld(s.attempts, now)
  }

  /** The state after the check of a request that read this time. */
  ghost predicate CheckedOnly(c: Cell, s: Cell, now: int) {
    (s.lock.Some? ==> s.lock.value <= now) && c == Cell(DropOld(s.attempts, now), s.lock)
  }

  lemma {:induction false} DropOldTwice(d: seq<int>, now: int, later: int)
    requires now <= later
    ensures DropOld(DropOld(d, now), later) == DropOld(d, later)
  {
    if d != [] && now - d[0] > WINDOW {
      DropOldTwice(d[1..], now, later);
    }
  }

  lemma CheckedAgree(c: Cell, s: Cell, now: int, from_: int)
    requires CheckedOnly(c, s, now) && now <= from_
    ensures Agree(c, s, from_)
  {
    forall later | later >= from_ ensures DropOld(c.attempts, later) == DropOld(s.attempts, later) {
      DropOldTwice(s.attempts, now, later);
    }
  }

  /**
   * With at most one request in flight the tables of the identifier are, for all that is to come, those of the
   * sequential run of its finished requests, or those after the check of the next one.
   */
  ghost predicate Projects(w: World, id: string, events: seq<Event>) {
    var c, s := CellOf(w.state, id), CellOf(Run(events), id);
    if Flying(w, id) == {} then Agree(c, s, w.time)
    else exists r :: Flying(w, id) == {r} && Awaits(c, s, w.flight[r])
  }

  ghost predicate Awaits(c: Cell, s: Cell, q: Request) {
    if q.Arrived? then Agree(c, s, q.now) else CheckedOnly(c, s, q.now)
  }

  /** The requests of the identifier read the clock in the order in which they finished, and before now. */
  ghost predicate InOrder(w: World, id: string, events: seq<Event>) {
    && (forall i | 0 <= i < |events| :: events[i].id == id && events[i].now <= w.time)
    && (forall r | r in Flying(w, id) :: w.flight[r].now <= w.time)
    && (forall i, r | 0 <= i < |events| && r in Flying(w, id) :: events[i].now <= w.flight[r].now)
    && TimeAdvances(events)
  }

  /** A step that does not concern the identifier changes nothing it can see but the time. */
  lemma OtherStepKeeps(w: World, step: Step, id: string)
    requires Enabled(w, step) && !Concerns(w, step, id)
    ensures CellOf(Take(w, step).state, id) == CellOf(w.state, id)
    ensures Flying(Take(w, step), id) == Flying(w, id)
    ensures forall r | r in Flying(w, id) :: Take(w, step).flight[r] == w.flight[r]
    ensures Take(w, step).time >= w.time
    ensures forall h :: Record(w, step, id, h) == h
  {
  }

  lemma OtherStepProjects(w: World, step: Step, id: string, events: seq<Event>)
    requires Enabled(w, step) && !Concerns(w, step, id)
    requires Projects(w, id, events) && InOrder(w, id, events)
    ensures Projects(Take(w, step), id, events) && InOrder(Take(w, step), id, events)
  {
    OtherStepKeeps(w, step, id);
    if r :| Flying(w, id) == {r} && Awaits(CellOf(w.state, id), CellOf(Run(events), id), w.flight[r]) {
      assert r in Flying(w, id);
    }
  }

  lemma ArrivalProjects(w: World, r: nat, id: string, events: seq<Event>)
    requires r !in w.flight && Flying(w, id) == {}
    requires Projects(w, id, events) && InOrder(w, id, events)
    ensures Projects(Take(w, Arrive(r, id)), id, events) && InOrder(Take(w, Arrive(r, id)), id, events)
  {
    var next := Take(w, Arrive(r, id));
    assert Flying(next, id) == {r};
    assert Awaits(CellOf(next.state, id), CellOf(Run(events), id), next.flight[r]);
  }

  lemma SoleAwaits(w: World, r: nat, id: string, events: seq<Event>)
    requires Flying(w, id) == {r} && Projects(w, id, events)
    ensures Awaits(CellOf(w.state, id), CellOf(Run(events), id), w.flight[r])
  {
    var q :| Flying(w, id) == {q} && Awaits(CellOf(w.state, id), CellOf(Run(events), id), w.flight[q]);
    assert q in {r};
  }

  lemma CheckProjects(w: World, r: nat, id: string, events: seq<Event>)
    requires Enabled(w, Check(r)) && Flying(w, id) == {r}
    requires Projects(w, id, events) && InOrder(w, id, events)
    ensures Projects(Take(w, Check(r)), id, events) && InOrder(Take(w, Check(r)), id, events)
  {
    var next := Take(w, Check(r));
    SoleAwaits(w, r, id, events);
    assert r in Flying(w, id);
    if Locked(w.state, id, w.flight[r].now) {
      assert Flying(next, id) == {};
    } else {
      assert Flying(next, id) == {r};
      assert Awaits(CellOf(next.state, id), CellOf(Run(events), id), next.flight[r]);
    }
  }

  lemma LeaveProjects(w: World, r: nat, id: string, events: seq<Event>)
    requires Enabled(w, Leave(r)) && Flying(w, id) == {r}
    requires Projects(w, id, events) && InOrder(w, id, events)
    ensures Projects(Take(w, Leave(r)), id, events) && InOrder(Take(w, Leave(r)), id, events)
  {
    SoleAwaits(w, r, id, events);
    assert r in Flying(w, id);
    assert Flying(Take(w, Leave(r)), id) == {};
    if w.flight[r].Checked? {
      CheckedAgree(CellOf(w.state, id), CellOf(Run(events), id), w.flight[r].now, w.time);
    }
  }

  lemma RunAppend(events: seq<Event>, e: Event)
    ensures Run(events + [e]) == Login(Run(events), e.id, e.now, e.authentic).0
    ensures History(events + [e], e.id) ==
              match Login(Run(events), e.id, e.now, e.authentic).1
              case Rejected => History(events, e.id)
              case Failed => History(events, e.id) + [e.now]
              case Succeeded => []
  {
    assert (events + [e])[..|events|] == events;
  }

  lemma FinishProjects(w: World, r: nat, authentic: bool, id: string, events: seq<Event>)
    requires Enabled(w, Finish(r, authentic)) && Flying(w, id) == {r}
    requires Projects(w, id, events) && InOrder(w, id, events)
    ensures var next, e := Take(w, Finish(r, authentic)), Event(id, w.flight[r].now, authentic);
            && Projects(next, id, events + [e]) && InOrder(next, id, events + [e])
            && History(events + [e], id) == Record(w, Finish(r, authentic), id, History(events, id))
  {
    var now := w.flight[r].now;
    var next, e := Take(w, Finish(r, authentic)), Event(id, now, authentic);
    var c, s := CellOf(w.state, id), CellOf(Run(events), id);
    SoleAwaits(w, r, id, events);
    assert r in Flying(w, id) && CheckedOnly(c, s, now);
    assert Flying(next, id) == {};
    RunAppend(events, e);
    LoginIsLocal(Run(events), id, now, authentic, id);
    assert CellOf(next.state, id) == CellLogin(s, now, authentic).0;
  }

  lemma SoleFlyer(w: World, id: string, r: nat)
    requires |Flying(w, id)| <= 1 && r in Flying(w, id)
    ensures Flying(w, id) == {r}
  {
    assert |Flying(w, id) - {r}| == 0;
  }

  /** Nobody else is in flight when a request arrives that keeps the limit. */
  lemma NoneBefore(w: World, r: nat, id: string)
    requires r !in w.flight && |Flying(Take(w, Arrive(r, id)), id)| <= 1
    ensures Flying(w, id) == {}
  {
    assert Flying(Take(w, Arrive(r, id)), id) == Flying(w, id) + {r};
    assert r !in Flying(w, id);
    assert |Flying(w, id)| == 0;
  }

  /** The events a step adds to the sequential run. */
  function Adds(w: World, step: Step, id: string): seq<Event>
    requires Enabled(w, step)
  {
    if step.Finish? && w.flight[step.r].id == id then [Event(id, w.flight[step.r].now, step.authentic)] else []
  }

  lemma StepProjects(w: World, step: Step, id: string, events: seq<Event>)
    requires Enabled(w, step) && |Flying(w, id)| <= 1 && |Flying(Take(w, step), id)| <= 1
    requires Projects(w, id, events) && InOrder(w, id, events)
    ensures var all := events + Adds(w, step, id);
            && Projects(Take(w, step), id, all) && InOrder(Take(w, step), id, all)
            && History(all, id) == Record(w, step, id, History(events, id))
  {
    assert events + [] == events;
    if !Concerns(w, step, id) {
      OtherStepProjects(w, step, id, events);
    } else {
      match step {
        case Arrive(r, _) =>
          NoneBefore(w, r, id);
          ArrivalProjects(w, r, id, events);
        case Check(r) =>
          SoleFlyer(w, id, r);
          CheckProjects(w, r, id, events);
        case Finish(r, authentic) =>
          SoleFlyer(w, id, r);
          FinishProjects(w, r, authentic, id, events);
        case Leave(r) =>
          SoleFlyer(w, id, r);
          LeaveProjects(w, r, id, events);
      }
    }
  }

  /** Every run with at most one request of the identifier in flight is a sequential run as far as it is concerned. */
  lemma {:induction false} RunProjects(w: World, steps: seq<Step>, end: World, id: string, events: seq<Event>)
    returns (all: seq<Event>)
    requires IsRun(w, steps, end) && AtMost(w, steps, id, 1)
    requires Projects(w, id, events) && InOrder(w, id, events)
    ensures Projects(end, id, all) && TimeAdvances(all)
    ensures Registered(w, steps, id, History(events, id)) == History(all, id)
    decreases |steps|
  {
    if steps == [] {
      all := events;
    } else {
      StepProjects(w, steps[0], id, events);
      all := RunProjects(Take(w, steps[0]), steps[1..], end, id, events + Adds(w, steps[0], id));
    }
  }

  /**
   * The rate bound under interleaving: other identifiers may interleave freely, but of this one at most one
   * request is in flight, counted from its arrival.
   */
  lemma RateBoundOneInFlight(time: int, steps: seq<Step>, end: World, id: string, start: int)
    requires IsRun(Start(time), steps, end) && AtMost(Start(time), steps, id, 1)
    ensures CountWithin(FailuresOf(time, steps, id), start) <= MAX_ATTEMPTS
  {
    assert Flying(Start(time), id) == {};
    var all := RunProjects(Start(time), steps, end, id, []);
    RateBound(all, id, start);
  }

  // ---------------------------------------------------------------- identifiers are independent

  /** The steps of one identifier, and the passing of time. */
  function Own(w: World, steps: seq<Step>, id: string): seq<Step>
    decreases |steps|
  {
    if steps == [] || !Enabled(w, steps[0]) then []
    else
      (if steps[0].Pass? || Concerns(w, steps[0], id) then [steps[0]] else [])
      + Own(Take(w, steps[0]), steps[1..], id)
  }

  /** Two requests that differ at most in the step at which they were checked. */
  predicate SameRequest(p: Request, q: Request) {
    p.id == q.id && p.now == q.now && (p.Checked? <==> q.Checked?)
  }

  /** `v` is what `w` looks like to the identifier: time, its tables and its requests, without the others. */
  ghost predicate Seen(w: World, v: World, id: string) {
    && v.time == w.time && CellOf(v.state, id) == CellOf(w.state, id)
    && (forall r :: r in v.flight <==> r in Flying(w, id))
    && (forall r | r in v.flight :: SameRequest(v.flight[r], w.flight[r]))
  }

  lemma OwnCheckSeen(w: World, v: World, r: nat, id: string)
    requires Seen(w, v, id) && Enabled(w, Check(r)) && w.flight[r].id == id
    ensures Enabled(v, Check(r)) && Seen(Take(w, Check(r)), Take(v, Check(r)), id)
  {
    assert r in Flying(w, id);
    var now := w.flight[r].now;
    assert Locked(w.state, id, now) <==> Locked(v.state, id, now);
    assert Attempts(w.state, id) == Attempts(v.state, id);
  }

  lemma OwnFinishSeen(w: World, v: World, r: nat, authentic: bool, id: string)
    requires Seen(w, v, id) && Enabled(w, Finish(r, authentic)) && w.flight[r].id == id
    ensures Enabled(v, Finish(r, authentic)) && Seen(Take(w, Finish(r, authentic)), Take(v, Finish(r, authentic)), id)
  {
    assert r in Flying(w, id);
  }

  lemma OwnStepSeen(w: World, v: World, step: Step, id: string)
    requires Seen(w, v, id) && Enabled(w, step) && (step.Pass? || Concerns(w, step, id))
    ensures Enabled(v, step) && Seen(Take(w, step), Take(v, step), id)
    ensures forall h :: Record(v, step, id, h) == Record(w, step, id, h)
  {
    match step {
      case Pass(_) =>
      case Arrive(r, _) =>
      case Check(r) => OwnCheckSeen(w, v, r, id);
      case Finish(r, authentic) => OwnFinishSeen(w, v, r, authentic, id);
      case Leave(r) => assert r in Flying(w, id);
    }
  }

  lemma OtherStepSeen(w: World, v: World, step: Step, id: string)
    requires Seen(w, v, id) && Enabled(w, step) && !step.Pass? && !Concerns(w, step, id)
    ensures Seen(Take(w, step), v, id)
    ensures forall h :: Record(w, step, id, h) == h
  {
    OtherStepKeeps(w, step, id);
  }

  lemma {:induction false} RunSeen(w: World, steps: seq<Step>, end: World, v: World, id: string, h: seq<int>)
    returns (seen: World)
    requires IsRun(w, steps, end) && Seen(w, v, id)
    ensures IsRun(v, Own(w, steps, id), seen) && Seen(end, seen, id)
    ensures Registered(v, Own(w, steps, id), id, h) == Registered(w, steps, id, h)
    decreases |steps|
  {
    if steps == [] {
      seen := v;
    } else {
      var step, rest := steps[0], steps[1..];
      var own := Own(Take(w, step), rest, id);
      if step.Pass? || Concerns(w, step, id) {
        OwnStepSeen(w, v, step, id);
        seen := RunSeen(Take(w, step), rest, end, Take(v, step), id, Record(w, step, id, h));
        assert ([step] + own)[0] == step && ([step] + own)[1..] == own;
      } else {
        OtherStepSeen(w, v, step, id);
        seen := RunSeen(Take(w, step), rest, end, v, id, h);
        assert [] + own == own;
      }
    }
  }

  /** Leaving out the steps of all other identifiers from an interleaved run changes nothing for an identifier. */
  lemma InterleavedIndependent(time: int, steps: seq<Step>, end: World, id: string) returns (alone: World)
    requires IsRun(Start(time), steps, end)
    ensures IsRun(Start(time), Own(Start(time), steps, id), alone)
    ensures CellOf(alone.state, id) == CellOf(end.state, id) && Flying(alone, id) == Flying(end, id)
    ensures FailuresOf(time, Own(Start(time), steps, id), id) == FailuresOf(time, steps, id)
  {
    assert Flying(Start(time), id) == {};
    alone := RunSeen(Start(time), steps, end, Start(time), id, []);
    assert Flying(alone, id) == Flying(end, id);
  }
}
